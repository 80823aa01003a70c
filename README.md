# nri-vsphere inventory core, modelled in Dafny

This project models the inventory-discovery core of the New Relic vSphere
integration. It covers three pieces.

- **The per-datacenter inventory registry** (`Load.Datacenter`). It holds
  six registries keyed by managed-object reference: hosts, clusters,
  resource pools, datastores, networks and virtual machines. It also
  answers four relationship queries:
  - whether a resource pool is the default (root) pool;
  - a pool's name, empty for the default pool;
  - a host whose parent is a given compute resource;
  - the child pools of the pools a cluster owns.
- **The per-kind collection tasks** (`Collect.Hosts`,
  `Collect.ResourcePools`, `Collect.VirtualMachines`). They are
  module-level methods that take the shared `Collect.Config`. Each task walks the datacenters in
  order, and for each one it:
  - opens a container view over its entity kind;
  - retrieves a batch of records;
  - optionally fetches the batch's tags;
  - keeps the records the tag filter admits;
  - writes them into that datacenter's registry under their own reference;
  - hands the written references to the performance collector.

  View destroys are deferred to function exit. The remote calls are
  oracles: every datacenter gets a `Tasks.Reply`, which says whether the
  view was created, whether the retrieval succeeded, which batch came back
  and what the tagging service answered. Each task method is proved to
  leave exactly the state that the specification function `Tasks.Run`
  (`Tasks.VmRun` for the VM task) describes. The lemmas of module `Tasks`
  then state what that fold does:
  - which keys end up in which registry;
  - the order of the reference list;
  - skip-on-error for hosts and pools, against abort for VMs;
  - each created view destroyed exactly once;
  - the performance calls made;
  - nothing in the datacenters changing outside the task's own registry. The host and pool tasks also merge their tagging answers into the collector's shared tag cache, and filter against it.
- **The tag collector** (`Tags.TagCollector` and the pure functions of
  module `Tags`). It covers:
  - the `category=name` filter expression, split on white space with
    malformed tokens dropped, and replaced on every parse;
  - the match predicate;
  - the catalogue from tag id to Tag;
  - the per-object tag cache;
  - per-category grouping, with names sorted and joined with `|`.

  The collector's implementation file is not part of this model. Its
  behaviour is the behaviour that `internal/tag/tags_test.go` pins down.
  Its parsing, matching and grouping tests appear as lemmas
  (`Tags.ParseFilterOneTerm`, `Tags.MatchExamples`,
  `Tags.ByCategoryExample`, …). They also appear as two scenario methods
  that replay the tests against a collector object.

Modules and files:
- `managed_objects.dfy` (`ManagedObjects`) holds references and records.
- `text.dfy` (`Text`) holds Go's white-space field splitting, string order, sorting and joining.
- `datacenter.dfy` (`Load`) holds the registry and its queries.
- `tags.dfy` (`Tags`) holds the tag collector.
- `task.dfy` (`Tasks`) holds the specification of one collection task.
- `collect.dfy` (`Collect`) holds the imperative tasks.

Go maps iterate in an unspecified order. `FindHost` and `FindResourcePool`
pick each next key with `:|`, so their contracts hold for every iteration
order.

Two behaviours follow the code and tests where one might expect
otherwise:
- **Tag matching is "any term matches".** An object whose only tag is
  `region=eu` matches the filter `region=eu env=test`
  (`internal/tag/tags_test.go:183-186`). It does not take all terms
  together.
- **A fatal error in the VM task ends the process.** Its deferred view
  destroys therefore never run: `Collect.VirtualMachines` reports no
  destroyed views when it exits.

## Model

| member | source | states |
|---|---|---|
| Load.NewDatacenter | internal/load/datacenter.go:25-35 | The record holds the given datacenter descriptor, all six registries are empty, and no reference is a default pool. |
| Load.Datacenter.IsDefaultResourcePool | internal/load/datacenter.go:69-76 | An unregistered reference is never default. A registered one is default exactly when its pool's parent is not of kind ResourcePool. |
| Load.Datacenter.GetResourcePoolName | internal/load/datacenter.go:61-66 | The empty name for the default pool, otherwise the registered pool's name. Requires the reference to be registered, because the code dereferences the entry. |
| Load.Datacenter.FindHost | internal/load/datacenter.go:51-58 | None exactly when no registered host has parent `c`. Otherwise some registered host whose parent is `c`. |
| Load.Datacenter.FindResourcePool | internal/load/datacenter.go:38-48 | The result is the child entries of the owned pools for some enumeration of the registry. Its members are exactly the registry entries (nil for an unregistered child) of the children of pools owned by `c` that have children. |
| Load.Datacenter.AppendChildren | internal/load/datacenter.go:42-44 | Appends one entry per child ref, in order: the registered pool, or nil. |
| Load.Datacenter.Lookups | internal/load/datacenter.go:43 | One entry per child ref, in order, each the registry entry for that ref (None when it is missing). |
| Load.Datacenter.EnumerationMembers | internal/load/datacenter.go:38-48 | Over a full enumeration, a value appears in the result exactly when it is the entry of a child of an owned pool with children. |
| Load.Datacenter.ChildPoolsMembers | internal/load/datacenter.go:39-46 | For any visiting order of registered keys, the result's members are exactly the entries of the children of the visited owned pools. |
| Load.Datacenter.ChildPoolsLength | internal/load/datacenter.go:41-44 | The result is as long as the summed child counts of the owned pools. Pools owned by another cluster, or with no children, add nothing. |
| Load.Datacenter.ChildPoolsAppend | internal/load/datacenter.go:39-46 | Visiting `a` then `b` yields `a`'s contributions followed by `b`'s. |
| Load.Datacenter.ChildPoolsOrderIndependent | internal/load/datacenter.go:39 | Two visiting orders of the same keys give the same multiset of entries. |
| Load.Datacenter.ChildPoolsAreNotDefault | internal/load/datacenter.go:38-76 | In a registry keyed by self whose children name pools as parents, every found child pool is registered, is not default, and is named by GetResourcePoolName. |
| Text.Word | internal/tag/tags_test.go:122-141 | The longest space-free prefix; it stops at a white-space character. |
| Text.Fields | internal/tag/tags_test.go:122-141 | Every field is non-empty and holds no white space. |
| Text.FieldsEmpty | internal/tag/tags_test.go:122-141 | A string has no fields exactly when every character of it is white space. |
| Text.FieldsSplitAtSpace | internal/tag/tags_test.go:138-141 | Any white-space character between two strings separates their fields: the fields of the whole are the fields of the first part followed by those of the second. |
| Text.FieldsOfWord | internal/tag/tags_test.go:133-136 | A non-empty space-free string is a single field. |
| Text.Insert | internal/tag/tags_test.go:107-109 | Inserting into a sorted sequence keeps it sorted and adds exactly the one element. |
| Text.Sort | internal/tag/tags_test.go:107-109 | The result is sorted and is a permutation of the input. |
| Text.SortedUnique | internal/tag/tags_test.go:80-110 | Two sorted permutations of the same strings are equal, so sorting ignores input order. |
| Text.Join | internal/tag/tags_test.go:108-109 | Joining nothing gives the empty string, and joining one string gives that string. |
| Text.JoinAppend | internal/tag/tags_test.go:107-109 | Joining a non-empty list with one more string gives the old join, the separator, then that string. So two or more strings are joined with the separator between each neighbouring pair and nowhere else. |
| Tags.Term | internal/tag/tags_test.go:122-141 | A parsed term spells back to its token, and neither of its parts holds '='. |
| Tags.TermDefined | internal/tag/tags_test.go:122-141 | A token yields a term exactly when it holds a single '='. |
| Tags.TermsSound | internal/tag/tags_test.go:122-141 | Every parsed term comes from one of the tokens and holds no '=' in either part. |
| Tags.TermsComplete | internal/tag/tags_test.go:122-141 | Every token holding a single '=' contributes its term. |
| Tags.TermsAppend | internal/tag/tags_test.go:138-141 | The terms of concatenated token lists are the concatenated terms, so input order is kept. |
| Tags.ParsedTermsWritable | internal/tag/tags_test.go:122-141 | Every term of a parsed filter is one field of the expression and can be written back. |
| Tags.ParseFilterComplete | internal/tag/tags_test.go:122-141 | Every field of the expression that holds exactly one '=' yields a term of the filter. |
| Tags.TermOfToken | internal/tag/tags_test.go:132-136 | A term whose parts hold no '=' is read back from its token. |
| Tags.ParseRender | internal/tag/tags_test.go:137-141 | Parsing the space-separated rendering of writable terms gives back the same terms in the same order. |
| Tags.NoTermWithoutEq | internal/tag/tags_test.go:122-131 | A token without '=' yields no term. |
| Tags.BareWord | internal/tag/tags_test.go:122-126 | A bare word of letters parses to the empty filter. |
| Tags.ParseJoin | internal/tag/tags_test.go:137-141 | Parsing two expressions joined by a space gives the first's terms followed by the second's. |
| Tags.ParseLetterTerm | internal/tag/tags_test.go:132-136 | A `category=name` token of letters parses to exactly that one term. |
| Tags.ParseTwoLetterTerms | internal/tag/tags_test.go:137-141 | Two such tokens, one space apart, parse to those two terms in order. |
| Tags.ParseFilterBareWords | internal/tag/tags_test.go:122-126 | `key value` parses to the empty filter. |
| Tags.ParseFilterWithoutEq | internal/tag/tags_test.go:127-131 | `key:value` parses to the empty filter. |
| Tags.ParseFilterOneTerm | internal/tag/tags_test.go:132-136 | `region=eu` parses to the single term (region, eu). |
| Tags.ParseFilterTwoTerms | internal/tag/tags_test.go:137-141 | `region=eu env=test` parses to (region, eu) then (env, test). |
| Tags.Matches | internal/tag/tags_test.go:156-202 | True exactly when some tag equals some filter term. |
| Tags.AnyTermMatches | internal/tag/tags_test.go:183-186 | One shared term suffices for a match: the terms are alternatives, not a conjunction. |
| Tags.MatchTwoTermFilter | internal/tag/tags_test.go:167-191 | Under a two-term filter: no tags and a lone foreign tag do not match, while either term alone and both terms do. |
| Tags.MatchExamples | internal/tag/tags_test.go:160-191 | The five cases of the matching test under the filter `region=eu env=test`. |
| Tags.NamesInCount | internal/tag/tags_test.go:80-110 | A name occurs in a category's name list as often as that (category, name) tag is attached. |
| Tags.ByCategory | internal/tag/tags_test.go:107-109 | The grouping has a key exactly for each category among the tags. Each key's value is the category's names, each as often as it is attached, sorted and joined with `\|`. |
| Tags.ByCategoryValue | internal/tag/tags_test.go:80-110 | For a present category, any sorted listing holding each name as often as the tag (category, name) is attached, joined with `\|`, is the category's value. |
| Tags.SameCategories | internal/tag/tags_test.go:80-110 | Two listings of the same multiset of tags group into the same categories. |
| Tags.SameCategoryValue | internal/tag/tags_test.go:80-110 | Two listings of the same multiset of tags give a category the same value. |
| Tags.ByCategoryOrderIndependent | internal/tag/tags_test.go:80-110 | The grouping depends only on the multiset of attached tags, not on their listing order. |
| Tags.SortPair | internal/tag/tags_test.go:107-109 | Both arrangements of two ordered names sort to the ordered one. |
| Tags.TwoCategoryNames | internal/tag/tags_test.go:82-99 | For the four-tag layout of the test, the name lists of both categories, in listing order, and the categories present. |
| Tags.GroupTwoCategories | internal/tag/tags_test.go:80-110 | Two categories holding the same two names in opposite orders are both grouped as `a\|b`, with no other key. |
| Tags.ByCategoryExample | internal/tag/tags_test.go:107-109 | The grouping test: `cat1` and `cat2` both map to `A\|B`, and there is no other category. |
| Tags.EntriesListed | internal/tag/tags_test.go:26-38 | Every catalogue entry comes from some listed tag: that tag's id, paired with its category's name and its own name. |
| Tags.IndexResolves | internal/tag/tags_test.go:35-38 | With unique ids, every listed id resolves to the Tag it was listed with. |
| Tags.IndexKeys | internal/tag/tags_test.go:35-38 | An id is in the built catalogue exactly when it was already there or some listed pair carries it. |
| Tags.EntriesContain | internal/tag/tags_test.go:26-38 | Every tag of every category listing appears in the catalogue entries with its category's name. |
| Tags.CatalogResolves | internal/tag/tags_test.go:35-38 | After the catalogue is built from the listings, looking up a listed id gives the category and name it was created with. |
| Tags.ResolveListed | internal/tag/tags_test.go:44-78 | With the catalogue built from the listings and ids unique across it, reading an object's tags gives, for an attached id that is listed, the category it was listed under and the name it was created with, at the same position. |
| Tags.ResolveUnlisted | internal/tag/tags_test.go:72-75 | An attached id that is neither in the old catalogue nor in any listing resolves to the empty Tag. |
| Tags.TagCollector.constructor | internal/tag/tags_test.go:34 | A new collector has an empty filter, an empty catalogue and an empty cache. |
| Tags.TagCollector.BuildTagCache | internal/tag/tags_test.go:35-36 | Success exactly when the listing succeeds. The catalogue then gains every listed (id, Tag) pair; a failed listing leaves it unchanged. |
| Tags.TagCollector.GetTagByID | internal/tag/tags_test.go:37-38 | The catalogued Tag of a known id, and the empty Tag otherwise. |
| Tags.TagCollector.CacheTags | internal/tag/tags_test.go:105 | The cache keys become the old keys plus the batch's keys. A batch entry replaces the object's old entry, and the other entries are kept. |
| Tags.TagCollector.FetchTagsForObjects | internal/tag/tags_test.go:72-75 | Success exactly when the tagging service answered. The cache is then merged with the resolved answer; otherwise it is unchanged. |
| Tags.TagCollector.ParseFilterTagExpression | internal/tag/tags_test.go:143-151 | The filter is replaced by the parsed expression, not appended to. |
| Tags.TagCollector.MatchTags | internal/tag/tags_test.go:193-200 | False for no tags or an empty filter. Otherwise true exactly when some tag equals some filter term. |
| Tags.ParseFilterScenario | internal/tag/tags_test.go:112-154 | Parsing `key value`, `key:value`, `region=eu` and `region=eu env=test` in turn with one collector leaves, after each parse, the empty filter, the empty filter, (region, eu), and (region, eu) then (env, test). |
| Tags.GroupingScenario | internal/tag/tags_test.go:80-110 | Caching the four tags of the test for one object and grouping them gives exactly `cat1` and `cat2`, each mapped to `A\|B`. |
| Tags.TagCollector.MatchObjectTags | internal/collect/hosts.go:62 | An uncached object never matches. Otherwise it matches exactly when some cached tag of the object equals some filter term. |
| Tags.TagCollector.GetTagsByCategories | internal/tag/tags_test.go:107-109 | An uncached object gives the empty map. Otherwise there is a key exactly for each category among the object's cached tags, and its value is that category's names, sorted and joined with `\|`. |
| Tasks.StoreKeys | internal/collect/hosts.go:68 | After storing, the registry keys are the old keys plus the batch's references, and nothing else. |
| Tasks.StoreLastWins | internal/collect/vms.go:29 | A reference maps to the last record of the batch that carries it. |
| Tasks.StoreKeeps | internal/collect/hosts.go:68 | An entry the batch does not name keeps its old record. |
| Tasks.StoreGrowth | internal/collect/vms.go:28-30 | Storing adds at most as many keys as the batch has records. |
| Tasks.SurvivorsSound | internal/collect/hosts.go:61-66 | Every kept record is a retrieved record that the filter admits. |
| Tasks.SurvivorsComplete | internal/collect/hosts.go:61-66 | Every retrieved record that the filter admits is kept. |
| Tasks.SurvivorsUnfiltered | internal/collect/hosts.go:60-70 | With filtering off, every retrieved record is kept, in retrieval order. |
| Tasks.SurvivorsExtend | internal/collect/hosts.go:61-70 | One more retrieved record is kept exactly when the filter admits it. |
| Tasks.SurvivorStep | internal/collect/hosts.go:61-70 | One more retrieved record: the registry gains it and the reference list gains its reference exactly when the filter admits it. |
| Tasks.FetchedCache | internal/collect/hosts.go:51-58 | With tag collection off or a failed fetch, the cache is unchanged. Otherwise the answered objects get their attached ids resolved through the catalogue, id by id, and every other object keeps its entry. |
| Tasks.Step | internal/collect/hosts.go:31-75 | One iteration writes no registry but its own datacenter's. A failed view creation changes nothing. A failed retrieval only defers its view's destroy. At most one performance call is appended, the earlier ones kept. Without tag collection the cache is untouched. |
| Tasks.StepPerfSound | internal/collect/hosts.go:60-75 | The call an iteration appends is for its own retrieved datacenter, with the task's interval, and names only keys of the registry it leaves. |
| Tasks.Run | internal/collect/hosts.go:28-79 | The loop leaves the registries of datacenters it has not reached unchanged. |
| Tasks.RunNext | internal/collect/hosts.go:28 | Unfolding of `Tasks.Run`: the loop over one more datacenter is one more `Tasks.Step`. |
| Tasks.RunAt | internal/collect/hosts.go:28-70 | A datacenter whose view or retrieval failed keeps its registry. Otherwise its registry is the old one with the admitted records of its batch stored. Filtering uses the cache left by that iteration's tag fetch, and a failed fetch leaves the cache unchanged. |
| Tasks.StoreSurvivorsKeys | internal/collect/hosts.go:60-70 | The keys after storing are the old keys plus exactly the admitted references of the batch. |
| Tasks.RunKeys | internal/collect/hosts.go:28-70 | In a retrieved datacenter, a reference is a key of the new registry exactly when it was one before or is an admitted reference of the batch. |
| Tasks.RunCache | internal/collect/hosts.go:51-58 | Without tag collection the tag cache is never touched. |
| Tasks.RunViews | internal/collect/hosts.go:31-42 | Views are opened in increasing datacenter order, one for each datacenter whose view creation succeeded, and none for a failed creation. |
| Tasks.Reversed | internal/collect/hosts.go:37-42 | The deferred destroys run in reverse opening order. |
| Tasks.ReversedMultiset | internal/collect/hosts.go:37-42 | Reversal destroys the same views that were opened. |
| Tasks.ViewsReleasedOnce | internal/collect/hosts.go:31-42 | Every created view is destroyed exactly once, a failed creation schedules no destroy, and nothing else is destroyed. |
| Tasks.StepPerf | internal/collect/hosts.go:72-75 | Unfolding of `Tasks.Step` for the performance calls: an iteration appends one call, with its own stored references and the task's interval, exactly when it retrieved a batch and performance collection is on. |
| Tasks.RunPerfOff | internal/collect/hosts.go:72 | With performance collection off, no performance call is made. |
| Tasks.RunPerfSound | internal/collect/hosts.go:72-75 | Every performance call is for a retrieved datacenter, uses the task's interval, and names only keys of that datacenter's registry. |
| Tasks.RunPerfOrdered | internal/collect/hosts.go:28-78 | Performance calls are made in datacenter order, at most one per datacenter. |
| Tasks.RunPerfComplete | internal/collect/hosts.go:72-75 | With performance collection on, every retrieved datacenter gets a performance call. |
| Tasks.PerfRefs | internal/collect/hosts.go:60-75 | A retrieved datacenter's call names exactly its admitted references, in retrieval order. With filtering off, these are all of the batch's references. |
| Tasks.PerfPrefix | internal/collect/hosts.go:28-78 | Later iterations only append performance calls. |
| Tasks.VmRun | internal/collect/vms.go:15-31 | The loop leaves the registries of datacenters it has not reached unchanged. |
| Tasks.VmStep | internal/collect/vms.go:16-30 | One VM iteration writes no registry but its own datacenter's. After an abort it changes nothing. Otherwise it aborts, at this datacenter and with registries unchanged, exactly when the view creation or retrieval failed. |
| Tasks.VmRunNext | internal/collect/vms.go:15 | Unfolding of `Tasks.VmRun`: the VM loop over one more datacenter is one more `Tasks.VmStep`. |
| Tasks.VmRunAborts | internal/collect/vms.go:16-27 | The run aborts exactly when some view creation or retrieval fails, and it aborts at the first such datacenter. |
| Tasks.VmRunAt | internal/collect/vms.go:15-30 | A datacenter before the abort has its whole batch stored. A datacenter at or after the abort is unchanged. |
| Tasks.VmRunStops | internal/collect/vms.go:17-27 | Once the run has aborted, later datacenters change nothing. |
| Tasks.VmRunOpened | internal/collect/vms.go:16-20 | A run that completes has opened one view per datacenter, in order. |
| Tasks.VmRegistryGrowth | internal/collect/vms.go:28-30 | In a completed run, each registry gains at most the batch size. Its keys are the old keys plus the batch's references, and each reference maps to the last VM of the batch that carries it. |
| Collect.Config.constructor | internal/collect/hosts.go:23-24 | The configuration holds the given datacenters, tag collector and switches. |
| Collect.RunDeferred | internal/collect/hosts.go:37-42 | The deferred destroys run last-opened first. |
| Collect.WithHosts | internal/collect/hosts.go:68 | Replacing the host registries keeps the number of datacenters. |
| Collect.WithHostsFrame | internal/collect/hosts.go:68 | Each datacenter gets the given host registry, and nothing else in it changes. |
| Collect.WithPoolsFrame | internal/collect/resourcepools.go:63 | Each datacenter gets the given pool registry, and nothing else in it changes. |
| Collect.WithVmsFrame | internal/collect/vms.go:29 | Each datacenter gets the given VM registry, and nothing else in it changes. |
| Collect.StoreHosts | internal/collect/hosts.go:60-70 | Only datacenter `i`'s host registry changes: it gains the admitted hosts under their references. The returned list is their references in retrieval order. |
| Collect.Hosts | internal/collect/hosts.go:17-80 | The datacenters' host registries, the tag cache, the destroyed views and the performance calls are those of `Tasks.Run` with the real-time interval. The number of datacenters is kept, and every field of a datacenter other than its host registry is unchanged. |
| Collect.StorePools | internal/collect/resourcepools.go:55-65 | Only datacenter `i`'s pool registry changes: it gains the admitted pools under their references. The returned list is their references in retrieval order. |
| Collect.ResourcePools | internal/collect/resourcepools.go:15-75 | The datacenters' pool registries, the tag cache, the destroyed views and the performance calls are those of `Tasks.Run` with the five-minute interval. The number of datacenters is kept, and every field of a datacenter other than its pool registry is unchanged. |
| Collect.StoreVms | internal/collect/vms.go:28-30 | Only datacenter `i`'s VM registry changes: every VM of the batch is written under its reference. |
| Collect.VirtualMachines | internal/collect/vms.go:11-32 | The task exits exactly when `Tasks.VmRun` aborts, and then destroys no view. Otherwise it destroys every opened view, last first. The VM registries are those of `Tasks.VmRun`. The number of datacenters is kept, and every field of a datacenter other than its VM registry is unchanged. |

## Left out

- The six-goroutine fan-out of `CollectData` (`internal/collect/collect.go:35-71`) is concurrency. The tasks are modelled as sequential methods. Each one writes only its own registry in the datacenters. The host and pool tasks, however, both merge into the collector's shared tag cache and filter against it. So the result of running them side by side can depend on which one fetches first. The model does not show the tasks' order to be irrelevant. That holds only when the two tasks' tagging answers agree about every object they both name, and nothing in the model constrains the answers (`Reply.attached`) to agree.
- The datacenter, cluster, datastore and network tasks are not part of this model. Neither is the output stage that builds metric records.
- The remote calls are oracles: view creation, retrieval, the tag listing and fetch, and the performance collector. `AddPerfMetrics` is not modelled; the performance calls are recorded as values instead.
- Logging, timing and log messages are left out.
- Stored records are values keyed by their reference. The model makes no claim about pointer identity: `&host` and `&rp` alias the loop variable under older Go.
- Nil `Parent` pointers are assumed present and are not modelled as a panic.
- The count that `FetchTagsForObjects` returns is dropped, because the tasks ignore it.
- Tags.TagCollector.FetchTagsForObjects: the request sent to the tagging service is not modelled. The answer arrives as the id lists attached to each object.
- Tags: tag-collector behaviour is modelled from its unit tests, because the collector's implementation file is not part of this model. In particular:
  - The parsed filter keeps the tokens with exactly one '='.
  - The cache is merged map by map.
  - The catalogue is built from per-category listings, a later id overwriting an earlier one.
- Text.IsSpace: white space is the Unicode set that Go's field splitter uses. Strings are sequences of characters, with no encoding.
- Collect.Config: the three switches are fields that no task changes. The tag switches are read once at the start of a task (`internal/collect/hosts.go:23-24`, `internal/collect/resourcepools.go:19-20`). The performance switch is read afresh in every iteration (`internal/collect/hosts.go:72`, `internal/collect/resourcepools.go:67`). Because nothing changes it during a task, the model reads the same field each time. The metric definitions and the performance collector object are left out.
- Load.Datacenter.GetResourcePoolName: its requires excludes an unregistered reference. Such a reference is never default, so the code dereferences a nil entry and panics (`internal/load/datacenter.go:61-66`).
- Process start-up, login and configuration sanitising are not part of this model.
