/**
 * The specification of one per-kind collection task: for every datacenter
 * in turn, open a container view over one entity kind, retrieve a batch of
 * records, optionally fetch their tags, keep the records the tag filter
 * admits, store them in that datacenter's registry under their own
 * reference and hand the stored references to the performance collector.
 *
 * The remote calls are oracles: each datacenter gets a `Reply` saying
 * whether the view could be created, whether the retrieval succeeded and,
 * if it did, which batch came back and what the tagging service answered
 * when asked for the batch's tags. `Run` folds `Step` over the replies;
 * the lemmas below state what the fold does to every registry.
 */
module Tasks {
  import opened ManagedObjects
  import opened Tags

  /** What the inventory service answered for one datacenter. */
  datatype Reply<T> =
    | ViewFailed
    | RetrieveFailed
    | Retrieved(batch: seq<T>, attached: Option<map<Mor, seq<TagId>>>)

  /** The sampling interval asked of the performance collector. */
  datatype Interval = RealTimeInterval | FiveMinutesInterval

  /** One call of the performance collector: the datacenter, the refs and the interval. */
  datatype PerfCall = PerfCall(datacenter: nat, refs: seq<Mor>, interval: Interval)

  /**
   * What one task reads and never changes: the three configuration
   * switches, the tag filter, the tag catalogue, its interval and the
   * reference of a record.
   */
  datatype Task<!T> = Task(
    collectTags: bool,
    filterByTag: bool,
    perfMetrics: bool,
    filter: seq<Tag>,
    byId: map<TagId, Tag>,
    interval: Interval,
    key: T -> Mor)

  /**
   * What a task changes: the task's registry of every datacenter, the
   * per-object tag cache, the views opened (whose destroys are deferred, in
   * opening order) and the performance calls made.
   */
  datatype Pass<T> = Pass(regs: seq<map<Mor, T>>, cache: TagIndex, views: seq<nat>, perf: seq<PerfCall>)

  // ---------------------------------------------------------------------
  // Storing a batch under the records' own references.
  // ---------------------------------------------------------------------

  /** `m` with each record of `xs` written in turn under its reference. */
  function Store<T>(m: map<Mor, T>, xs: seq<T>, key: T -> Mor): map<Mor, T> {
    if xs == [] then m else Store(m, xs[..|xs| - 1], key)[key(xs[|xs| - 1]) := xs[|xs| - 1]]
  }

  /** The keys after storing are the old keys and the references of the batch, nothing else. */
  lemma {:induction false} StoreKeys<T>(m: map<Mor, T>, xs: seq<T>, key: T -> Mor)
    ensures forall r :: r in Store(m, xs, key) <==> r in m || exists j :: 0 <= j < |xs| && key(xs[j]) == r
  {
    if xs != [] {
      var n := |xs| - 1;
      StoreKeys(m, xs[..n], key);
      forall r | r in Store(m, xs, key) && r !in m ensures exists j :: 0 <= j < |xs| && key(xs[j]) == r {
        if r != key(xs[n]) {
          var j :| 0 <= j < n && key(xs[..n][j]) == r;
          assert key(xs[j]) == r;
        }
      }
      forall r | exists j :: 0 <= j < |xs| && key(xs[j]) == r ensures r in Store(m, xs, key) {
        var j :| 0 <= j < |xs| && key(xs[j]) == r;
        if j < n {
          assert key(xs[..n][j]) == r;
        }
      }
    }
  }

  /** A reference maps to the last record of the batch that carries it. */
  lemma {:induction false} StoreLastWins<T>(m: map<Mor, T>, xs: seq<T>, key: T -> Mor, j: nat)
    requires j < |xs|
    requires forall l :: j < l < |xs| ==> key(xs[l]) != key(xs[j])
    ensures key(xs[j]) in Store(m, xs, key) && Store(m, xs, key)[key(xs[j])] == xs[j]
  {
    var n := |xs| - 1;
    if j < n {
      assert xs[..n][j] == xs[j];
      StoreLastWins(m, xs[..n], key, j);
    }
  }

  /** An entry the batch does not name keeps its old record. */
  lemma {:induction false} StoreKeeps<T>(m: map<Mor, T>, xs: seq<T>, key: T -> Mor, r: Mor)
    requires r in m && forall j :: 0 <= j < |xs| ==> key(xs[j]) != r
    ensures r in Store(m, xs, key) && Store(m, xs, key)[r] == m[r]
  {
    if xs != [] {
      var n := |xs| - 1;
      assert forall j :: 0 <= j < n ==> xs[..n][j] == xs[j];
      StoreKeeps(m, xs[..n], key, r);
    }
  }

  /** Storing a batch adds at most as many keys as the batch has records. */
  lemma {:induction false} StoreGrowth<T>(m: map<Mor, T>, xs: seq<T>, key: T -> Mor)
    ensures |Store(m, xs, key).Keys| <= |m.Keys| + |xs|
  {
    if xs != [] {
      var n := |xs| - 1;
      StoreGrowth(m, xs[..n], key);
      var before := Store(m, xs[..n], key);
      assert Store(m, xs, key).Keys == before.Keys + {key(xs[n])};
    }
  }

  // ---------------------------------------------------------------------
  // The tag filter over a batch.
  // ---------------------------------------------------------------------

  /** Whether the task keeps the record with reference `ref`, given the tag cache. */
  predicate Admits<T>(t: Task<T>, cache: TagIndex, ref: Mor) {
    !t.filterByTag || Matches(t.filter, ObjectTags(cache, ref))
  }

  /** The records of `xs` the filter admits, in retrieval order. */
  function Survivors<T>(t: Task<T>, cache: TagIndex, xs: seq<T>): seq<T> {
    if xs == [] then []
    else
      var n := |xs| - 1;
      Survivors(t, cache, xs[..n]) + (if Admits(t, cache, t.key(xs[n])) then [xs[n]] else [])
  }

  /** Every survivor is a retrieved record the filter admits. */
  lemma {:induction false} SurvivorsSound<T>(t: Task<T>, cache: TagIndex, xs: seq<T>, k: nat)
    requires k < |Survivors(t, cache, xs)|
    ensures exists j :: 0 <= j < |xs| && xs[j] == Survivors(t, cache, xs)[k] && Admits(t, cache, t.key(xs[j]))
  {
    var n := |xs| - 1;
    var init := Survivors(t, cache, xs[..n]);
    if k < |init| {
      SurvivorsSound(t, cache, xs[..n], k);
      var j :| 0 <= j < n && xs[..n][j] == init[k] && Admits(t, cache, t.key(xs[..n][j]));
      assert xs[j] == Survivors(t, cache, xs)[k];
    } else {
      assert Survivors(t, cache, xs)[k] == xs[n];
    }
  }

  /** Every retrieved record the filter admits survives. */
  lemma {:induction false} SurvivorsComplete<T>(t: Task<T>, cache: TagIndex, xs: seq<T>, j: nat)
    requires j < |xs| && Admits(t, cache, t.key(xs[j]))
    ensures exists k :: 0 <= k < |Survivors(t, cache, xs)| && Survivors(t, cache, xs)[k] == xs[j]
  {
    var n := |xs| - 1;
    var init := Survivors(t, cache, xs[..n]);
    if j < n {
      assert xs[..n][j] == xs[j];
      SurvivorsComplete(t, cache, xs[..n], j);
      var k :| 0 <= k < |init| && init[k] == xs[j];
      assert Survivors(t, cache, xs)[k] == xs[j];
    } else {
      assert Survivors(t, cache, xs)[|init|] == xs[n];
    }
  }

  /** With filtering off every record survives, in retrieval order. */
  lemma {:induction false} SurvivorsUnfiltered<T>(t: Task<T>, cache: TagIndex, xs: seq<T>)
    requires !t.filterByTag
    ensures Survivors(t, cache, xs) == xs
  {
    if xs != [] {
      var n := |xs| - 1;
      SurvivorsUnfiltered(t, cache, xs[..n]);
      assert xs == xs[..n] + [xs[n]];
    }
  }

  /** The references of `xs`, in order. */
  function Refs<T>(xs: seq<T>, key: T -> Mor): seq<Mor> {
    seq(|xs|, j requires 0 <= j < |xs| => key(xs[j]))
  }

  /** One more retrieved record: it survives iff the filter admits it. */
  lemma SurvivorsExtend<T>(t: Task<T>, cache: TagIndex, xs: seq<T>, j: nat)
    requires j < |xs|
    ensures Survivors(t, cache, xs[..j + 1]) ==
      Survivors(t, cache, xs[..j]) + (if Admits(t, cache, t.key(xs[j])) then [xs[j]] else [])
  {
    assert xs[..j + 1][..j] == xs[..j];
  }

  /** Storing one more record writes it under its reference. */
  lemma StoreExtend<T>(m: map<Mor, T>, xs: seq<T>, x: T, key: T -> Mor)
    ensures Store(m, xs + [x], key) == Store(m, xs, key)[key(x) := x]
  {
    assert (xs + [x])[..|xs|] == xs;
  }

  lemma RefsExtend<T>(xs: seq<T>, x: T, key: T -> Mor)
    ensures Refs(xs + [x], key) == Refs(xs, key) + [key(x)]
  {
  }

  /** One more retrieved record: the registry and the reference list grow by it exactly when the filter admits it. */
  lemma SurvivorStep<T>(t: Task<T>, cache: TagIndex, xs: seq<T>, j: nat, m: map<Mor, T>, key: T -> Mor)
    requires j < |xs| && key == t.key
    ensures var before := Survivors(t, cache, xs[..j]);
      var after := Survivors(t, cache, xs[..j + 1]);
      && Store(m, after, key) == (if Admits(t, cache, key(xs[j])) then Store(m, before, key)[key(xs[j]) := xs[j]] else Store(m, before, key))
      && Refs(after, key) == Refs(before, key) + (if Admits(t, cache, key(xs[j])) then [key(xs[j])] else [])
  {
    SurvivorsExtend(t, cache, xs, j);
    var before := Survivors(t, cache, xs[..j]);
    if Admits(t, cache, key(xs[j])) {
      StoreExtend(m, before, xs[j], key);
      RefsExtend(before, xs[j], key);
    } else {
      assert Survivors(t, cache, xs[..j + 1]) == before;
    }
  }

  /** The tag cache after the optional tag fetch for one batch; a failed fetch changes nothing. */
  function Fetched<T>(t: Task<T>, cache: TagIndex, attached: Option<map<Mor, seq<TagId>>>): TagIndex {
    if t.collectTags && attached.Some? then cache + Resolve(t.byId, attached.value) else cache
  }

  /**
   * A failed fetch, or tag collection off, leaves the cache as it was.
   * Otherwise every object of the answer gets its attached ids resolved
   * through the catalogue, and every other object keeps its entry.
   */
  lemma FetchedCache<T>(t: Task<T>, cache: TagIndex, attached: Option<map<Mor, seq<TagId>>>)
    ensures !t.collectTags || attached.None? ==> Fetched(t, cache, attached) == cache
    ensures t.collectTags && attached.Some? ==>
      var r := Fetched(t, cache, attached);
      && r.Keys == cache.Keys + attached.value.Keys
      && (forall ref :: ref in cache && ref !in attached.value ==> r[ref] == cache[ref])
      && (forall ref, k :: ref in attached.value && 0 <= k < |attached.value[ref]| ==>
            |r[ref]| == |attached.value[ref]| && r[ref][k] == LookupTag(t.byId, attached.value[ref][k]))
  {
  }

  // ---------------------------------------------------------------------
  // One datacenter, and the whole loop.
  // ---------------------------------------------------------------------

  /**
   * The iteration for datacenter `i`. It writes no registry but datacenter
   * `i`'s. A failed view creation changes nothing and defers no destroy; a
   * failed retrieval only defers the destroy of its view. Performance calls
   * are only ever appended, at most one per iteration, and without tag
   * collection the tag cache is left alone.
   */
  function Step<T>(t: Task<T>, p: Pass<T>, i: nat, reply: Reply<T>): (r: Pass<T>)
    requires i < |p.regs|
    ensures |r.regs| == |p.regs|
    ensures forall d :: 0 <= d < |p.regs| && d != i ==> r.regs[d] == p.regs[d]
    ensures reply.ViewFailed? ==> r == p
    ensures reply.RetrieveFailed? ==> r == p.(views := p.views + [i])
    ensures |p.perf| <= |r.perf| <= |p.perf| + 1 && r.perf[..|p.perf|] == p.perf
    ensures !t.collectTags ==> r.cache == p.cache
  {
    match reply
    case ViewFailed => p
    case RetrieveFailed => p.(views := p.views + [i])
    case Retrieved(batch, attached) =>
      var cache := Fetched(t, p.cache, attached);
      var kept := Survivors(t, cache, batch);
      Pass(
        p.regs[i := Store(p.regs[i], kept, t.key)],
        cache,
        p.views + [i],
        if t.perfMetrics then p.perf + [PerfCall(i, Refs(kept, t.key), t.interval)] else p.perf)
  }

  /** The loop over the first |replies| datacenters, starting from `p0`. */
  function Run<T>(t: Task<T>, p0: Pass<T>, replies: seq<Reply<T>>): (r: Pass<T>)
    requires |replies| <= |p0.regs|
    ensures |r.regs| == |p0.regs|
    ensures forall j :: |replies| <= j < |p0.regs| ==> r.regs[j] == p0.regs[j]
  {
    if replies == [] then p0
    else
      var n := |replies| - 1;
      Step(t, Run(t, p0, replies[..n]), n, replies[n])
  }

  /** The run over one more datacenter is one more step. */
  lemma RunNext<T>(t: Task<T>, p0: Pass<T>, replies: seq<Reply<T>>, i: nat)
    requires i < |replies| <= |p0.regs|
    ensures Run(t, p0, replies[..i + 1]) == Step(t, Run(t, p0, replies[..i]), i, replies[i])
  {
    assert replies[..i + 1][..i] == replies[..i];
  }

  /** The tag cache the filter consults in iteration `i`. */
  function CacheAt<T>(t: Task<T>, p0: Pass<T>, replies: seq<Reply<T>>, i: nat): TagIndex
    requires i < |replies| <= |p0.regs|
  {
    Fetched(t, Run(t, p0, replies[..i]).cache, if replies[i].Retrieved? then replies[i].attached else None)
  }

  /**
   * Iteration `i` alone decides datacenter `i`'s registry: a failed view or
   * retrieval leaves it as it was, a retrieved batch stores exactly the
   * records the filter admits, whether or not the tag fetch succeeded.
   */
  lemma {:induction false} RunAt<T>(t: Task<T>, p0: Pass<T>, replies: seq<Reply<T>>, i: nat)
    requires i < |replies| <= |p0.regs|
    ensures !replies[i].Retrieved? ==> Run(t, p0, replies).regs[i] == p0.regs[i]
    ensures replies[i].Retrieved? ==>
      Run(t, p0, replies).regs[i] == Store(p0.regs[i], Survivors(t, CacheAt(t, p0, replies, i), replies[i].batch), t.key)
  {
    var n := |replies| - 1;
    if i < n {
      assert replies[..n][..i] == replies[..i];
      assert replies[..n][i] == replies[i];
      RunAt(t, p0, replies[..n], i);
    }
  }

  /** The keys after storing the survivors: the old keys and the references the filter admits. */
  lemma StoreSurvivorsKeys<T>(t: Task<T>, cache: TagIndex, m: map<Mor, T>, batch: seq<T>)
    ensures forall r :: r in Store(m, Survivors(t, cache, batch), t.key) <==>
      r in m || exists j :: 0 <= j < |batch| && t.key(batch[j]) == r && Admits(t, cache, r)
  {
    var kept := Survivors(t, cache, batch);
    StoreKeys(m, kept, t.key);
    forall r ensures r in Store(m, kept, t.key) <==>
      r in m || exists j :: 0 <= j < |batch| && t.key(batch[j]) == r && Admits(t, cache, r)
    {
      if r in Store(m, kept, t.key) && r !in m {
        var k :| 0 <= k < |kept| && t.key(kept[k]) == r;
        SurvivorsSound(t, cache, batch, k);
      }
      if exists j :: 0 <= j < |batch| && t.key(batch[j]) == r && Admits(t, cache, r) {
        var j :| 0 <= j < |batch| && t.key(batch[j]) == r && Admits(t, cache, r);
        SurvivorsComplete(t, cache, batch, j);
        var k :| 0 <= k < |kept| && kept[k] == batch[j];
        assert t.key(kept[k]) == r;
      }
    }
  }

  /**
   * The keys of datacenter `i`'s registry after the loop: the keys it had,
   * and, when the batch was retrieved, the reference of every record the
   * filter admits (with filtering off, of every record).
   */
  lemma RunKeys<T>(t: Task<T>, p0: Pass<T>, replies: seq<Reply<T>>, i: nat)
    requires i < |replies| <= |p0.regs| && replies[i].Retrieved?
    ensures forall r :: r in Run(t, p0, replies).regs[i] <==>
      r in p0.regs[i] ||
      exists j :: 0 <= j < |replies[i].batch| && t.key(replies[i].batch[j]) == r && Admits(t, CacheAt(t, p0, replies, i), r)
  {
    RunAt(t, p0, replies, i);
    StoreSurvivorsKeys(t, CacheAt(t, p0, replies, i), p0.regs[i], replies[i].batch);
  }

  /** Without tag collection the tag cache is never touched. */
  lemma {:induction false} RunCache<T>(t: Task<T>, p0: Pass<T>, replies: seq<Reply<T>>)
    requires |replies| <= |p0.regs| && !t.collectTags
    ensures Run(t, p0, replies).cache == p0.cache
  {
    if replies != [] {
      RunCache(t, p0, replies[..|replies| - 1]);
    }
  }

  predicate Increasing(s: seq<nat>) {
    forall k, l :: 0 <= k < l < |s| ==> s[k] < s[l]
  }

  /**
   * Views: starting with none, a view is opened for exactly the
   * datacenters whose view creation succeeded, in datacenter order.
   */
  lemma {:induction false} RunViews<T>(t: Task<T>, p0: Pass<T>, replies: seq<Reply<T>>)
    requires |replies| <= |p0.regs| && p0.views == []
    ensures Increasing(Run(t, p0, replies).views)
    ensures forall k :: 0 <= k < |Run(t, p0, replies).views| ==>
      Run(t, p0, replies).views[k] < |replies| && !replies[Run(t, p0, replies).views[k]].ViewFailed?
    ensures forall i :: 0 <= i < |replies| && !replies[i].ViewFailed? ==> i in Run(t, p0, replies).views
  {
    if replies != [] {
      var n := |replies| - 1;
      RunViews(t, p0, replies[..n]);
      assert forall i :: 0 <= i < n ==> replies[..n][i] == replies[i];
    }
  }

  /** A value occurs once in an increasing sequence that holds it. */
  lemma {:induction false} IncreasingOnce(s: seq<nat>, v: nat)
    requires Increasing(s) && v in s
    ensures multiset(s)[v] == 1
  {
    var n := |s| - 1;
    assert s == s[..n] + [s[n]];
    if s[n] == v {
      assert v !in s[..n] by {
        forall k | 0 <= k < n ensures s[k] != v { assert s[k] < s[n]; }
      }
    } else {
      assert v in s[..n];
      IncreasingOnce(s[..n], v);
    }
  }

  /** The reversal of `s`: its last element first. */
  function Reversed(s: seq<nat>): (r: seq<nat>)
    ensures |r| == |s| && forall k :: 0 <= k < |s| ==> r[k] == s[|s| - 1 - k]
  {
    if s == [] then [] else [s[|s| - 1]] + Reversed(s[..|s| - 1])
  }

  lemma {:induction false} ReversedMultiset(s: seq<nat>)
    ensures multiset(Reversed(s)) == multiset(s)
  {
    if s != [] {
      var n := |s| - 1;
      ReversedMultiset(s[..n]);
      assert s == s[..n] + [s[n]];
    }
  }

  /**
   * Deferred destroys run when the task returns, last opened first: every
   * created view is destroyed exactly once, a view that failed to be
   * created is never destroyed, and nothing else is destroyed.
   */
  lemma ViewsReleasedOnce<T>(t: Task<T>, p0: Pass<T>, replies: seq<Reply<T>>)
    requires |replies| <= |p0.regs| && p0.views == []
    ensures var destroyed := Reversed(Run(t, p0, replies).views);
      (forall i :: 0 <= i < |replies| ==> multiset(destroyed)[i] == if replies[i].ViewFailed? then 0 else 1) &&
      (forall v :: v in destroyed ==> v < |replies|)
  {
    var o: seq<nat> := Run(t, p0, replies).views;
    RunViews(t, p0, replies);
    ReversedMultiset(o);
    forall i: nat | i < |replies| && !replies[i].ViewFailed? ensures multiset(o)[i] == 1 {
      IncreasingOnce(o, i);
    }
    forall v | v in Reversed(o) ensures v < |replies| {
      assert v in multiset(Reversed(o));
      assert v in o;
      var k :| 0 <= k < |o| && o[k] == v;
    }
  }

  /** The last iteration of a run, as one step. */
  lemma RunLast<T>(t: Task<T>, p0: Pass<T>, replies: seq<Reply<T>>)
    requires 0 < |replies| <= |p0.regs|
    ensures var n := |replies| - 1;
      Run(t, p0, replies) == Step(t, Run(t, p0, replies[..n]), n, replies[n])
  {
  }

  /** A step makes at most one performance call, for its own datacenter, after the earlier ones. */
  lemma StepPerf<T>(t: Task<T>, p: Pass<T>, i: nat, reply: Reply<T>)
    requires i < |p.regs|
    ensures Step(t, p, i, reply).perf == p.perf +
      (if reply.Retrieved? && t.perfMetrics
       then [PerfCall(i, Refs(Survivors(t, Fetched(t, p.cache, reply.attached), reply.batch), t.key), t.interval)]
       else [])
  {
    assert p.perf + [] == p.perf;
  }

  /** With the performance switch off, no performance call is made. */
  lemma {:induction false} RunPerfOff<T>(t: Task<T>, p0: Pass<T>, replies: seq<Reply<T>>)
    requires |replies| <= |p0.regs| && p0.perf == [] && !t.perfMetrics
    ensures Run(t, p0, replies).perf == []
  {
    if replies != [] {
      RunLast(t, p0, replies);
      StepPerf(t, Run(t, p0, replies[..|replies| - 1]), |replies| - 1, replies[|replies| - 1]);
      RunPerfOff(t, p0, replies[..|replies| - 1]);
    }
  }

  /**
   * Each performance call is for a datacenter whose batch was retrieved,
   * carries the task's interval and names only references that are keys
   * of that datacenter's registry.
   */
  lemma {:induction false} RunPerfSound<T>(t: Task<T>, p0: Pass<T>, replies: seq<Reply<T>>)
    requires |replies| <= |p0.regs| && p0.perf == []
    ensures forall k :: 0 <= k < |Run(t, p0, replies).perf| ==>
      var c := Run(t, p0, replies).perf[k];
      c.datacenter < |replies| && replies[c.datacenter].Retrieved? && c.interval == t.interval &&
      forall ref :: ref in c.refs ==> ref in Run(t, p0, replies).regs[c.datacenter]
  {
    if replies != [] {
      var n := |replies| - 1;
      var before := Run(t, p0, replies[..n]);
      var r := Run(t, p0, replies);
      RunLast(t, p0, replies);
      RunPerfSound(t, p0, replies[..n]);
      StepPerfSound(t, before, n, replies[n]);
      forall k | 0 <= k < |r.perf|
        ensures r.perf[k].datacenter < |replies| && replies[r.perf[k].datacenter].Retrieved? && r.perf[k].interval == t.interval
        ensures forall ref :: ref in r.perf[k].refs ==> ref in r.regs[r.perf[k].datacenter]
      {
        if k < |before.perf| {
          var c := before.perf[k];
          assert r.perf[k] == c by { assert r.perf[..|before.perf|] == before.perf; }
          assert replies[..n][c.datacenter] == replies[c.datacenter];
          assert r.regs[c.datacenter] == before.regs[c.datacenter];
        }
      }
    }
  }

  /**
   * The call an iteration appends is for its own datacenter, whose batch
   * was retrieved, with the task's interval, and names only keys of the
   * registry the iteration leaves.
   */
  lemma StepPerfSound<T>(t: Task<T>, p: Pass<T>, i: nat, reply: Reply<T>)
    requires i < |p.regs|
    ensures var r := Step(t, p, i, reply);
      forall k :: |p.perf| <= k < |r.perf| ==>
        r.perf[k].datacenter == i && reply.Retrieved? && r.perf[k].interval == t.interval &&
        forall ref :: ref in r.perf[k].refs ==> ref in r.regs[i]
  {
    if reply.Retrieved? && t.perfMetrics {
      var kept := Survivors(t, Fetched(t, p.cache, reply.attached), reply.batch);
      StoreKeys(p.regs[i], kept, t.key);
      forall ref | ref in Refs(kept, t.key) ensures ref in Store(p.regs[i], kept, t.key) {
        var j :| 0 <= j < |kept| && Refs(kept, t.key)[j] == ref;
      }
    }
  }

  /** Performance calls are made in datacenter order, at most one per datacenter. */
  lemma {:induction false} RunPerfOrdered<T>(t: Task<T>, p0: Pass<T>, replies: seq<Reply<T>>)
    requires |replies| <= |p0.regs| && p0.perf == []
    ensures forall k, l :: 0 <= k < l < |Run(t, p0, replies).perf| ==>
      Run(t, p0, replies).perf[k].datacenter < Run(t, p0, replies).perf[l].datacenter
  {
    if replies != [] {
      var n := |replies| - 1;
      var before := Run(t, p0, replies[..n]);
      var r := Run(t, p0, replies);
      RunLast(t, p0, replies);
      StepPerf(t, Run(t, p0, replies[..|replies| - 1]), |replies| - 1, replies[|replies| - 1]);
      RunPerfOrdered(t, p0, replies[..n]);
      RunPerfSound(t, p0, replies[..n]);
      forall k, l | 0 <= k < l < |r.perf| ensures r.perf[k].datacenter < r.perf[l].datacenter {
        assert r.perf[k] == before.perf[k];
        if l < |before.perf| {
          assert r.perf[l] == before.perf[l];
        }
      }
    }
  }

  /** With the performance switch on, every retrieved datacenter gets a performance call. */
  lemma {:induction false} RunPerfComplete<T>(t: Task<T>, p0: Pass<T>, replies: seq<Reply<T>>)
    requires |replies| <= |p0.regs| && p0.perf == [] && t.perfMetrics
    ensures forall i :: 0 <= i < |replies| && replies[i].Retrieved? ==>
      exists k :: 0 <= k < |Run(t, p0, replies).perf| && Run(t, p0, replies).perf[k].datacenter == i
  {
    if replies != [] {
      var n := |replies| - 1;
      var before := Run(t, p0, replies[..n]);
      var r := Run(t, p0, replies);
      RunLast(t, p0, replies);
      StepPerf(t, Run(t, p0, replies[..|replies| - 1]), |replies| - 1, replies[|replies| - 1]);
      RunPerfComplete(t, p0, replies[..n]);
      forall i | 0 <= i < |replies| && replies[i].Retrieved?
        ensures exists k :: 0 <= k < |r.perf| && r.perf[k].datacenter == i
      {
        if i < n {
          assert replies[..n][i] == replies[i];
          var k :| 0 <= k < |before.perf| && before.perf[k].datacenter == i;
          assert r.perf[k] == before.perf[k];
        } else {
          assert r.perf[|before.perf|].datacenter == n;
        }
      }
    }
  }

  /**
   * The references handed to the performance collector for a retrieved
   * batch are those of the stored records, in retrieval order; with
   * filtering off, those of the whole batch.
   */
  lemma PerfRefs<T>(t: Task<T>, p0: Pass<T>, replies: seq<Reply<T>>, i: nat)
    requires i < |replies| <= |p0.regs| && replies[i].Retrieved? && t.perfMetrics && p0.perf == []
    ensures exists k :: (0 <= k < |Run(t, p0, replies).perf| &&
      Run(t, p0, replies).perf[k] == PerfCall(i, Refs(Survivors(t, CacheAt(t, p0, replies, i), replies[i].batch), t.key), t.interval))
    ensures !t.filterByTag ==> exists k :: (0 <= k < |Run(t, p0, replies).perf| &&
      Run(t, p0, replies).perf[k] == PerfCall(i, Refs(replies[i].batch, t.key), t.interval))
  {
    PerfPrefix(t, p0, replies, i + 1);
    var before := Run(t, p0, replies[..i]);
    RunNext(t, p0, replies, i);
    StepPerf(t, before, i, replies[i]);
    var call := PerfCall(i, Refs(Survivors(t, CacheAt(t, p0, replies, i), replies[i].batch), t.key), t.interval);
    var early := Run(t, p0, replies[..i + 1]).perf;
    assert early == before.perf + [call];
    var k := |before.perf|;
    assert early[k] == call;
    assert Run(t, p0, replies).perf[..|early|] == early;
    assert Run(t, p0, replies).perf[k] == call;
    if !t.filterByTag {
      SurvivorsUnfiltered(t, CacheAt(t, p0, replies, i), replies[i].batch);
    }
  }

  /** Later iterations only append performance calls. */
  lemma {:induction false} PerfPrefix<T>(t: Task<T>, p0: Pass<T>, replies: seq<Reply<T>>, m: nat)
    requires m <= |replies| <= |p0.regs|
    ensures var early := Run(t, p0, replies[..m]).perf;
      |early| <= |Run(t, p0, replies).perf| && Run(t, p0, replies).perf[..|early|] == early
  {
    if m < |replies| {
      var n := |replies| - 1;
      assert replies[..n][..m] == replies[..m];
      PerfPrefix(t, p0, replies[..n], m);
    } else {
      assert replies[..m] == replies;
    }
  }

  // ---------------------------------------------------------------------
  // The older virtual-machine loop: no tags, no filter, no performance
  // calls, and any failure ends the process.
  // ---------------------------------------------------------------------

  /** The VM loop's state: the VM registries, the views opened, and the datacenter that aborted the run, if any. */
  datatype VmPass = VmPass(regs: seq<map<Mor, VirtualMachine>>, views: seq<nat>, fatal: Option<nat>)

  /**
   * The VM iteration for datacenter `i`: nothing once the run has aborted;
   * otherwise it aborts exactly on a failed view creation or retrieval, and
   * writes no registry but datacenter `i`'s.
   */
  function VmStep(p: VmPass, i: nat, reply: Reply<VirtualMachine>): (r: VmPass)
    requires i < |p.regs|
    ensures |r.regs| == |p.regs|
    ensures forall d :: 0 <= d < |p.regs| && d != i ==> r.regs[d] == p.regs[d]
    ensures p.fatal.Some? ==> r == p
    ensures p.fatal.None? ==> (r.fatal.None? <==> reply.Retrieved?) && (r.fatal.Some? ==> r.fatal.value == i)
    ensures p.fatal.None? && !reply.Retrieved? ==> r.regs == p.regs
  {
    if p.fatal.Some? then p
    else
      match reply
      case ViewFailed => p.(fatal := Some(i))
      case RetrieveFailed => p.(views := p.views + [i], fatal := Some(i))
      case Retrieved(batch, _) => p.(regs := p.regs[i := Store(p.regs[i], batch, VmRef)], views := p.views + [i])
  }

  function VmRun(p0: VmPass, replies: seq<Reply<VirtualMachine>>): (r: VmPass)
    requires |replies| <= |p0.regs|
    ensures |r.regs| == |p0.regs|
    ensures forall j :: |replies| <= j < |p0.regs| ==> r.regs[j] == p0.regs[j]
  {
    if replies == [] then p0
    else
      var n := |replies| - 1;
      VmStep(VmRun(p0, replies[..n]), n, replies[n])
  }

  /** The VM run over one more datacenter is one more step. */
  lemma VmRunNext(p0: VmPass, replies: seq<Reply<VirtualMachine>>, i: nat)
    requires i < |replies| <= |p0.regs|
    ensures VmRun(p0, replies[..i + 1]) == VmStep(VmRun(p0, replies[..i]), i, replies[i])
  {
    assert replies[..i + 1][..i] == replies[..i];
  }

  /**
   * The run aborts at the first datacenter whose view creation or retrieval
   * fails, and completes iff every batch was retrieved.
   */
  lemma {:induction false} VmRunAborts(p0: VmPass, replies: seq<Reply<VirtualMachine>>)
    requires |replies| <= |p0.regs| && p0.fatal.None?
    ensures var f := VmRun(p0, replies).fatal;
      (f.None? <==> forall i :: 0 <= i < |replies| ==> replies[i].Retrieved?) &&
      (f.Some? ==> (f.value < |replies| && !replies[f.value].Retrieved? &&
        forall i :: 0 <= i < f.value ==> replies[i].Retrieved?))
  {
    if replies != [] {
      var n := |replies| - 1;
      VmRunAborts(p0, replies[..n]);
      assert forall i :: 0 <= i < n ==> replies[..n][i] == replies[i];
    }
  }

  /**
   * Datacenter `i`'s VM registry after the run: every VM of its batch
   * stored under its reference when the run got past `i`, untouched when
   * the run aborted at or before `i`.
   */
  lemma {:induction false} VmRunAt(p0: VmPass, replies: seq<Reply<VirtualMachine>>, i: nat)
    requires i < |replies| <= |p0.regs| && p0.fatal.None?
    ensures var r := VmRun(p0, replies);
      (r.fatal.None? || i < r.fatal.value ==> replies[i].Retrieved? && r.regs[i] == Store(p0.regs[i], replies[i].batch, VmRef)) &&
      (r.fatal.Some? && r.fatal.value <= i ==> r.regs[i] == p0.regs[i])
  {
    var n := |replies| - 1;
    VmRunAborts(p0, replies);
    VmRunAborts(p0, replies[..n]);
    assert forall j :: 0 <= j < n ==> replies[..n][j] == replies[j];
    if i < n {
      VmRunAt(p0, replies[..n], i);
    }
  }

  /** Once the run has aborted, later datacenters change nothing. */
  lemma {:induction false} VmRunStops(p0: VmPass, replies: seq<Reply<VirtualMachine>>, m: nat)
    requires m <= |replies| <= |p0.regs| && VmRun(p0, replies[..m]).fatal.Some?
    ensures VmRun(p0, replies) == VmRun(p0, replies[..m])
  {
    if m < |replies| {
      var n := |replies| - 1;
      assert replies[..n][..m] == replies[..m];
      VmRunStops(p0, replies[..n], m);
    } else {
      assert replies[..m] == replies;
    }
  }

  /** A completed run has views one view per datacenter, in order. */
  lemma {:induction false} VmRunOpened(p0: VmPass, replies: seq<Reply<VirtualMachine>>)
    requires |replies| <= |p0.regs| && p0.fatal.None?
    ensures VmRun(p0, replies).fatal.None? ==> VmRun(p0, replies).views == p0.views + seq(|replies|, k => k)
  {
    if replies != [] {
      var n := |replies| - 1;
      VmRunOpened(p0, replies[..n]);
      if VmRun(p0, replies).fatal.None? {
        assert VmRun(p0, replies[..n]).fatal.None?;
        assert seq(|replies|, k => k) == seq(n, k => k) + [n];
      }
    }
  }

  /**
   * The VM registry gains at most one key per retrieved VM, and only keys
   * that are references of its batch; every VM of the batch is stored, the
   * last one carrying a reference winning.
   */
  lemma VmRegistryGrowth(p0: VmPass, replies: seq<Reply<VirtualMachine>>, i: nat)
    requires i < |replies| <= |p0.regs| && p0.fatal.None? && VmRun(p0, replies).fatal.None?
    ensures var reg := VmRun(p0, replies).regs[i];
      replies[i].Retrieved? &&
      |reg.Keys| <= |p0.regs[i].Keys| + |replies[i].batch| &&
      (forall r :: r in reg <==> r in p0.regs[i] || exists j :: 0 <= j < |replies[i].batch| && replies[i].batch[j].self == r) &&
      (forall j :: 0 <= j < |replies[i].batch| && (forall l :: j < l < |replies[i].batch| ==> replies[i].batch[l].self != replies[i].batch[j].self) ==>
        reg[replies[i].batch[j].self] == replies[i].batch[j])
  {
    VmRunAt(p0, replies, i);
    var batch := replies[i].batch;
    StoreGrowth(p0.regs[i], batch, VmRef);
    StoreKeys(p0.regs[i], batch, VmRef);
    forall j | 0 <= j < |batch| && (forall l :: j < l < |batch| ==> batch[l].self != batch[j].self)
      ensures VmRun(p0, replies).regs[i][batch[j].self] == batch[j]
    {
      StoreLastWins(p0.regs[i], batch, VmRef, j);
    }
  }
}
