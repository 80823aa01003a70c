/**
 * The per-kind collection tasks over the shared configuration: the list of
 * datacenters with their registries, the tag collector and the switches.
 * Each task walks the datacenters in order and writes only its own
 * registry in them; the host and pool tasks also merge their tagging
 * answers into the collector's shared tag cache and filter against it.
 * Each is proved to leave exactly the state `Tasks.Run` (or, for the older
 * VM task, `Tasks.VmRun`) describes.
 */
module Collect {
  import opened ManagedObjects
  import opened Load
  import opened Tags
  import opened Tasks

  /** The state the tasks share. */
  class Config {
    var datacenters: seq<Datacenter>
    const tagCollector: TagCollector
    const collectTags: bool
    const filterByTag: bool
    const perfMetrics: bool

    constructor (datacenters: seq<Datacenter>, tagCollector: TagCollector, collectTags: bool, filterByTag: bool, perfMetrics: bool)
      ensures this.datacenters == datacenters && this.tagCollector == tagCollector
      ensures this.collectTags == collectTags && this.filterByTag == filterByTag && this.perfMetrics == perfMetrics
    {
      this.datacenters := datacenters;
      this.tagCollector := tagCollector;
      this.collectTags := collectTags;
      this.filterByTag := filterByTag;
      this.perfMetrics := perfMetrics;
    }
  }

  /** Runs the deferred view destroys at function exit: the last view opened is destroyed first. */
  method RunDeferred(views: seq<nat>) returns (destroyed: seq<nat>)
    ensures destroyed == Reversed(views)
  {
    destroyed := [];
    var k := |views|;
    while k > 0
      invariant 0 <= k <= |views|
      invariant |destroyed| == |views| - k
      invariant forall m :: 0 <= m < |destroyed| ==> destroyed[m] == views[|views| - 1 - m]
    {
      k := k - 1;
      destroyed := destroyed + [views[k]];
    }
  }

  // ---------------------------------------------------------------------
  // Hosts
  // ---------------------------------------------------------------------

  /** What the host task reads: the switches, the collector's filter and catalogue, the real-time interval. */
  function HostTask(config: Config, filter: seq<Tag>, byId: map<TagId, Tag>): Task<HostSystem> {
    Task(config.collectTags, config.filterByTag, config.perfMetrics, filter, byId, RealTimeInterval, HostRef)
  }

  /** The host registries of `dcs` and the tag cache, before the task runs. */
  function HostPass(dcs: seq<Datacenter>, cache: TagIndex): Pass<HostSystem> {
    Pass(seq(|dcs|, j requires 0 <= j < |dcs| => dcs[j].hosts), cache, [], [])
  }

  /** `dcs` with each datacenter's host registry replaced by the matching one of `regs`. */
  function WithHosts(dcs: seq<Datacenter>, regs: seq<map<Mor, HostSystem>>): (r: seq<Datacenter>)
    requires |regs| == |dcs|
    ensures |r| == |dcs|
  {
    seq(|dcs|, j requires 0 <= j < |dcs| => dcs[j].(hosts := regs[j]))
  }

  /** Datacenter `j` of the result is datacenter `j` of `dcs` with only its registry replaced by `regs[j]`. */
  lemma WithHostsFrame(dcs: seq<Datacenter>, regs: seq<map<Mor, HostSystem>>)
    requires |regs| == |dcs|
    ensures forall j :: 0 <= j < |dcs| ==> WithHosts(dcs, regs)[j].hosts == regs[j] && WithHosts(dcs, regs)[j] == dcs[j].(hosts := WithHosts(dcs, regs)[j].hosts)
  {
  }

  lemma WithHostsUpdate(dcs: seq<Datacenter>, regs: seq<map<Mor, HostSystem>>, i: nat, m: map<Mor, HostSystem>)
    requires |regs| == |dcs| && i < |dcs|
    ensures WithHosts(dcs, regs)[i := WithHosts(dcs, regs)[i].(hosts := m)] == WithHosts(dcs, regs[i := m])
  {
  }

  lemma WithHostsOwn(dcs: seq<Datacenter>)
    ensures WithHosts(dcs, HostPass(dcs, map[]).regs) == dcs
  {
  }

  /**
   * The loop over one retrieved batch: every host the tag filter admits
   * (all of them with filtering off) is written into datacenter `i`'s
   * registry under its reference, and its reference appended to `refs`.
   */
  method StoreHosts(config: Config, i: nat, batch: seq<HostSystem>) returns (refs: seq<Mor>)
    requires i < |config.datacenters|
    modifies config`datacenters
    ensures var kept := Survivors(HostTask(config, config.tagCollector.filterTags, config.tagCollector.tagsByID), config.tagCollector.tagsByObject, batch);
      && config.datacenters == old(config.datacenters)[i := old(config.datacenters)[i].(hosts := Store(old(config.datacenters)[i].hosts, kept, HostRef))]
      && refs == Refs(kept, HostRef)
  {
    ghost var t := HostTask(config, config.tagCollector.filterTags, config.tagCollector.tagsByID);
    ghost var cache := config.tagCollector.tagsByObject;
    ghost var dcs0 := config.datacenters;
    refs := [];
    var j := 0;
    while j < |batch|
      invariant 0 <= j <= |batch|
      invariant config.datacenters == dcs0[i := dcs0[i].(hosts := Store(dcs0[i].hosts, Survivors(t, cache, batch[..j]), HostRef))]
      invariant refs == Refs(Survivors(t, cache, batch[..j]), HostRef)
    {
      var host := batch[j];
      SurvivorStep(t, cache, batch, j, dcs0[i].hosts, HostRef);
      assert Admits(t, cache, HostRef(host)) <==> !(config.filterByTag && !config.tagCollector.MatchObjectTags(host.self)) by {
        assert config.tagCollector.MatchObjectTags(host.self) == Matches(t.filter, ObjectTags(cache, host.self));
      }
      if config.filterByTag && !config.tagCollector.MatchObjectTags(host.self) {
        j := j + 1;
        continue;
      }
      config.datacenters := config.datacenters[i := config.datacenters[i].(hosts := config.datacenters[i].hosts[host.self := host])];
      refs := refs + [host.self];
      j := j + 1;
    }
    assert batch[..j] == batch;
  }

  /**
   * The host task. Per datacenter: a failed view or retrieval skips it; a
   * retrieved batch has its tags fetched when tag collection is on (a
   * failed fetch is only logged), every host the filter admits is stored
   * under its reference, and the stored references go to the performance
   * collector when that is on. Views are destroyed when the task returns.
   */
  method Hosts(config: Config, replies: seq<Reply<HostSystem>>) returns (destroyed: seq<nat>, perf: seq<PerfCall>)
    requires |replies| == |config.datacenters|
    modifies config`datacenters, config.tagCollector`tagsByObject
    ensures var r := Run(HostTask(config, config.tagCollector.filterTags, config.tagCollector.tagsByID),
                         HostPass(old(config.datacenters), old(config.tagCollector.tagsByObject)), replies);
      && config.datacenters == WithHosts(old(config.datacenters), r.regs)
      && |config.datacenters| == |old(config.datacenters)|
      && (forall j :: 0 <= j < |old(config.datacenters)| ==>
            config.datacenters[j] == old(config.datacenters)[j].(hosts := config.datacenters[j].hosts))
      && config.tagCollector.tagsByObject == r.cache
      && destroyed == Reversed(r.views)
      && perf == r.perf
  {
    ghost var dcs0 := config.datacenters;
    ghost var t := HostTask(config, config.tagCollector.filterTags, config.tagCollector.tagsByID);
    ghost var p0 := HostPass(config.datacenters, config.tagCollector.tagsByObject);
    WithHostsOwn(dcs0);
    var views: seq<nat> := [];
    perf := [];
    ghost var r := p0;
    var i := 0;
    while i < |config.datacenters|
      invariant 0 <= i <= |replies| == |config.datacenters| == |dcs0|
      invariant t == HostTask(config, config.tagCollector.filterTags, config.tagCollector.tagsByID)
      invariant r == Run(t, p0, replies[..i])
      invariant config.datacenters == WithHosts(dcs0, r.regs)
      invariant config.tagCollector.tagsByObject == r.cache && views == r.views && perf == r.perf
    {
      RunNext(t, p0, replies, i);
      var reply := replies[i];
      if reply.ViewFailed? {
        i := i + 1;
        continue;
      }
      views := views + [i];
      if reply.RetrieveFailed? {
        r := r.(views := r.views + [i]);
        i := i + 1;
        continue;
      }
      if config.collectTags {
        var _ := config.tagCollector.FetchTagsForObjects(reply.attached);
      }
      assert config.tagCollector.tagsByObject == Fetched(t, r.cache, reply.attached);
      ghost var kept := Survivors(t, config.tagCollector.tagsByObject, reply.batch);
      WithHostsUpdate(dcs0, r.regs, i, Store(r.regs[i], kept, HostRef));
      var refs := StoreHosts(config, i, reply.batch);
      if config.perfMetrics {
        perf := perf + [PerfCall(i, refs, RealTimeInterval)];
      }
      r := Step(t, r, i, reply);
      i := i + 1;
    }
    assert replies[..i] == replies;
    WithHostsFrame(dcs0, r.regs);
    destroyed := RunDeferred(views);
  }

  // ---------------------------------------------------------------------
  // Resource pools
  // ---------------------------------------------------------------------

  /** What the resource-pool task reads: the switches, the collector's filter and catalogue, the five-minute interval. */
  function PoolTask(config: Config, filter: seq<Tag>, byId: map<TagId, Tag>): Task<ResourcePool> {
    Task(config.collectTags, config.filterByTag, config.perfMetrics, filter, byId, FiveMinutesInterval, PoolRef)
  }

  /** The resource-pool registries of `dcs` and the tag cache, before the task runs. */
  function PoolPass(dcs: seq<Datacenter>, cache: TagIndex): Pass<ResourcePool> {
    Pass(seq(|dcs|, j requires 0 <= j < |dcs| => dcs[j].resourcePools), cache, [], [])
  }

  /** `dcs` with each datacenter's resource-pool registry replaced by the matching one of `regs`. */
  function WithPools(dcs: seq<Datacenter>, regs: seq<map<Mor, ResourcePool>>): (r: seq<Datacenter>)
    requires |regs| == |dcs|
    ensures |r| == |dcs|
  {
    seq(|dcs|, j requires 0 <= j < |dcs| => dcs[j].(resourcePools := regs[j]))
  }

  /** Datacenter `j` of the result is datacenter `j` of `dcs` with only its registry replaced by `regs[j]`. */
  lemma WithPoolsFrame(dcs: seq<Datacenter>, regs: seq<map<Mor, ResourcePool>>)
    requires |regs| == |dcs|
    ensures forall j :: 0 <= j < |dcs| ==> WithPools(dcs, regs)[j].resourcePools == regs[j] && WithPools(dcs, regs)[j] == dcs[j].(resourcePools := WithPools(dcs, regs)[j].resourcePools)
  {
  }

  lemma WithPoolsUpdate(dcs: seq<Datacenter>, regs: seq<map<Mor, ResourcePool>>, i: nat, m: map<Mor, ResourcePool>)
    requires |regs| == |dcs| && i < |dcs|
    ensures WithPools(dcs, regs)[i := WithPools(dcs, regs)[i].(resourcePools := m)] == WithPools(dcs, regs[i := m])
  {
  }

  lemma WithPoolsOwn(dcs: seq<Datacenter>)
    ensures WithPools(dcs, PoolPass(dcs, map[]).regs) == dcs
  {
  }

  /**
   * The loop over one retrieved batch: every resource-pool the tag filter admits
   * (all of them with filtering off) is written into datacenter `i`'s
   * registry under its reference, and its reference appended to `refs`.
   */
  method StorePools(config: Config, i: nat, batch: seq<ResourcePool>) returns (refs: seq<Mor>)
    requires i < |config.datacenters|
    modifies config`datacenters
    ensures var kept := Survivors(PoolTask(config, config.tagCollector.filterTags, config.tagCollector.tagsByID), config.tagCollector.tagsByObject, batch);
      && config.datacenters == old(config.datacenters)[i := old(config.datacenters)[i].(resourcePools := Store(old(config.datacenters)[i].resourcePools, kept, PoolRef))]
      && refs == Refs(kept, PoolRef)
  {
    ghost var t := PoolTask(config, config.tagCollector.filterTags, config.tagCollector.tagsByID);
    ghost var cache := config.tagCollector.tagsByObject;
    ghost var dcs0 := config.datacenters;
    refs := [];
    var j := 0;
    while j < |batch|
      invariant 0 <= j <= |batch|
      invariant config.datacenters == dcs0[i := dcs0[i].(resourcePools := Store(dcs0[i].resourcePools, Survivors(t, cache, batch[..j]), PoolRef))]
      invariant refs == Refs(Survivors(t, cache, batch[..j]), PoolRef)
    {
      var rp := batch[j];
      SurvivorStep(t, cache, batch, j, dcs0[i].resourcePools, PoolRef);
      assert Admits(t, cache, PoolRef(rp)) <==> !(config.filterByTag && !config.tagCollector.MatchObjectTags(rp.self)) by {
        assert config.tagCollector.MatchObjectTags(rp.self) == Matches(t.filter, ObjectTags(cache, rp.self));
      }
      if config.filterByTag && !config.tagCollector.MatchObjectTags(rp.self) {
        j := j + 1;
        continue;
      }
      config.datacenters := config.datacenters[i := config.datacenters[i].(resourcePools := config.datacenters[i].resourcePools[rp.self := rp])];
      refs := refs + [rp.self];
      j := j + 1;
    }
    assert batch[..j] == batch;
  }

  /**
   * The resource-pool task: the host task's loop over the resource-pool
   * registries, with the five-minute performance interval.
   */
  method ResourcePools(config: Config, replies: seq<Reply<ResourcePool>>) returns (destroyed: seq<nat>, perf: seq<PerfCall>)
    requires |replies| == |config.datacenters|
    modifies config`datacenters, config.tagCollector`tagsByObject
    ensures var r := Run(PoolTask(config, config.tagCollector.filterTags, config.tagCollector.tagsByID),
                         PoolPass(old(config.datacenters), old(config.tagCollector.tagsByObject)), replies);
      && config.datacenters == WithPools(old(config.datacenters), r.regs)
      && |config.datacenters| == |old(config.datacenters)|
      && (forall j :: 0 <= j < |old(config.datacenters)| ==>
            config.datacenters[j] == old(config.datacenters)[j].(resourcePools := config.datacenters[j].resourcePools))
      && config.tagCollector.tagsByObject == r.cache
      && destroyed == Reversed(r.views)
      && perf == r.perf
  {
    ghost var dcs0 := config.datacenters;
    ghost var t := PoolTask(config, config.tagCollector.filterTags, config.tagCollector.tagsByID);
    ghost var p0 := PoolPass(config.datacenters, config.tagCollector.tagsByObject);
    WithPoolsOwn(dcs0);
    var views: seq<nat> := [];
    perf := [];
    ghost var r := p0;
    var i := 0;
    while i < |config.datacenters|
      invariant 0 <= i <= |replies| == |config.datacenters| == |dcs0|
      invariant t == PoolTask(config, config.tagCollector.filterTags, config.tagCollector.tagsByID)
      invariant r == Run(t, p0, replies[..i])
      invariant config.datacenters == WithPools(dcs0, r.regs)
      invariant config.tagCollector.tagsByObject == r.cache && views == r.views && perf == r.perf
    {
      RunNext(t, p0, replies, i);
      var reply := replies[i];
      if reply.ViewFailed? {
        i := i + 1;
        continue;
      }
      views := views + [i];
      if reply.RetrieveFailed? {
        r := r.(views := r.views + [i]);
        i := i + 1;
        continue;
      }
      if config.collectTags {
        var _ := config.tagCollector.FetchTagsForObjects(reply.attached);
      }
      assert config.tagCollector.tagsByObject == Fetched(t, r.cache, reply.attached);
      ghost var kept := Survivors(t, config.tagCollector.tagsByObject, reply.batch);
      WithPoolsUpdate(dcs0, r.regs, i, Store(r.regs[i], kept, PoolRef));
      var refs := StorePools(config, i, reply.batch);
      if config.perfMetrics {
        perf := perf + [PerfCall(i, refs, FiveMinutesInterval)];
      }
      r := Step(t, r, i, reply);
      i := i + 1;
    }
    assert replies[..i] == replies;
    WithPoolsFrame(dcs0, r.regs);
    destroyed := RunDeferred(views);
  }

  // ---------------------------------------------------------------------
  // Virtual machines
  // ---------------------------------------------------------------------

  /** The VM registries of `dcs`, before the task runs. */
  function VmPass0(dcs: seq<Datacenter>): VmPass {
    VmPass(seq(|dcs|, j requires 0 <= j < |dcs| => dcs[j].virtualMachines), [], None)
  }

  /** `dcs` with each datacenter's VM registry replaced by the matching one of `regs`. */
  function WithVms(dcs: seq<Datacenter>, regs: seq<map<Mor, VirtualMachine>>): (r: seq<Datacenter>)
    requires |regs| == |dcs|
    ensures |r| == |dcs|
  {
    seq(|dcs|, j requires 0 <= j < |dcs| => dcs[j].(virtualMachines := regs[j]))
  }

  /** Datacenter `j` of the result is datacenter `j` of `dcs` with only its registry replaced by `regs[j]`. */
  lemma WithVmsFrame(dcs: seq<Datacenter>, regs: seq<map<Mor, VirtualMachine>>)
    requires |regs| == |dcs|
    ensures forall j :: 0 <= j < |dcs| ==> WithVms(dcs, regs)[j].virtualMachines == regs[j] && WithVms(dcs, regs)[j] == dcs[j].(virtualMachines := WithVms(dcs, regs)[j].virtualMachines)
  {
  }

  lemma WithVmsUpdate(dcs: seq<Datacenter>, regs: seq<map<Mor, VirtualMachine>>, i: nat, m: map<Mor, VirtualMachine>)
    requires |regs| == |dcs| && i < |dcs|
    ensures WithVms(dcs, regs)[i := WithVms(dcs, regs)[i].(virtualMachines := m)] == WithVms(dcs, regs[i := m])
  {
  }

  lemma WithVmsOwn(dcs: seq<Datacenter>)
    ensures WithVms(dcs, VmPass0(dcs).regs) == dcs
  {
  }

  /** The loop over one retrieved batch: every VM is written into datacenter `i`'s registry under its reference. */
  method StoreVms(config: Config, i: nat, vms: seq<VirtualMachine>)
    requires i < |config.datacenters|
    modifies config`datacenters
    ensures config.datacenters == old(config.datacenters)[i := old(config.datacenters)[i].(virtualMachines := Store(old(config.datacenters)[i].virtualMachines, vms, VmRef))]
  {
    ghost var dcs0 := config.datacenters;
    var j := 0;
    while j < |vms|
      invariant 0 <= j <= |vms|
      invariant config.datacenters == dcs0[i := dcs0[i].(virtualMachines := Store(dcs0[i].virtualMachines, vms[..j], VmRef))]
    {
      assert vms[..j + 1] == vms[..j] + [vms[j]];
      StoreExtend(dcs0[i].virtualMachines, vms[..j], vms[j], VmRef);
      config.datacenters := config.datacenters[i := config.datacenters[i].(virtualMachines := config.datacenters[i].virtualMachines[vms[j].self := vms[j]])];
      j := j + 1;
    }
    assert vms[..j] == vms;
  }

  /**
   * The VM task. Every VM of a datacenter's batch is stored under its
   * reference. A failed view creation or retrieval ends the process on the
   * spot (`exited`): the deferred destroys never run.
   */
  method VirtualMachines(config: Config, replies: seq<Reply<VirtualMachine>>) returns (exited: bool, destroyed: seq<nat>)
    requires |replies| == |config.datacenters|
    modifies config`datacenters
    ensures var r := VmRun(VmPass0(old(config.datacenters)), replies);
      && exited == r.fatal.Some?
      && (exited ==> destroyed == [])
      && (!exited ==> destroyed == Reversed(r.views))
      && config.datacenters == WithVms(old(config.datacenters), r.regs)
      && |config.datacenters| == |old(config.datacenters)|
      && (forall j :: 0 <= j < |old(config.datacenters)| ==>
            config.datacenters[j] == old(config.datacenters)[j].(virtualMachines := config.datacenters[j].virtualMachines))
  {
    ghost var dcs0 := config.datacenters;
    ghost var p0 := VmPass0(config.datacenters);
    WithVmsOwn(dcs0);
    var views: seq<nat> := [];
    ghost var r := p0;
    var i := 0;
    while i < |config.datacenters|
      invariant 0 <= i <= |replies| == |config.datacenters| == |dcs0|
      invariant r == VmRun(p0, replies[..i]) && r.fatal.None?
      invariant config.datacenters == WithVms(dcs0, r.regs) && views == r.views
    {
      VmRunNext(p0, replies, i);
      var reply := replies[i];
      if reply.ViewFailed? {
        VmRunStops(p0, replies, i + 1);
        WithVmsFrame(dcs0, r.regs);
        return true, [];
      }
      views := views + [i];
      if reply.RetrieveFailed? {
        VmRunStops(p0, replies, i + 1);
        WithVmsFrame(dcs0, r.regs);
        return true, [];
      }
      WithVmsUpdate(dcs0, r.regs, i, Store(r.regs[i], reply.batch, VmRef));
      StoreVms(config, i, reply.batch);
      r := VmStep(r, i, reply);
      i := i + 1;
    }
    assert replies[..i] == replies;
    WithVmsFrame(dcs0, r.regs);
    exited := false;
    destroyed := RunDeferred(views);
  }
}
