/**
 * The per-datacenter inventory registry: six registries keyed by
 * managed-object reference, and the relationship queries the output
 * stage asks of them (default resource pool, pool name, the host of a
 * compute resource, the child pools of a cluster's pools).
 *
 * The registries are Go maps, whose iteration order is unspecified. The
 * two queries that iterate over a registry pick the next key with `:|`,
 * so their contracts hold for every iteration order.
 */
module Load {
  import opened ManagedObjects
  import Text

  datatype Datacenter = Datacenter(
    datacenter: DatacenterInfo,
    hosts: map<Mor, HostSystem>,
    clusters: map<Mor, ClusterComputeResource>,
    resourcePools: map<Mor, ResourcePool>,
    datastores: map<Mor, Datastore>,
    networks: map<Mor, Network>,
    virtualMachines: map<Mor, VirtualMachine>)
  {
    /**
     * A pool is the default (root) pool of its compute resource when its
     * parent is not another pool. An unregistered reference is never default.
     */
    function IsDefaultResourcePool(r: Mor): (b: bool)
      ensures r !in resourcePools ==> !b
      ensures r in resourcePools ==> (b <==> resourcePools[r].parent.kind != ResourcePoolKind)
    {
      if r in resourcePools then resourcePools[r].parent.kind != ResourcePoolKind else false
    }

    /**
     * The empty name for the default pool, the registered name otherwise.
     * The non-default branch indexes the registry without a presence check,
     * so the reference must be registered.
     */
    function GetResourcePoolName(r: Mor): (name: string)
      requires r in resourcePools
      ensures IsDefaultResourcePool(r) ==> name == ""
      ensures !IsDefaultResourcePool(r) ==> name == resourcePools[r].name
    {
      if !IsDefaultResourcePool(r) then resourcePools[r].name else ""
    }

    /** Some registered host whose parent is `c`, or none when no host has that parent. */
    method FindHost(c: Mor) returns (h: Option<HostSystem>)
      ensures h.None? <==> forall k :: k in hosts ==> hosts[k].parent != c
      ensures h.Some? ==> h.value in hosts.Values && h.value.parent == c
    {
      var todo := hosts.Keys;
      while todo != {}
        invariant todo <= hosts.Keys
        invariant forall k :: k in hosts && k !in todo ==> hosts[k].parent != c
        decreases todo
      {
        var k :| k in todo;
        if hosts[k].parent == c {
          return Some(hosts[k]);
        }
        todo := todo - {k};
      }
      return None;
    }

    /** The registry entry for a child reference; `None` stands for Go's nil for a missing key. */
    function Lookup(child: Mor): Option<ResourcePool> {
      if child in resourcePools then Some(resourcePools[child]) else None
    }

    function Lookups(children: seq<Mor>): (r: seq<Option<ResourcePool>>)
      ensures |r| == |children|
      ensures forall i :: 0 <= i < |children| ==> r[i] == Lookup(children[i])
    {
      if children == [] then [] else Lookups(children[..|children| - 1]) + [Lookup(children[|children| - 1])]
    }

    /** Whether the pool registered under `k` is owned by `c` and has child pools. */
    predicate Owned(k: Mor, c: Mor) {
      k in resourcePools && resourcePools[k].owner == c && |resourcePools[k].resourcePool| > 0
    }

    /** What visiting the registry key `k` adds to the result of FindResourcePool. */
    function Contribution(k: Mor, c: Mor): seq<Option<ResourcePool>> {
      if Owned(k, c) then Lookups(resourcePools[k].resourcePool) else []
    }

    /** The result of FindResourcePool when the registry is visited in the key order `order`. */
    function ChildPools(order: seq<Mor>, c: Mor): seq<Option<ResourcePool>> {
      if order == [] then [] else ChildPools(order[..|order| - 1], c) + Contribution(order[|order| - 1], c)
    }

    /** The summed child counts of the pools in `order` that are owned by `c`. */
    function ChildCount(order: seq<Mor>, c: Mor): nat {
      if order == [] then 0
      else ChildCount(order[..|order| - 1], c) + (if Owned(order[|order| - 1], c) then |resourcePools[order[|order| - 1]].resourcePool| else 0)
    }

    /** `order` lists every registered pool exactly once. */
    ghost predicate IsEnumeration(order: seq<Mor>) {
      Distinct(order) && |order| == |resourcePools.Keys| && forall k :: k in order <==> k in resourcePools
    }

    static ghost predicate Distinct(order: seq<Mor>) {
      forall i, j :: 0 <= i < j < |order| ==> order[i] != order[j]
    }

    /**
     * The registry entries (nil for unregistered ones) of the children of
     * every pool owned by `c`, visiting the registry in some order.
     */
    method FindResourcePool(c: Mor) returns (rp: seq<Option<ResourcePool>>)
      ensures exists order :: IsEnumeration(order) && rp == ChildPools(order, c)
      ensures forall x :: x in rp <==> exists k, i :: Owned(k, c) && 0 <= i < |resourcePools[k].resourcePool| && x == Lookup(resourcePools[k].resourcePool[i])
    {
      rp := [];
      ghost var order: seq<Mor> := [];
      var todo := resourcePools.Keys;
      while todo != {}
        invariant Visited(order, todo)
        invariant rp == ChildPools(order, c)
        decreases todo
      {
        var k :| k in todo;
        var pool := resourcePools[k];
        if pool.owner == c && |pool.resourcePool| > 0 {
          rp := AppendChildren(rp, pool.resourcePool);
        }
        ChildPoolsNext(order, k, c);
        VisitNext(order, todo, k);
        order := order + [k];
        todo := todo - {k};
      }
      assert IsEnumeration(order);
      EnumerationMembers(order, c);
    }

    /** The inner loop of FindResourcePool: appends the registry entry (or nil) of each child, in order. */
    method AppendChildren(rp: seq<Option<ResourcePool>>, children: seq<Mor>) returns (r: seq<Option<ResourcePool>>)
      ensures r == rp + Lookups(children)
    {
      r := rp;
      var i := 0;
      while i < |children|
        invariant 0 <= i <= |children|
        invariant r == rp + Lookups(children[..i])
      {
        var child := children[i];
        LookupsNext(children, i);
        r := r + [Lookup(child)];
        i := i + 1;
      }
      assert children[..i] == children;
    }

    /** Over a full enumeration, the members of the result are the children of the owned pools. */
    lemma EnumerationMembers(order: seq<Mor>, c: Mor)
      requires IsEnumeration(order)
      ensures forall x :: x in ChildPools(order, c) <==> exists k, i :: Owned(k, c) && 0 <= i < |resourcePools[k].resourcePool| && x == Lookup(resourcePools[k].resourcePool[i])
    {
      ChildPoolsMembers(order, c);
    }

    /** `order` lists, once each, exactly the registered keys not in `todo`. */
    ghost predicate Visited(order: seq<Mor>, todo: set<Mor>) {
      && todo <= resourcePools.Keys
      && Distinct(order)
      && (forall k :: k in order <==> k in resourcePools && k !in todo)
      && |order| + |todo| == |resourcePools.Keys|
    }

    lemma VisitNext(order: seq<Mor>, todo: set<Mor>, k: Mor)
      requires Visited(order, todo) && k in todo
      ensures Visited(order + [k], todo - {k})
    {
    }

    lemma LookupsNext(children: seq<Mor>, i: nat)
      requires i < |children|
      ensures Lookups(children[..i + 1]) == Lookups(children[..i]) + [Lookup(children[i])]
    {
      assert children[..i + 1][..i] == children[..i];
    }

    /** Visiting one more key appends its contribution. */
    lemma ChildPoolsNext(order: seq<Mor>, k: Mor, c: Mor)
      ensures ChildPools(order + [k], c) == ChildPools(order, c) + Contribution(k, c)
    {
      assert (order + [k])[..|order|] == order;
    }

    lemma {:induction false} ChildPoolsAppend(a: seq<Mor>, b: seq<Mor>, c: Mor)
      ensures ChildPools(a + b, c) == ChildPools(a, c) + ChildPools(b, c)
      decreases |b|
    {
      if b == [] {
        assert a + b == a;
        assert ChildPools(a, c) + [] == ChildPools(a, c);
      } else {
        var init, last := b[..|b| - 1], b[|b| - 1];
        ChildPoolsAppend(a, init, c);
        ChildPoolsAppendStep(a, init, last, c);
        assert b == init + [last];
      }
    }

    lemma ChildPoolsAppendStep(a: seq<Mor>, init: seq<Mor>, last: Mor, c: Mor)
      requires ChildPools(a + init, c) == ChildPools(a, c) + ChildPools(init, c)
      ensures ChildPools(a + (init + [last]), c) == ChildPools(a, c) + ChildPools(init + [last], c)
    {
      assert a + (init + [last]) == (a + init) + [last];
      ChildPoolsNext(a + init, last, c);
      ChildPoolsNext(init, last, c);
      var x, y, z := ChildPools(a, c), ChildPools(init, c), Contribution(last, c);
      Text.Associative(x, y, z);
    }

    /** Exactly the children of owned pools appear in the result, whatever the visiting order. */
    lemma {:induction false} ChildPoolsMembers(order: seq<Mor>, c: Mor)
      requires forall k :: k in order ==> k in resourcePools
      ensures forall x :: x in ChildPools(order, c) <==>
        exists k, i :: k in order && Owned(k, c) && 0 <= i < |resourcePools[k].resourcePool| && x == Lookup(resourcePools[k].resourcePool[i])
    {
      if order != [] {
        var n := |order| - 1;
        ChildPoolsMembers(order[..n], c);
        forall x | x in ChildPools(order, c)
          ensures exists k, i :: k in order && Owned(k, c) && 0 <= i < |resourcePools[k].resourcePool| && x == Lookup(resourcePools[k].resourcePool[i])
        {
          if x !in ChildPools(order[..n], c) {
            var k := order[n];
            var i :| 0 <= i < |Contribution(k, c)| && Contribution(k, c)[i] == x;
            assert Owned(k, c) && x == Lookup(resourcePools[k].resourcePool[i]);
          } else {
            var k, i :| k in order[..n] && Owned(k, c) && 0 <= i < |resourcePools[k].resourcePool| && x == Lookup(resourcePools[k].resourcePool[i]);
            assert k in order;
          }
        }
        forall x, k, i | k in order && Owned(k, c) && 0 <= i < |resourcePools[k].resourcePool| && x == Lookup(resourcePools[k].resourcePool[i])
          ensures x in ChildPools(order, c)
        {
          if k == order[n] {
            assert Contribution(k, c)[i] == x;
          } else {
            assert k in order[..n];
          }
        }
      }
    }

    /** The result holds as many entries as the owned pools have children. */
    lemma {:induction false} ChildPoolsLength(order: seq<Mor>, c: Mor)
      ensures |ChildPools(order, c)| == ChildCount(order, c)
    {
      if order != [] {
        ChildPoolsLength(order[..|order| - 1], c);
      }
    }

    /** Two visiting orders of the same keys give the same entries, up to their order. */
    lemma {:induction false} ChildPoolsOrderIndependent(o1: seq<Mor>, o2: seq<Mor>, c: Mor)
      requires Distinct(o1) && Distinct(o2) && |o1| == |o2|
      requires forall k :: k in o1 <==> k in o2
      ensures multiset(ChildPools(o1, c)) == multiset(ChildPools(o2, c))
      decreases |o1|
    {
      if o1 == [] {
      } else {
        var n := |o1| - 1;
        var x := o1[n];
        assert x in o2;
        var j :| 0 <= j < |o2| && o2[j] == x;
        var rest := o2[..j] + o2[j + 1..];
        assert o1 == o1[..n] + [x];
        RemoveFromEnumeration(o1[..n], x, o2, j, rest);
        ChildPoolsOrderIndependent(o1[..n], rest, c);
        ChildPoolsWithout(o2, j, c);
      }
    }

    /** Visiting `o2` is visiting `o2` without its `j`-th key, plus that key's contribution. */
    lemma ChildPoolsWithout(o2: seq<Mor>, j: nat, c: Mor)
      requires j < |o2|
      ensures multiset(ChildPools(o2, c)) == multiset(ChildPools(o2[..j] + o2[j + 1..], c)) + multiset(Contribution(o2[j], c))
    {
      var x, before, after := o2[j], o2[..j], o2[j + 1..];
      assert o2 == before + ([x] + after);
      ChildPoolsAround(before, x, after, c);
      ChildPoolsAppend(before, after, c);
      var A, B, C := ChildPools(before, c), ChildPools(after, c), Contribution(x, c);
      assert multiset(A + (C + B)) == multiset(A) + multiset(C) + multiset(B);
    }

    lemma ChildPoolsAround(before: seq<Mor>, x: Mor, after: seq<Mor>, c: Mor)
      ensures ChildPools(before + ([x] + after), c) == ChildPools(before, c) + (Contribution(x, c) + ChildPools(after, c))
    {
      assert ChildPools([x], c) == Contribution(x, c) by {
        assert [x][..0] == [];
      }
      ChildPoolsAppend([x], after, c);
      ChildPoolsAppend(before, [x] + after, c);
    }

    /** Removing the last key of `init + [x]` from `o2` leaves two orders of the same remaining keys. */
    static lemma RemoveFromEnumeration(init: seq<Mor>, x: Mor, o2: seq<Mor>, j: nat, rest: seq<Mor>)
      requires Distinct(init + [x]) && Distinct(o2)
      requires forall k :: k in init + [x] <==> k in o2
      requires j < |o2| && o2[j] == x && rest == o2[..j] + o2[j + 1..]
      ensures Distinct(init) && Distinct(rest)
      ensures forall k :: k in init <==> k in rest
    {
      var o1 := init + [x];
      var n := |init|;
      assert forall a :: 0 <= a < |rest| ==> rest[a] == o2[if a < j then a else a + 1];
      assert forall a :: 0 <= a < n ==> init[a] == o1[a];
      forall k ensures k in init <==> k in rest {
        if k in init {
          var a :| 0 <= a < n && init[a] == k;
          assert o1[a] == k && k in o1 && o1[n] == x;
          assert k != x;
          var b :| 0 <= b < |o2| && o2[b] == k;
          assert b != j;
          assert rest[if b < j then b else b - 1] == k;
        }
        if k in rest {
          var a :| 0 <= a < |rest| && rest[a] == k;
          assert k in o2;
          assert k in o1;
          var b :| 0 <= b < |o1| && o1[b] == k;
          assert b != n;
          assert init[b] == k;
        }
      }
    }

    /** Every registered pool is stored under its own reference. */
    ghost predicate KeyedBySelf() {
      forall k :: k in resourcePools ==> resourcePools[k].self == k
    }

    /** Every registered child of a registered pool names a pool as its parent. */
    ghost predicate ChildrenUnderPools() {
      forall k, i :: k in resourcePools && 0 <= i < |resourcePools[k].resourcePool| && resourcePools[k].resourcePool[i] in resourcePools
        ==> resourcePools[resourcePools[k].resourcePool[i]].parent.kind == ResourcePoolKind
    }

    /**
     * In a consistent registry, the pools FindResourcePool returns are
     * non-default child pools, so their names are reported as registered.
     */
    lemma {:induction false} ChildPoolsAreNotDefault(order: seq<Mor>, c: Mor)
      requires KeyedBySelf() && ChildrenUnderPools()
      requires forall k :: k in order ==> k in resourcePools
      ensures forall x :: x in ChildPools(order, c) && x.Some? ==>
        (x.value.self in resourcePools && !IsDefaultResourcePool(x.value.self) && GetResourcePoolName(x.value.self) == x.value.name)
    {
      ChildPoolsMembers(order, c);
      forall x | x in ChildPools(order, c) && x.Some?
        ensures x.value.self in resourcePools && !IsDefaultResourcePool(x.value.self)
      {
        var k, i :| k in order && Owned(k, c) && 0 <= i < |resourcePools[k].resourcePool| && x == Lookup(resourcePools[k].resourcePool[i]);
        var ch := resourcePools[k].resourcePool[i];
        assert ch in resourcePools && x.value == resourcePools[ch];
      }
    }
  }

  /** A datacenter record holding `info` with all six registries empty. */
  function NewDatacenter(info: DatacenterInfo): (d: Datacenter)
    ensures d.datacenter == info
    ensures d.hosts == map[] && d.clusters == map[] && d.resourcePools == map[]
    ensures d.datastores == map[] && d.networks == map[] && d.virtualMachines == map[]
    ensures forall r :: !d.IsDefaultResourcePool(r)
  {
    Datacenter(info, map[], map[], map[], map[], map[], map[])
  }
}
