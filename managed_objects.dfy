/**
 * The managed objects the inventory-discovery engine reads from the
 * virtualization platform's inventory API, reduced to the properties the
 * model needs. Every object is named by a managed-object reference: a
 * (kind, value) pair that is unique within one inventory and is the only
 * key used by the registries and the tag cache.
 */
module ManagedObjects {

  datatype Option<+T> = None | Some(value: T)

  /** A managed-object reference: the entity kind and an opaque value. */
  datatype Mor = Mor(kind: string, value: string)

  /** The kind name the default-pool test compares a pool's parent against. */
  const ResourcePoolKind: string := "ResourcePool"

  /** The datacenter's own descriptor. */
  datatype DatacenterInfo = DatacenterInfo(self: Mor, name: string)

  /** A host; `parent` is the compute resource (cluster or standalone) that holds it. */
  datatype HostSystem = HostSystem(self: Mor, name: string, parent: Mor)

  datatype ClusterComputeResource = ClusterComputeResource(self: Mor, name: string)

  /**
   * A resource pool. `owner` is the compute resource it belongs to, `parent`
   * is either another pool or (for the root, "default" pool) the compute
   * resource itself, and `resourcePool` lists the references of its child pools.
   */
  datatype ResourcePool = ResourcePool(self: Mor, name: string, owner: Mor, parent: Mor, resourcePool: seq<Mor>)

  datatype Datastore = Datastore(self: Mor, name: string)

  datatype Network = Network(self: Mor, name: string)

  datatype VirtualMachine = VirtualMachine(self: Mor, name: string, resourcePool: Option<Mor>)

  /** The reference each record reports for itself (its `Self` property). */
  function HostRef(h: HostSystem): Mor { h.self }
  function PoolRef(p: ResourcePool): Mor { p.self }
  function VmRef(v: VirtualMachine): Mor { v.self }
}
