/** What a topology zone carries besides its children, and how two such payloads merge
    (pkg/util/cnr.go, lines 220-398, and pkg/util/native/resources.go, lines 183-205). The first
    list wins wherever both have an entry. */
module ZonePayload {
  import opened Keys
  import opened KeyedMerge
  import opened InOrderMerge

  /** A resource list that may be absent; quantities by resource name. */
  type ResourceList = Option<map<string, int>>

  datatype Attribute = Attribute(name: string, value: string)

  /** The source keeps pointers to allocations and skips nil ones. */
  datatype Allocation = NilAllocation | Allocation(consumer: string, requests: ResourceList)

  datatype Sibling = Sibling(node: Key, attributes: seq<Attribute>)

  datatype ResourcePool = ResourcePool(name: string, max: ResourceList, min: ResourceList, attributes: seq<Attribute>)

  datatype ResourcePackage = ResourcePackage(name: string, allocatable: ResourceList, attributes: seq<Attribute>)

  datatype Resources = Resources(
    capacity: ResourceList,
    allocatable: ResourceList,
    pools: seq<ResourcePool>,
    packages: seq<ResourcePackage>)

  datatype Payload = Payload(
    resources: Resources,
    attributes: seq<Attribute>,
    allocations: seq<Allocation>,
    siblings: seq<Sibling>)

  // ---------------------------------------------------------------- keys

  function AttributeKey(a: Attribute): Key { Key("", a.name) }

  function AllocationKey(a: Allocation): Key {
    if a.NilAllocation? then Key("", "") else Key("", a.consumer)
  }

  function SiblingKey(s: Sibling): Key { s.node }

  function PoolKey(p: ResourcePool): Key { Key("", p.name) }

  function PackageKey(p: ResourcePackage): Key { Key("", p.name) }

  predicate AnyAttribute(a: Attribute) { true }

  predicate AnySibling(s: Sibling) { true }

  predicate LiveAllocation(a: Allocation) { a.Allocation? }

  // ---------------------------------------------------------------- merges

  /** Quantities of the first list win; an absent list adds nothing. */
  function MergedLists(d: ResourceList, s: ResourceList): ResourceList {
    if d.None? then s else if s.None? then d else Some(s.value + d.value)
  }

  function FirstAttribute(d: Attribute, s: Attribute): Attribute { d }

  function MergedAttributes(d: seq<Attribute>, s: seq<Attribute>): seq<Attribute> {
    MergeSorted(d, s, AttributeKey, AnyAttribute, FirstAttribute)
  }

  function CombinedAllocation(d: Allocation, s: Allocation): Allocation {
    if d.Allocation? && s.Allocation? then d.(requests := MergedLists(d.requests, s.requests)) else d
  }

  function MergedAllocations(d: seq<Allocation>, s: seq<Allocation>): seq<Allocation> {
    MergeSorted(d, s, AllocationKey, LiveAllocation, CombinedAllocation)
  }

  function CombinedSibling(d: Sibling, s: Sibling): Sibling {
    d.(attributes := MergedAttributes(d.attributes, s.attributes))
  }

  function MergedSiblings(d: seq<Sibling>, s: seq<Sibling>): seq<Sibling> {
    MergeSorted(d, s, SiblingKey, AnySibling, CombinedSibling)
  }

  function CombinedPool(d: ResourcePool, s: ResourcePool): ResourcePool {
    d.(max := MergedLists(d.max, s.max), min := MergedLists(d.min, s.min),
       attributes := MergedAttributes(d.attributes, s.attributes))
  }

  function MergedPools(d: seq<ResourcePool>, s: seq<ResourcePool>): seq<ResourcePool> {
    MergeInOrder(d, s, PoolKey, CombinedPool)
  }

  function CombinedPackage(d: ResourcePackage, s: ResourcePackage): ResourcePackage {
    d.(allocatable := MergedLists(d.allocatable, s.allocatable),
       attributes := MergedAttributes(d.attributes, s.attributes))
  }

  function MergedPackages(d: seq<ResourcePackage>, s: seq<ResourcePackage>): seq<ResourcePackage> {
    MergeInOrder(d, s, PackageKey, CombinedPackage)
  }

  function MergedResources(d: Resources, s: Resources): Resources {
    Resources(
      MergedLists(d.capacity, s.capacity), MergedLists(d.allocatable, s.allocatable),
      MergedPools(d.pools, s.pools), MergedPackages(d.packages, s.packages))
  }

  function MergedPayload(d: Payload, s: Payload): Payload {
    Payload(
      MergedResources(d.resources, s.resources), MergedAttributes(d.attributes, s.attributes),
      MergedAllocations(d.allocations, s.allocations), MergedSiblings(d.siblings, s.siblings))
  }

  // ---------------------------------------------------------------- the source's loops

  /** What a resource list says about one resource. */
  function Quantity(list: ResourceList, name: string): Option<int> {
    if list.Some? && name in list.value then Some(list.value[name]) else None
  }

  function MergedAll(updates: seq<ResourceList>): ResourceList {
    if updates == [] then None else MergedLists(MergedAll(updates[..|updates| - 1]), updates[|updates| - 1])
  }

  /** Merge resource lists in order. */
  method MergeResourceLists(updates: seq<ResourceList>) returns (result: ResourceList)
    ensures result == MergedAll(updates)
  {
    result := None;
    for i := 0 to |updates|
      invariant result == MergedAll(updates[..i])
    {
      assert updates[..i + 1][..i] == updates[..i];
      var update := updates[i];
      if update.None? { continue; }
      var merged: map<string, int> := if result.None? then map[] else result.value;
      merged := AddMissing(merged, update.value);
      assert update.value + map[] == update.value;
      result := Some(merged);
    }
    assert updates[..|updates|] == updates;
  }

  /** The first list that mentions a resource decides its quantity. */
  lemma {:induction false} FirstMentionWins(updates: seq<ResourceList>, name: string)
    ensures match Quantity(MergedAll(updates), name)
            case None => forall u <- updates :: Quantity(u, name).None?
            case Some(q) => exists i :: 0 <= i < |updates| && Quantity(updates[i], name) == Some(q)
                              && forall j :: 0 <= j < i ==> Quantity(updates[j], name).None?
  {
    if updates == [] {
    } else {
      var init := updates[..|updates| - 1];
      FirstMentionWins(init, name);
      assert forall i :: 0 <= i < |init| ==> updates[i] == init[i] && init[i] in init;
      assert forall u <- updates :: u in init || u == updates[|updates| - 1];
      assert Quantity(MergedAll(updates), name) ==
        if Quantity(MergedAll(init), name).Some? then Quantity(MergedAll(init), name)
          else Quantity(updates[|updates| - 1], name);
    }
  }

  lemma MergedPair(d: ResourceList, s: ResourceList)
    ensures MergedAll([d, s]) == MergedLists(d, s)
  {
    assert [d, s][..1] == [d] && [d][..0] == [];
    assert MergedAll([d]) == d;
  }

  /** Walk the update in any order and add the resources that are still missing. */
  method AddMissing(m: map<string, int>, update: map<string, int>) returns (r: map<string, int>)
    ensures r == update + m
  {
    r := m;
    var todo := update.Keys;
    while todo != {}
      invariant todo <= update.Keys
      invariant r == (map name | name in update.Keys - todo :: update[name]) + m
    {
      var name :| name in todo;
      if name !in r { r := r[name := update[name]]; }
      todo := todo - {name};
    }
    assert (map name | name in update.Keys - todo :: update[name]) == update;
  }

  method MergeAttributes(d: seq<Attribute>, s: seq<Attribute>) returns (r: seq<Attribute>)
    ensures r == MergedAttributes(d, s)
  {
    r := MergeToSorted(d, s, AttributeKey, AnyAttribute, FirstAttribute);
  }

  method MergeAllocations(d: seq<Allocation>, s: seq<Allocation>) returns (r: seq<Allocation>)
    ensures r == MergedAllocations(d, s)
  {
    r := MergeToSorted(d, s, AllocationKey, LiveAllocation, CombinedAllocation);
  }

  method MergeSiblings(d: seq<Sibling>, s: seq<Sibling>) returns (r: seq<Sibling>)
    ensures r == MergedSiblings(d, s)
  {
    r := MergeToSorted(d, s, SiblingKey, AnySibling, CombinedSibling);
  }

  method MergeResourcePools(d: seq<ResourcePool>, s: seq<ResourcePool>) returns (r: seq<ResourcePool>)
    ensures r == MergedPools(d, s)
  {
    r := MergeInPlace(d, s, PoolKey, CombinedPool);
  }

  method MergeResourcePackages(d: seq<ResourcePackage>, s: seq<ResourcePackage>) returns (r: seq<ResourcePackage>)
    ensures r == MergedPackages(d, s)
  {
    r := MergeInPlace(d, s, PackageKey, CombinedPackage);
  }

  method MergeResources(d: Resources, s: Resources) returns (r: Resources)
    ensures r == MergedResources(d, s)
    ensures forall name :: Quantity(r.capacity, name) ==
              if Quantity(d.capacity, name).Some? then Quantity(d.capacity, name) else Quantity(s.capacity, name)
    ensures forall name :: Quantity(r.allocatable, name) ==
              if Quantity(d.allocatable, name).Some? then Quantity(d.allocatable, name)
              else Quantity(s.allocatable, name)
  {
    var capacity := MergeResourceLists([d.capacity, s.capacity]);
    var allocatable := MergeResourceLists([d.allocatable, s.allocatable]);
    var pools := MergeResourcePools(d.pools, s.pools);
    var packages := MergeResourcePackages(d.packages, s.packages);
    MergedPair(d.capacity, s.capacity);
    MergedPair(d.allocatable, s.allocatable);
    r := Resources(capacity, allocatable, pools, packages);
  }
}
