/** The payload merge keeps canonical form, is idempotent and associative, and is a left-biased
    union (pkg/util/cnr.go, lines 220-398). */
module PayloadLaws {
  import opened Keys
  import opened Sorting
  import opened KeyedLists
  import opened KeyedMerge
  import opened InOrderMerge
  import opened ZonePayload

  ghost predicate CanonicalAttributes(xs: seq<Attribute>) {
    Canonical(xs, AttributeKey, AnyAttribute)
  }

  ghost predicate CanonicalAllocations(xs: seq<Allocation>) {
    Canonical(xs, AllocationKey, LiveAllocation)
  }

  ghost predicate CanonicalSiblings(xs: seq<Sibling>) {
    Canonical(xs, SiblingKey, AnySibling) && forall x <- xs :: CanonicalAttributes(x.attributes)
  }

  /** Pools and packages keep their order, so only their names must be distinct. */
  ghost predicate CanonicalPools(xs: seq<ResourcePool>) {
    DistinctKeys(xs, PoolKey) && forall x <- xs :: CanonicalAttributes(x.attributes)
  }

  ghost predicate CanonicalPackages(xs: seq<ResourcePackage>) {
    DistinctKeys(xs, PackageKey) && forall x <- xs :: CanonicalAttributes(x.attributes)
  }

  ghost predicate CanonicalPayload(p: Payload) {
    && CanonicalPools(p.resources.pools)
    && CanonicalPackages(p.resources.packages)
    && CanonicalAttributes(p.attributes)
    && CanonicalAllocations(p.allocations)
    && CanonicalSiblings(p.siblings)
  }

  // ---------------------------------------------------------------- left bias

  /** Every attribute name of either list is present once, with the first list's value if it has one. */
  lemma AttributesLeftBiased(d: seq<Attribute>, s: seq<Attribute>)
    requires CanonicalAttributes(d) && CanonicalAttributes(s)
    ensures CanonicalAttributes(MergedAttributes(d, s))
    ensures forall a :: a in MergedAttributes(d, s) <==> a in d || (a in s && forall b <- d :: b.name != a.name)
  {
    var r := MergedAttributes(d, s);
    MergeIsUnion(d, s, AttributeKey, AnyAttribute, FirstAttribute);
    SortedDistinct(d, AttributeKey);
    SortedDistinct(s, AttributeKey);
    SortedDistinct(r, AttributeKey);
    Entries(d);
    Entries(s);
    Entries(r);
    forall a ensures a in r <==> a in d || (a in s && forall b <- d :: b.name != a.name) {
      assert AttributeKey(a) in ToMap(d, AttributeKey) <==> exists b <- d :: b.name == a.name;
    }
  }

  lemma Entries(xs: seq<Attribute>)
    requires DistinctKeys(xs, AttributeKey)
    ensures forall a :: a in xs <==>
            AttributeKey(a) in ToMap(xs, AttributeKey) && ToMap(xs, AttributeKey)[AttributeKey(a)] == a
    ensures forall k <- ToMap(xs, AttributeKey) ::
              ToMap(xs, AttributeKey)[k] in xs && AttributeKey(ToMap(xs, AttributeKey)[k]) == k
    ensures forall a <- xs :: AttributeKey(a) in ToMap(xs, AttributeKey)
  {
    ToMapEntries(xs, AttributeKey);
    ToMapLookup(xs, AttributeKey);
  }

  // ---------------------------------------------------------------- laws per list

  lemma ListsAssociative(a: ResourceList, b: ResourceList, c: ResourceList)
    ensures MergedLists(MergedLists(a, b), c) == MergedLists(a, MergedLists(b, c))
    ensures MergedLists(a, a) == a
  {
    if a.Some? && b.Some? && c.Some? { assert c.value + (b.value + a.value) == (c.value + b.value) + a.value; }
    if a.Some? { assert a.value + a.value == a.value; }
  }

  lemma AttributesLaws(a: seq<Attribute>, b: seq<Attribute>, c: seq<Attribute>)
    requires CanonicalAttributes(a) && CanonicalAttributes(b) && CanonicalAttributes(c)
    ensures CanonicalAttributes(MergedAttributes(a, b))
    ensures MergedAttributes(a, a) == a
    ensures MergedAttributes(MergedAttributes(a, b), c) == MergedAttributes(a, MergedAttributes(b, c))
  {
    MergeLive(a, b, AttributeKey, AnyAttribute, FirstAttribute);
    MergeIdempotent(a, AttributeKey, AnyAttribute, FirstAttribute);
    MergeAssociative(a, b, c, AttributeKey, AnyAttribute, FirstAttribute);
  }

  lemma AllocationLaws(x: Allocation, y: Allocation, z: Allocation)
    requires LiveAllocation(x) && LiveAllocation(y) && LiveAllocation(z)
    ensures CombinedAllocation(x, x) == x
    ensures CombinedAllocation(CombinedAllocation(x, y), z) == CombinedAllocation(x, CombinedAllocation(y, z))
  {
    ListsAssociative(x.requests, y.requests, z.requests);
  }

  lemma AllocationsLaws(a: seq<Allocation>, b: seq<Allocation>, c: seq<Allocation>)
    requires CanonicalAllocations(a) && CanonicalAllocations(b) && CanonicalAllocations(c)
    ensures CanonicalAllocations(MergedAllocations(a, b))
    ensures MergedAllocations(a, a) == a
    ensures MergedAllocations(MergedAllocations(a, b), c) == MergedAllocations(a, MergedAllocations(b, c))
  {
    ToMapEntries(a, AllocationKey);
    ToMapEntries(b, AllocationKey);
    ToMapEntries(c, AllocationKey);
    var ma, mb, mc := ToMap(a, AllocationKey), ToMap(b, AllocationKey), ToMap(c, AllocationKey);
    assert Associates(ma, mb, mc, CombinedAllocation) by {
      forall k | k in ma && k in mb && k in mc
        ensures CombinedAllocation(CombinedAllocation(ma[k], mb[k]), mc[k]) ==
                CombinedAllocation(ma[k], CombinedAllocation(mb[k], mc[k]))
      {
        AllocationLaws(ma[k], mb[k], mc[k]);
      }
    }
    forall x <- a ensures CombinedAllocation(x, x) == x { AllocationLaws(x, x, x); }
    MergeLive(a, b, AllocationKey, LiveAllocation, CombinedAllocation);
    MergeIdempotent(a, AllocationKey, LiveAllocation, CombinedAllocation);
    MergeAssociative(a, b, c, AllocationKey, LiveAllocation, CombinedAllocation);
  }

  lemma SiblingLaws(x: Sibling, y: Sibling, z: Sibling)
    requires CanonicalAttributes(x.attributes) && CanonicalAttributes(y.attributes) && CanonicalAttributes(z.attributes)
    ensures CanonicalAttributes(CombinedSibling(x, y).attributes)
    ensures CombinedSibling(x, x) == x
    ensures CombinedSibling(CombinedSibling(x, y), z) == CombinedSibling(x, CombinedSibling(y, z))
  {
    AttributesLaws(x.attributes, y.attributes, z.attributes);
  }

  lemma SiblingsCanonical(a: seq<Sibling>, b: seq<Sibling>)
    requires CanonicalSiblings(a) && CanonicalSiblings(b)
    ensures CanonicalSiblings(MergedSiblings(a, b))
    ensures MergedSiblings(a, a) == a
  {
    MergeLive(a, b, SiblingKey, AnySibling, CombinedSibling);
    MergeEntries(a, b, SiblingKey, AnySibling, CombinedSibling);
    forall x <- MergedSiblings(a, b) ensures CanonicalAttributes(x.attributes) {
      assert FromMerge(x, a, b, SiblingKey, CombinedSibling);
      if x !in a && x !in b {
        var y, z :| y in a && z in b && x == CombinedSibling(y, z);
        SiblingLaws(y, z, z);
      }
    }
    forall x <- a ensures CombinedSibling(x, x) == x { SiblingLaws(x, x, x); }
    MergeIdempotent(a, SiblingKey, AnySibling, CombinedSibling);
  }

  lemma SiblingsAssociative(a: seq<Sibling>, b: seq<Sibling>, c: seq<Sibling>)
    requires CanonicalSiblings(a) && CanonicalSiblings(b) && CanonicalSiblings(c)
    ensures MergedSiblings(MergedSiblings(a, b), c) == MergedSiblings(a, MergedSiblings(b, c))
  {
    ToMapEntries(a, SiblingKey);
    ToMapEntries(b, SiblingKey);
    ToMapEntries(c, SiblingKey);
    var ma, mb, mc := ToMap(a, SiblingKey), ToMap(b, SiblingKey), ToMap(c, SiblingKey);
    assert Associates(ma, mb, mc, CombinedSibling) by {
      forall k | k in ma && k in mb && k in mc
        ensures CombinedSibling(CombinedSibling(ma[k], mb[k]), mc[k]) ==
                CombinedSibling(ma[k], CombinedSibling(mb[k], mc[k]))
      {
        SiblingLaws(ma[k], mb[k], mc[k]);
      }
    }
    MergeAssociative(a, b, c, SiblingKey, AnySibling, CombinedSibling);
  }

  lemma PoolLaws(x: ResourcePool, y: ResourcePool, z: ResourcePool)
    requires CanonicalAttributes(x.attributes) && CanonicalAttributes(y.attributes) && CanonicalAttributes(z.attributes)
    ensures CanonicalAttributes(CombinedPool(x, y).attributes)
    ensures CombinedPool(x, x) == x
    ensures CombinedPool(CombinedPool(x, y), z) == CombinedPool(x, CombinedPool(y, z))
  {
    AttributesLaws(x.attributes, y.attributes, z.attributes);
    ListsAssociative(x.max, y.max, z.max);
    ListsAssociative(x.min, y.min, z.min);
  }

  lemma PackageLaws(x: ResourcePackage, y: ResourcePackage, z: ResourcePackage)
    requires CanonicalAttributes(x.attributes) && CanonicalAttributes(y.attributes) && CanonicalAttributes(z.attributes)
    ensures CanonicalAttributes(CombinedPackage(x, y).attributes)
    ensures CombinedPackage(x, x) == x
    ensures CombinedPackage(CombinedPackage(x, y), z) == CombinedPackage(x, CombinedPackage(y, z))
  {
    AttributesLaws(x.attributes, y.attributes, z.attributes);
    ListsAssociative(x.allocatable, y.allocatable, z.allocatable);
  }

  /** Every entry of an in-order merge comes from one list or combines an entry of each. */
  lemma InOrderEntries<T(!new)>(d: seq<T>, s: seq<T>, key: T -> Key, combine: (T, T) -> T)
    requires DistinctKeys(d, key) && DistinctKeys(s, key) && KeepsKey(key, combine)
    ensures forall x <- MergeInOrder(d, s, key, combine) :: FromMerge(x, d, s, key, combine)
  {
    var r := MergeInOrder(d, s, key, combine);
    InOrderMeaning(d, s, key, combine);
    ToMapLookup(r, key);
    ToMapEntries(d, key);
    ToMapEntries(s, key);
    forall x <- r ensures FromMerge(x, d, s, key, combine) {
      assert Union(ToMap(d, key), ToMap(s, key), combine)[key(x)] == x;
    }
  }

  lemma PoolsCanonical(a: seq<ResourcePool>, b: seq<ResourcePool>)
    requires CanonicalPools(a) && CanonicalPools(b)
    ensures CanonicalPools(MergedPools(a, b))
    ensures MergedPools(a, a) == a
  {
    InOrderMeaning(a, b, PoolKey, CombinedPool);
    InOrderEntries(a, b, PoolKey, CombinedPool);
    forall x <- MergedPools(a, b) ensures CanonicalAttributes(x.attributes) {
      assert FromMerge(x, a, b, PoolKey, CombinedPool);
      if x !in a && x !in b {
        var y, z :| y in a && z in b && x == CombinedPool(y, z);
        PoolLaws(y, z, z);
      }
    }
    forall x <- a ensures CombinedPool(x, x) == x { PoolLaws(x, x, x); }
    InOrderIdempotent(a, PoolKey, CombinedPool);
  }

  lemma PoolsAssociative(a: seq<ResourcePool>, b: seq<ResourcePool>, c: seq<ResourcePool>)
    requires CanonicalPools(a) && CanonicalPools(b) && CanonicalPools(c)
    ensures MergedPools(MergedPools(a, b), c) == MergedPools(a, MergedPools(b, c))
  {
    ToMapEntries(a, PoolKey);
    ToMapEntries(b, PoolKey);
    ToMapEntries(c, PoolKey);
    var ma, mb, mc := ToMap(a, PoolKey), ToMap(b, PoolKey), ToMap(c, PoolKey);
    assert Associates(ma, mb, mc, CombinedPool) by {
      forall k | k in ma && k in mb && k in mc
        ensures CombinedPool(CombinedPool(ma[k], mb[k]), mc[k]) == CombinedPool(ma[k], CombinedPool(mb[k], mc[k]))
      {
        PoolLaws(ma[k], mb[k], mc[k]);
      }
    }
    InOrderAssociative(a, b, c, PoolKey, CombinedPool);
  }

  lemma PackagesCanonical(a: seq<ResourcePackage>, b: seq<ResourcePackage>)
    requires CanonicalPackages(a) && CanonicalPackages(b)
    ensures CanonicalPackages(MergedPackages(a, b))
    ensures MergedPackages(a, a) == a
  {
    InOrderMeaning(a, b, PackageKey, CombinedPackage);
    InOrderEntries(a, b, PackageKey, CombinedPackage);
    forall x <- MergedPackages(a, b) ensures CanonicalAttributes(x.attributes) {
      assert FromMerge(x, a, b, PackageKey, CombinedPackage);
      if x !in a && x !in b {
        var y, z :| y in a && z in b && x == CombinedPackage(y, z);
        PackageLaws(y, z, z);
      }
    }
    forall x <- a ensures CombinedPackage(x, x) == x { PackageLaws(x, x, x); }
    InOrderIdempotent(a, PackageKey, CombinedPackage);
  }

  lemma PackagesAssociative(a: seq<ResourcePackage>, b: seq<ResourcePackage>, c: seq<ResourcePackage>)
    requires CanonicalPackages(a) && CanonicalPackages(b) && CanonicalPackages(c)
    ensures MergedPackages(MergedPackages(a, b), c) == MergedPackages(a, MergedPackages(b, c))
  {
    ToMapEntries(a, PackageKey);
    ToMapEntries(b, PackageKey);
    ToMapEntries(c, PackageKey);
    var ma, mb, mc := ToMap(a, PackageKey), ToMap(b, PackageKey), ToMap(c, PackageKey);
    assert Associates(ma, mb, mc, CombinedPackage) by {
      forall k | k in ma && k in mb && k in mc
        ensures CombinedPackage(CombinedPackage(ma[k], mb[k]), mc[k]) ==
                CombinedPackage(ma[k], CombinedPackage(mb[k], mc[k]))
      {
        PackageLaws(ma[k], mb[k], mc[k]);
      }
    }
    InOrderAssociative(a, b, c, PackageKey, CombinedPackage);
  }

  // ---------------------------------------------------------------- whole payloads

  lemma PayloadCanonical(a: Payload, b: Payload)
    requires CanonicalPayload(a) && CanonicalPayload(b)
    ensures CanonicalPayload(MergedPayload(a, b))
    ensures MergedPayload(a, a) == a
  {
    PoolsCanonical(a.resources.pools, b.resources.pools);
    PackagesCanonical(a.resources.packages, b.resources.packages);
    AttributesLaws(a.attributes, b.attributes, b.attributes);
    AllocationsLaws(a.allocations, b.allocations, b.allocations);
    SiblingsCanonical(a.siblings, b.siblings);
    ListsAssociative(a.resources.capacity, None, None);
    ListsAssociative(a.resources.allocatable, None, None);
  }

  lemma ResourcesAssociative(a: Resources, b: Resources, c: Resources)
    requires CanonicalPools(a.pools) && CanonicalPools(b.pools) && CanonicalPools(c.pools)
    requires CanonicalPackages(a.packages) && CanonicalPackages(b.packages) && CanonicalPackages(c.packages)
    ensures MergedResources(MergedResources(a, b), c) == MergedResources(a, MergedResources(b, c))
  {
    ListsAssociative(a.capacity, b.capacity, c.capacity);
    ListsAssociative(a.allocatable, b.allocatable, c.allocatable);
    PoolsAssociative(a.pools, b.pools, c.pools);
    PackagesAssociative(a.packages, b.packages, c.packages);
  }

  lemma PayloadAssociative(a: Payload, b: Payload, c: Payload)
    requires CanonicalPayload(a) && CanonicalPayload(b) && CanonicalPayload(c)
    ensures MergedPayload(MergedPayload(a, b), c) == MergedPayload(a, MergedPayload(b, c))
  {
    ResourcesAssociative(a.resources, b.resources, c.resources);
    AttributesLaws(a.attributes, b.attributes, c.attributes);
    AllocationsLaws(a.allocations, b.allocations, c.allocations);
    SiblingsAssociative(a.siblings, b.siblings, c.siblings);
  }

  // ---------------------------------------------------------------- lists that are not canonical yet

  ghost predicate PoolSorted(p: ResourcePool) { CanonicalAttributes(p.attributes) }

  ghost predicate PackageSorted(p: ResourcePackage) { CanonicalAttributes(p.attributes) }

  ghost predicate SiblingSorted(s: Sibling) { CanonicalAttributes(s.attributes) }

  /** Merged attributes are canonical whatever they were merged from. */
  lemma AttributesSorted(d: seq<Attribute>, s: seq<Attribute>)
    ensures CanonicalAttributes(MergedAttributes(d, s))
  {
    ToMapEntries(Filter(d, AnyAttribute), AttributeKey);
    FoldKeyed(ToMap(Filter(d, AnyAttribute), AttributeKey), Filter(s, AnyAttribute), AttributeKey, FirstAttribute);
    ToListEntries(MergedMap(d, s, AttributeKey, AnyAttribute, FirstAttribute), AttributeKey);
  }

  /** Merged pools are canonical exactly if the first list names no pool twice and the attributes of
      every pool that is named once in both lists together are. */
  lemma PoolsCanonicalIff(d: seq<ResourcePool>, s: seq<ResourcePool>)
    ensures CanonicalPools(MergedPools(d, s)) <==> DistinctKeys(d, PoolKey) && LoneGood(d + s, PoolKey, PoolSorted)
  {
    forall a, b ensures PoolSorted(CombinedPool(a, b)) { AttributesSorted(a.attributes, b.attributes); }
    InOrderGood(d, s, PoolKey, CombinedPool, PoolSorted);
  }

  lemma PackagesCanonicalIff(d: seq<ResourcePackage>, s: seq<ResourcePackage>)
    ensures CanonicalPackages(MergedPackages(d, s)) <==>
            DistinctKeys(d, PackageKey) && LoneGood(d + s, PackageKey, PackageSorted)
  {
    forall a, b ensures PackageSorted(CombinedPackage(a, b)) { AttributesSorted(a.attributes, b.attributes); }
    InOrderGood(d, s, PackageKey, CombinedPackage, PackageSorted);
  }

  lemma SiblingsCanonicalIff(s: seq<Sibling>)
    ensures CanonicalSiblings(MergedSiblings([], s)) <==> LoneGood(s, SiblingKey, SiblingSorted)
  {
    forall a, b ensures SiblingSorted(CombinedSibling(a, b)) { AttributesSorted(a.attributes, b.attributes); }
    var m, r := MergedMap([], s, SiblingKey, AnySibling, CombinedSibling), MergedSiblings([], s);
    FilterAll(s, AnySibling);
    FoldGood(s, SiblingKey, CombinedSibling, SiblingSorted);
    FoldKeyed(map[], s, SiblingKey, CombinedSibling);
    ToListEntries(m, SiblingKey);
    MapListMap(m, SiblingKey);
    SortedDistinct(r, SiblingKey);
    EntriesGood(r, SiblingKey, SiblingSorted);
  }
}
