/** What a zone says, fact by fact (pkg/util/cnr.go, lines 220-462): a merge answers every question
    about a zone as the first forest does, and as the second one where the first is silent. */
module ZoneFacts {
  import opened Keys
  import opened Sorting
  import opened KeyedLists
  import opened KeyedMerge
  import opened InOrderMerge
  import opened ZonePayload
  import opened PayloadLaws
  import opened ZoneMerge
  import opened ZoneLaws

  // ---------------------------------------------------------------- questions and answers

  datatype Answer = Yes | Amount(quantity: int) | Text(text: string)

  /** Is there a resource list, and how much of a resource does it give? */
  datatype ListQuestion = IsGiven | HowMuch(resource: string)

  datatype PoolQuestion = PoolExists | PoolMax(q: ListQuestion) | PoolMin(q: ListQuestion) | PoolAttribute(name: string)

  datatype PackageQuestion = PackageExists | PackageAmount(q: ListQuestion) | PackageAttribute(name: string)

  datatype Question =
    | OfCapacity(q: ListQuestion)
    | OfAllocatable(q: ListQuestion)
    | OfPool(pool: string, ofPool: PoolQuestion)
    | OfPackage(package: string, ofPackage: PackageQuestion)
    | OfAttribute(name: string)
    | OfConsumer(consumer: string, request: Option<ListQuestion>)
    | OfSibling(node: Key, attribute: Option<string>)

  ghost function Find<T>(xs: seq<T>, key: T -> Key, k: Key): Option<T> {
    if k in ToMap(xs, key) then Some(ToMap(xs, key)[k]) else None
  }

  function ReadList(list: ResourceList, q: ListQuestion): Option<Answer> {
    if list.None? then None
    else match q
         case IsGiven => Some(Yes)
         case HowMuch(r) => if r in list.value then Some(Amount(list.value[r])) else None
  }

  ghost function ReadAttribute(xs: seq<Attribute>, name: string): Option<Answer> {
    var a := Find(xs, AttributeKey, Key("", name));
    if a.Some? then Some(Text(a.value.value)) else None
  }

  ghost function ReadPool(p: ResourcePool, q: PoolQuestion): Option<Answer> {
    match q
    case PoolExists => Some(Yes)
    case PoolMax(l) => ReadList(p.max, l)
    case PoolMin(l) => ReadList(p.min, l)
    case PoolAttribute(name) => ReadAttribute(p.attributes, name)
  }

  ghost function ReadPackage(p: ResourcePackage, q: PackageQuestion): Option<Answer> {
    match q
    case PackageExists => Some(Yes)
    case PackageAmount(l) => ReadList(p.allocatable, l)
    case PackageAttribute(name) => ReadAttribute(p.attributes, name)
  }

  ghost function ReadAllocation(a: Allocation, q: Option<ListQuestion>): Option<Answer> {
    if a.NilAllocation? then None else if q.None? then Some(Yes) else ReadList(a.requests, q.value)
  }

  ghost function ReadSibling(s: Sibling, q: Option<string>): Option<Answer> {
    if q.None? then Some(Yes) else ReadAttribute(s.attributes, q.value)
  }

  ghost function PoolReader(q: PoolQuestion): ResourcePool -> Option<Answer> { (p: ResourcePool) => ReadPool(p, q) }

  ghost function PackageReader(q: PackageQuestion): ResourcePackage -> Option<Answer> {
    (p: ResourcePackage) => ReadPackage(p, q)
  }

  ghost function AllocationReader(q: Option<ListQuestion>): Allocation -> Option<Answer> {
    (a: Allocation) => ReadAllocation(a, q)
  }

  ghost function SiblingReader(q: Option<string>): Sibling -> Option<Answer> { (s: Sibling) => ReadSibling(s, q) }

  /** The answer of what was found, if anything was. */
  ghost function Then<T>(x: Option<T>, read: T -> Option<Answer>): Option<Answer> {
    if x.Some? then read(x.value) else None
  }

  ghost function Read(p: Payload, q: Question): Option<Answer> {
    match q
    case OfCapacity(l) => ReadList(p.resources.capacity, l)
    case OfAllocatable(l) => ReadList(p.resources.allocatable, l)
    case OfPool(pool, of) => Then(Find(p.resources.pools, PoolKey, Key("", pool)), PoolReader(of))
    case OfPackage(package, of) => Then(Find(p.resources.packages, PackageKey, Key("", package)), PackageReader(of))
    case OfAttribute(name) => ReadAttribute(p.attributes, name)
    case OfConsumer(consumer, of) => Then(Find(p.allocations, AllocationKey, Key("", consumer)), AllocationReader(of))
    case OfSibling(node, of) => Then(Find(p.siblings, SiblingKey, node), SiblingReader(of))
  }

  /** The first answer, if there is one. */
  function First(d: Option<Answer>, s: Option<Answer>): Option<Answer> {
    if d.Some? then d else s
  }

  // ---------------------------------------------------------------- merging prefers the first answer

  lemma ListLeftBiased(d: ResourceList, s: ResourceList, q: ListQuestion)
    ensures ReadList(MergedLists(d, s), q) == First(ReadList(d, q), ReadList(s, q))
  {
  }

  /** What a merge finds for a key. */
  ghost function Combined<T>(d: Option<T>, s: Option<T>, combine: (T, T) -> T): Option<T> {
    if d.Some? && s.Some? then Some(combine(d.value, s.value)) else if d.Some? then d else s
  }

  lemma FoundSorted<T(!new)>(d: seq<T>, s: seq<T>, key: T -> Key, live: T -> bool, combine: (T, T) -> T, k: Key)
    requires Canonical(d, key, live) && Canonical(s, key, live) && KeepsKey(key, combine)
    ensures Find(MergeSorted(d, s, key, live, combine), key, k) == Combined(Find(d, key, k), Find(s, key, k), combine)
  {
    MergeIsUnion(d, s, key, live, combine);
  }

  lemma FoundInOrder<T(!new)>(d: seq<T>, s: seq<T>, key: T -> Key, combine: (T, T) -> T, k: Key)
    requires DistinctKeys(d, key) && DistinctKeys(s, key) && KeepsKey(key, combine)
    ensures Find(MergeInOrder(d, s, key, combine), key, k) == Combined(Find(d, key, k), Find(s, key, k), combine)
  {
    InOrderMeaning(d, s, key, combine);
  }

  lemma FoundIn<T>(xs: seq<T>, key: T -> Key, k: Key)
    ensures Find(xs, key, k).Some? ==> Find(xs, key, k).value in xs && key(Find(xs, key, k).value) == k
  {
    ToMapEntries(xs, key);
  }

  lemma AttributeLeftBiased(d: seq<Attribute>, s: seq<Attribute>, name: string)
    requires CanonicalAttributes(d) && CanonicalAttributes(s)
    ensures ReadAttribute(MergedAttributes(d, s), name) == First(ReadAttribute(d, name), ReadAttribute(s, name))
  {
    FoundSorted(d, s, AttributeKey, AnyAttribute, FirstAttribute, Key("", name));
  }

  lemma PoolLeftBiased(d: ResourcePool, s: ResourcePool, q: PoolQuestion)
    requires CanonicalAttributes(d.attributes) && CanonicalAttributes(s.attributes)
    ensures ReadPool(CombinedPool(d, s), q) == First(ReadPool(d, q), ReadPool(s, q))
  {
    hide ReadAttribute, MergedAttributes;
    match q
    case PoolExists =>
    case PoolMax(l) => ListLeftBiased(d.max, s.max, l);
    case PoolMin(l) => ListLeftBiased(d.min, s.min, l);
    case PoolAttribute(name) => AttributeLeftBiased(d.attributes, s.attributes, name);
  }

  lemma PackageLeftBiased(d: ResourcePackage, s: ResourcePackage, q: PackageQuestion)
    requires CanonicalAttributes(d.attributes) && CanonicalAttributes(s.attributes)
    ensures ReadPackage(CombinedPackage(d, s), q) == First(ReadPackage(d, q), ReadPackage(s, q))
  {
    hide ReadAttribute, MergedAttributes;
    match q
    case PackageExists =>
    case PackageAmount(l) => ListLeftBiased(d.allocatable, s.allocatable, l);
    case PackageAttribute(name) => AttributeLeftBiased(d.attributes, s.attributes, name);
  }

  lemma AllocationLeftBiased(d: Allocation, s: Allocation, q: Option<ListQuestion>)
    requires LiveAllocation(d) && LiveAllocation(s)
    ensures ReadAllocation(CombinedAllocation(d, s), q) == First(ReadAllocation(d, q), ReadAllocation(s, q))
  {
    if q.Some? { ListLeftBiased(d.requests, s.requests, q.value); }
  }

  lemma SiblingLeftBiased(d: Sibling, s: Sibling, q: Option<string>)
    requires CanonicalAttributes(d.attributes) && CanonicalAttributes(s.attributes)
    ensures ReadSibling(CombinedSibling(d, s), q) == First(ReadSibling(d, q), ReadSibling(s, q))
  {
    hide ReadAttribute, MergedAttributes;
    if q.Some? { AttributeLeftBiased(d.attributes, s.attributes, q.value); }
  }

  /** If combining two entries prefers the first, so does finding them in a merge. */
  lemma FoundLeftBiased<T>(d: Option<T>, s: Option<T>, combine: (T, T) -> T, read: T -> Option<Answer>)
    requires d.Some? && s.Some? ==> read(combine(d.value, s.value)) == First(read(d.value), read(s.value))
    ensures Then(Combined(d, s, combine), read) == First(Then(d, read), Then(s, read))
  {
  }

  lemma PoolsLeftBiased(d: seq<ResourcePool>, s: seq<ResourcePool>, k: Key, q: PoolQuestion)
    requires CanonicalPools(d) && CanonicalPools(s)
    ensures Then(Find(MergedPools(d, s), PoolKey, k), PoolReader(q)) ==
            First(Then(Find(d, PoolKey, k), PoolReader(q)), Then(Find(s, PoolKey, k), PoolReader(q)))
  {
    FoundInOrder(d, s, PoolKey, CombinedPool, k);
    FoundIn(d, PoolKey, k);
    FoundIn(s, PoolKey, k);
    var x, y := Find(d, PoolKey, k), Find(s, PoolKey, k);
    if x.Some? && y.Some? { PoolLeftBiased(x.value, y.value, q); }
    FoundLeftBiased(x, y, CombinedPool, PoolReader(q));
  }

  lemma PackagesLeftBiased(d: seq<ResourcePackage>, s: seq<ResourcePackage>, k: Key, q: PackageQuestion)
    requires CanonicalPackages(d) && CanonicalPackages(s)
    ensures Then(Find(MergedPackages(d, s), PackageKey, k), PackageReader(q)) ==
            First(Then(Find(d, PackageKey, k), PackageReader(q)), Then(Find(s, PackageKey, k), PackageReader(q)))
  {
    FoundInOrder(d, s, PackageKey, CombinedPackage, k);
    FoundIn(d, PackageKey, k);
    FoundIn(s, PackageKey, k);
    var x, y := Find(d, PackageKey, k), Find(s, PackageKey, k);
    if x.Some? && y.Some? { PackageLeftBiased(x.value, y.value, q); }
    FoundLeftBiased(x, y, CombinedPackage, PackageReader(q));
  }

  lemma AllocationsLeftBiased(d: seq<Allocation>, s: seq<Allocation>, k: Key, q: Option<ListQuestion>)
    requires CanonicalAllocations(d) && CanonicalAllocations(s)
    ensures Then(Find(MergedAllocations(d, s), AllocationKey, k), AllocationReader(q)) ==
            First(Then(Find(d, AllocationKey, k), AllocationReader(q)),
                  Then(Find(s, AllocationKey, k), AllocationReader(q)))
  {
    FoundSorted(d, s, AllocationKey, LiveAllocation, CombinedAllocation, k);
    FoundIn(d, AllocationKey, k);
    FoundIn(s, AllocationKey, k);
    var x, y := Find(d, AllocationKey, k), Find(s, AllocationKey, k);
    if x.Some? && y.Some? { AllocationLeftBiased(x.value, y.value, q); }
    FoundLeftBiased(x, y, CombinedAllocation, AllocationReader(q));
  }

  lemma SiblingsLeftBiased(d: seq<Sibling>, s: seq<Sibling>, k: Key, q: Option<string>)
    requires CanonicalSiblings(d) && CanonicalSiblings(s)
    ensures Then(Find(MergedSiblings(d, s), SiblingKey, k), SiblingReader(q)) ==
            First(Then(Find(d, SiblingKey, k), SiblingReader(q)), Then(Find(s, SiblingKey, k), SiblingReader(q)))
  {
    FoundSorted(d, s, SiblingKey, AnySibling, CombinedSibling, k);
    FoundIn(d, SiblingKey, k);
    FoundIn(s, SiblingKey, k);
    var x, y := Find(d, SiblingKey, k), Find(s, SiblingKey, k);
    if x.Some? && y.Some? { SiblingLeftBiased(x.value, y.value, q); }
    FoundLeftBiased(x, y, CombinedSibling, SiblingReader(q));
  }

  /** A merged payload answers every question as the first one does, and as the second one where the
      first is silent. */
  lemma PayloadLeftBiased(d: Payload, s: Payload, q: Question)
    requires CanonicalPayload(d) && CanonicalPayload(s)
    ensures Read(MergedPayload(d, s), q) == First(Read(d, q), Read(s, q))
  {
    hide Find, ReadAttribute, ReadList, MergedPools, MergedPackages, MergedAllocations, MergedSiblings,
      MergedAttributes, MergedLists, Then;
    match q
    case OfCapacity(l) => ListLeftBiased(d.resources.capacity, s.resources.capacity, l);
    case OfAllocatable(l) => ListLeftBiased(d.resources.allocatable, s.resources.allocatable, l);
    case OfPool(pool, of) => PoolsLeftBiased(d.resources.pools, s.resources.pools, Key("", pool), of);
    case OfPackage(package, of) => PackagesLeftBiased(d.resources.packages, s.resources.packages, Key("", package), of);
    case OfAttribute(name) => AttributeLeftBiased(d.attributes, s.attributes, name);
    case OfConsumer(consumer, of) => AllocationsLeftBiased(d.allocations, s.allocations, Key("", consumer), of);
    case OfSibling(node, of) => SiblingsLeftBiased(d.siblings, s.siblings, node, of);
  }

  // ---------------------------------------------------------------- along paths

  /** What a forest answers about the zone at the end of a path. */
  ghost function ReadAt(f: seq<Zone>, path: seq<Key>, q: Question): Option<Answer>
    requires path != []
  {
    var p := At(f, path);
    if p.Some? then Read(p.value, q) else None
  }

  lemma {:induction false} CanonicalAt(f: seq<Zone>, path: seq<Key>)
    requires CanonicalForest(f) && path != []
    ensures At(f, path).Some? ==> CanonicalPayload(At(f, path).value)
    decreases |path|
  {
    if path[0] in Level(f) {
      ZonesOf(f, path[0]);
      if |path| > 1 { CanonicalAt(Level(f)[path[0]].children, path[1..]); }
    }
  }

  /** The merged forest has the paths of both forests, and at each it answers every question as the
      first forest does, and as the second one where the first is silent. */
  lemma MergedAnswers(d: seq<Zone>, s: seq<Zone>, path: seq<Key>, q: Question)
    requires CanonicalForest(d) && CanonicalForest(s) && path != []
    ensures At(MergedZones(d, s), path).Some? <==> At(d, path).Some? || At(s, path).Some?
    ensures ReadAt(MergedZones(d, s), path, q) == First(ReadAt(d, path, q), ReadAt(s, path, q))
  {
    hide Read, CanonicalPayload, MergedPayload;
    MergedPaths(d, s, path);
    CanonicalAt(d, path);
    CanonicalAt(s, path);
    if At(d, path).Some? && At(s, path).Some? { PayloadLeftBiased(At(d, path).value, At(s, path).value, q); }
  }

  /** Pools and packages of the first zone keep their order, and those only the second one has follow
      in theirs. */
  lemma MergedOrder(d: Payload, s: Payload)
    requires CanonicalPayload(d) && CanonicalPayload(s)
    ensures
      var a, b, r := d.resources, s.resources, MergedPayload(d, s).resources;
      && KeySeq(r.pools, PoolKey) ==
         KeySeq(a.pools, PoolKey) + Filter(KeySeq(b.pools, PoolKey), MissingFrom(ToMap(a.pools, PoolKey)))
      && KeySeq(r.packages, PackageKey) ==
         KeySeq(a.packages, PackageKey) +
         Filter(KeySeq(b.packages, PackageKey), MissingFrom(ToMap(a.packages, PackageKey)))
  {
    InOrderMeaning(d.resources.pools, s.resources.pools, PoolKey, CombinedPool);
    InOrderMeaning(d.resources.packages, s.resources.packages, PackageKey, CombinedPackage);
  }

  // ---------------------------------------------------------------- the answers say it all

  lemma ListDetermined(a: ResourceList, b: ResourceList)
    requires forall q :: ReadList(a, q) == ReadList(b, q)
    ensures a == b
  {
    assert ReadList(a, IsGiven) == ReadList(b, IsGiven);
    if a.Some? {
      forall r ensures r in a.value <==> r in b.value { assert ReadList(a, HowMuch(r)) == ReadList(b, HowMuch(r)); }
      forall r | r in a.value ensures a.value[r] == b.value[r] {
        assert ReadList(a, HowMuch(r)) == ReadList(b, HowMuch(r));
      }
      assert a.value == b.value;
    }
  }

  /** A list is determined by the order of its keys and what is found for each. */
  lemma FoundDetermines<T>(a: seq<T>, b: seq<T>, key: T -> Key)
    requires DistinctKeys(a, key) && DistinctKeys(b, key) && KeySeq(a, key) == KeySeq(b, key)
    requires forall k :: Find(a, key, k) == Find(b, key, k)
    ensures a == b
  {
    forall k ensures k in ToMap(a, key) <==> k in ToMap(b, key) { assert Find(a, key, k) == Find(b, key, k); }
    forall k | k in ToMap(a, key) ensures ToMap(a, key)[k] == ToMap(b, key)[k] {
      assert Find(a, key, k) == Find(b, key, k);
    }
    assert ToMap(a, key) == ToMap(b, key);
    DeterminedByKeys(a, b, key);
  }

  lemma FoundDeterminesSorted<T>(a: seq<T>, b: seq<T>, key: T -> Key)
    requires Sorted(a, key) && Sorted(b, key) && forall k :: Find(a, key, k) == Find(b, key, k)
    ensures a == b
  {
    forall k ensures k in ToMap(a, key) <==> k in ToMap(b, key) { assert Find(a, key, k) == Find(b, key, k); }
    forall k | k in ToMap(a, key) ensures ToMap(a, key)[k] == ToMap(b, key)[k] {
      assert Find(a, key, k) == Find(b, key, k);
    }
    assert ToMap(a, key) == ToMap(b, key);
    ListMapList(a, key);
    ListMapList(b, key);
  }

  lemma AttributesDetermined(a: seq<Attribute>, b: seq<Attribute>)
    requires CanonicalAttributes(a) && CanonicalAttributes(b)
    requires forall name :: ReadAttribute(a, name) == ReadAttribute(b, name)
    ensures a == b
  {
    forall k ensures Find(a, AttributeKey, k) == Find(b, AttributeKey, k) {
      FoundIn(a, AttributeKey, k);
      FoundIn(b, AttributeKey, k);
      assert ReadAttribute(a, k.name) == ReadAttribute(b, k.name);
    }
    FoundDeterminesSorted(a, b, AttributeKey);
  }

  lemma PoolDetermined(x: ResourcePool, y: ResourcePool)
    requires CanonicalAttributes(x.attributes) && CanonicalAttributes(y.attributes) && x.name == y.name
    requires forall q :: ReadPool(x, q) == ReadPool(y, q)
    ensures x == y
  {
    forall l ensures ReadList(x.max, l) == ReadList(y.max, l) {
      assert ReadPool(x, PoolMax(l)) == ReadPool(y, PoolMax(l));
    }
    forall l ensures ReadList(x.min, l) == ReadList(y.min, l) {
      assert ReadPool(x, PoolMin(l)) == ReadPool(y, PoolMin(l));
    }
    forall name ensures ReadAttribute(x.attributes, name) == ReadAttribute(y.attributes, name) {
      assert ReadPool(x, PoolAttribute(name)) == ReadPool(y, PoolAttribute(name));
    }
    ListDetermined(x.max, y.max);
    ListDetermined(x.min, y.min);
    AttributesDetermined(x.attributes, y.attributes);
  }

  lemma PackageDetermined(x: ResourcePackage, y: ResourcePackage)
    requires CanonicalAttributes(x.attributes) && CanonicalAttributes(y.attributes) && x.name == y.name
    requires forall q :: ReadPackage(x, q) == ReadPackage(y, q)
    ensures x == y
  {
    forall l ensures ReadList(x.allocatable, l) == ReadList(y.allocatable, l) {
      assert ReadPackage(x, PackageAmount(l)) == ReadPackage(y, PackageAmount(l));
    }
    forall name ensures ReadAttribute(x.attributes, name) == ReadAttribute(y.attributes, name) {
      assert ReadPackage(x, PackageAttribute(name)) == ReadPackage(y, PackageAttribute(name));
    }
    ListDetermined(x.allocatable, y.allocatable);
    AttributesDetermined(x.attributes, y.attributes);
  }

  lemma AllocationDetermined(x: Allocation, y: Allocation)
    requires LiveAllocation(x) && LiveAllocation(y) && x.consumer == y.consumer
    requires forall q :: ReadAllocation(x, q) == ReadAllocation(y, q)
    ensures x == y
  {
    forall l ensures ReadList(x.requests, l) == ReadList(y.requests, l) {
      assert ReadAllocation(x, Some(l)) == ReadAllocation(y, Some(l));
    }
    ListDetermined(x.requests, y.requests);
  }

  lemma SiblingDetermined(x: Sibling, y: Sibling)
    requires CanonicalAttributes(x.attributes) && CanonicalAttributes(y.attributes) && x.node == y.node
    requires forall q :: ReadSibling(x, q) == ReadSibling(y, q)
    ensures x == y
  {
    forall name ensures ReadAttribute(x.attributes, name) == ReadAttribute(y.attributes, name) {
      assert ReadSibling(x, Some(name)) == ReadSibling(y, Some(name));
    }
    AttributesDetermined(x.attributes, y.attributes);
  }

  /** The two payloads answer every question alike. */
  ghost predicate SameAnswers(a: Payload, b: Payload) {
    forall q :: Read(a, q) == Read(b, q)
  }

  lemma PoolsFoundAlike(a: Payload, b: Payload, k: Key)
    requires CanonicalPayload(a) && CanonicalPayload(b) && SameAnswers(a, b)
    ensures Find(a.resources.pools, PoolKey, k) == Find(b.resources.pools, PoolKey, k)
  {
    hide Find, ReadPool;
    FoundIn(a.resources.pools, PoolKey, k);
    FoundIn(b.resources.pools, PoolKey, k);
    var x, y := Find(a.resources.pools, PoolKey, k), Find(b.resources.pools, PoolKey, k);
    if x.Some? || y.Some? {
      forall q ensures Then(x, PoolReader(q)) == Then(y, PoolReader(q)) {
        assert Read(a, OfPool(k.name, q)) == Read(b, OfPool(k.name, q));
      }
      BothPools(x, y);
    }
  }

  lemma BothPools(x: Option<ResourcePool>, y: Option<ResourcePool>)
    requires forall q :: Then(x, PoolReader(q)) == Then(y, PoolReader(q))
    requires x.Some? ==> CanonicalAttributes(x.value.attributes)
    requires y.Some? ==> CanonicalAttributes(y.value.attributes)
    requires x.Some? && y.Some? ==> x.value.name == y.value.name
    ensures x == y
  {
    assert Then(x, PoolReader(PoolExists)) == Then(y, PoolReader(PoolExists));
    if x.Some? && y.Some? {
      forall q ensures ReadPool(x.value, q) == ReadPool(y.value, q) {
        assert Then(x, PoolReader(q)) == Then(y, PoolReader(q));
      }
      PoolDetermined(x.value, y.value);
    }
  }

  lemma PackagesFoundAlike(a: Payload, b: Payload, k: Key)
    requires CanonicalPayload(a) && CanonicalPayload(b) && SameAnswers(a, b)
    ensures Find(a.resources.packages, PackageKey, k) == Find(b.resources.packages, PackageKey, k)
  {
    hide Find, ReadPackage;
    FoundIn(a.resources.packages, PackageKey, k);
    FoundIn(b.resources.packages, PackageKey, k);
    var x, y := Find(a.resources.packages, PackageKey, k), Find(b.resources.packages, PackageKey, k);
    if x.Some? || y.Some? {
      forall q ensures Then(x, PackageReader(q)) == Then(y, PackageReader(q)) {
        assert Read(a, OfPackage(k.name, q)) == Read(b, OfPackage(k.name, q));
      }
      BothPackages(x, y);
    }
  }

  lemma BothPackages(x: Option<ResourcePackage>, y: Option<ResourcePackage>)
    requires forall q :: Then(x, PackageReader(q)) == Then(y, PackageReader(q))
    requires x.Some? ==> CanonicalAttributes(x.value.attributes)
    requires y.Some? ==> CanonicalAttributes(y.value.attributes)
    requires x.Some? && y.Some? ==> x.value.name == y.value.name
    ensures x == y
  {
    assert Then(x, PackageReader(PackageExists)) == Then(y, PackageReader(PackageExists));
    if x.Some? && y.Some? {
      forall q ensures ReadPackage(x.value, q) == ReadPackage(y.value, q) {
        assert Then(x, PackageReader(q)) == Then(y, PackageReader(q));
      }
      PackageDetermined(x.value, y.value);
    }
  }

  lemma AllocationsFoundAlike(a: Payload, b: Payload, k: Key)
    requires CanonicalPayload(a) && CanonicalPayload(b) && SameAnswers(a, b)
    ensures Find(a.allocations, AllocationKey, k) == Find(b.allocations, AllocationKey, k)
  {
    hide Find, ReadAllocation;
    FoundIn(a.allocations, AllocationKey, k);
    FoundIn(b.allocations, AllocationKey, k);
    var x, y := Find(a.allocations, AllocationKey, k), Find(b.allocations, AllocationKey, k);
    if x.Some? || y.Some? {
      forall q ensures Then(x, AllocationReader(q)) == Then(y, AllocationReader(q)) {
        assert Read(a, OfConsumer(k.name, q)) == Read(b, OfConsumer(k.name, q));
      }
      BothAllocations(x, y);
    }
  }

  lemma BothAllocations(x: Option<Allocation>, y: Option<Allocation>)
    requires forall q :: Then(x, AllocationReader(q)) == Then(y, AllocationReader(q))
    requires (x.Some? ==> LiveAllocation(x.value)) && (y.Some? ==> LiveAllocation(y.value))
    requires x.Some? && y.Some? ==> x.value.consumer == y.value.consumer
    ensures x == y
  {
    assert Then(x, AllocationReader(None)) == Then(y, AllocationReader(None));
    if x.Some? && y.Some? {
      forall q ensures ReadAllocation(x.value, q) == ReadAllocation(y.value, q) {
        assert Then(x, AllocationReader(q)) == Then(y, AllocationReader(q));
      }
      AllocationDetermined(x.value, y.value);
    }
  }

  lemma SiblingsFoundAlike(a: Payload, b: Payload, k: Key)
    requires CanonicalPayload(a) && CanonicalPayload(b) && SameAnswers(a, b)
    ensures Find(a.siblings, SiblingKey, k) == Find(b.siblings, SiblingKey, k)
  {
    hide Find, ReadSibling;
    FoundIn(a.siblings, SiblingKey, k);
    FoundIn(b.siblings, SiblingKey, k);
    var x, y := Find(a.siblings, SiblingKey, k), Find(b.siblings, SiblingKey, k);
    forall q ensures Then(x, SiblingReader(q)) == Then(y, SiblingReader(q)) {
      assert Read(a, OfSibling(k, q)) == Read(b, OfSibling(k, q));
    }
    BothSiblings(x, y);
  }

  lemma BothSiblings(x: Option<Sibling>, y: Option<Sibling>)
    requires forall q :: Then(x, SiblingReader(q)) == Then(y, SiblingReader(q))
    requires x.Some? ==> CanonicalAttributes(x.value.attributes)
    requires y.Some? ==> CanonicalAttributes(y.value.attributes)
    requires x.Some? && y.Some? ==> x.value.node == y.value.node
    ensures x == y
  {
    assert Then(x, SiblingReader(None)) == Then(y, SiblingReader(None));
    if x.Some? && y.Some? {
      forall q ensures ReadSibling(x.value, q) == ReadSibling(y.value, q) {
        assert Then(x, SiblingReader(q)) == Then(y, SiblingReader(q));
      }
      SiblingDetermined(x.value, y.value);
    }
  }

  /** Canonical payloads with the same answers and their pools and packages in the same order are
      equal, so the answers describe a merge completely. */
  lemma AnswersDetermine(a: Payload, b: Payload)
    requires CanonicalPayload(a) && CanonicalPayload(b) && SameAnswers(a, b)
    requires KeySeq(a.resources.pools, PoolKey) == KeySeq(b.resources.pools, PoolKey)
    requires KeySeq(a.resources.packages, PackageKey) == KeySeq(b.resources.packages, PackageKey)
    ensures a == b
  {
    forall k ensures Find(a.resources.pools, PoolKey, k) == Find(b.resources.pools, PoolKey, k) {
      PoolsFoundAlike(a, b, k);
    }
    forall k ensures Find(a.resources.packages, PackageKey, k) == Find(b.resources.packages, PackageKey, k) {
      PackagesFoundAlike(a, b, k);
    }
    forall k ensures Find(a.allocations, AllocationKey, k) == Find(b.allocations, AllocationKey, k) {
      AllocationsFoundAlike(a, b, k);
    }
    forall k ensures Find(a.siblings, SiblingKey, k) == Find(b.siblings, SiblingKey, k) { SiblingsFoundAlike(a, b, k); }
    ListsAlike(a, b);
    hide Find;
    FoundDetermines(a.resources.pools, b.resources.pools, PoolKey);
    FoundDetermines(a.resources.packages, b.resources.packages, PackageKey);
    FoundDeterminesSorted(a.allocations, b.allocations, AllocationKey);
    FoundDeterminesSorted(a.siblings, b.siblings, SiblingKey);
  }

  lemma ListsAlike(a: Payload, b: Payload)
    requires CanonicalPayload(a) && CanonicalPayload(b) && SameAnswers(a, b)
    ensures a.resources.capacity == b.resources.capacity && a.resources.allocatable == b.resources.allocatable
    ensures a.attributes == b.attributes
  {
    hide ReadList, ReadAttribute;
    forall l ensures ReadList(a.resources.capacity, l) == ReadList(b.resources.capacity, l) {
      assert Read(a, OfCapacity(l)) == Read(b, OfCapacity(l));
    }
    forall l ensures ReadList(a.resources.allocatable, l) == ReadList(b.resources.allocatable, l) {
      assert Read(a, OfAllocatable(l)) == Read(b, OfAllocatable(l));
    }
    forall name ensures ReadAttribute(a.attributes, name) == ReadAttribute(b.attributes, name) {
      assert Read(a, OfAttribute(name)) == Read(b, OfAttribute(name));
    }
    ListDetermined(a.resources.capacity, b.resources.capacity);
    ListDetermined(a.resources.allocatable, b.resources.allocatable);
    AttributesDetermined(a.attributes, b.attributes);
  }
}
