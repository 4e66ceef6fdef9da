/** Turning the zone tree into the reported zones (pkg/util/cnr_topology.go, lines 117-194). */
module TopologyStatus {
  import opened Keys
  import opened Sorting
  import opened KeyedLists
  import opened KeyedMerge
  import opened ZonePayload
  import opened PayloadLaws
  import opened ZoneMerge
  import opened ZoneLaws
  import opened TopologyGenerator

  /** What the reporter knows per zone node. */
  datatype ZoneInfo = ZoneInfo(
    allocations: map<Key, seq<Allocation>>,
    resources: map<Key, Resources>,
    attributes: map<Key, seq<Attribute>>,
    siblings: map<Key, seq<Sibling>>,
    pools: map<Key, seq<ResourcePool>>,
    packages: map<Key, seq<ResourcePackage>>)

  function BaseOf(info: ZoneInfo, n: Key): Resources {
    if n in info.resources then info.resources[n] else Resources(None, None, [], [])
  }

  function PayloadOf(info: ZoneInfo, n: Key): Payload {
    var base := BaseOf(info, n);
    Payload(
      base.(pools := if n in info.pools then MergedPools(base.pools, info.pools[n]) else base.pools,
            packages := if n in info.packages then MergedPackages(base.packages, info.packages[n]) else base.packages),
      if n in info.attributes then MergedAttributes([], info.attributes[n]) else [],
      if n in info.allocations then MergedAllocations([], info.allocations[n]) else [],
      if n in info.siblings then MergedSiblings([], info.siblings[n]) else [])
  }

  // ---------------------------------------------------------------- the walk over the tree

  /** The zones under an object: its children in order, each with the zones under it. Every object
      hangs under an older one, so the walk ends. */
  ghost function StatusOf(g: Generator, top: ZoneTopology, info: ZoneInfo): seq<Zone>
    requires g.Built() && top in g.objects
    reads g, g.root, g.objects
    decreases g.clock - top.born, 1
  {
    ToList(StatusMap(g, top, info))
  }

  ghost function StatusMap(g: Generator, top: ZoneTopology, info: ZoneInfo): (m: map<Key, Zone>)
    requires g.Built() && top in g.objects
    reads g, g.root, g.objects
    ensures m.Keys == top.children.Keys && KeyedBy(m, ZoneKey)
    decreases g.clock - top.born, 0
  {
    assert g.HangsBelow(top);
    map n | n in top.children :: Zone(n, PayloadOf(info, n), StatusOf(g, top.children[n], info))
  }

  method ComputePayload(info: ZoneInfo, n: Key) returns (payload: Payload)
    ensures payload == PayloadOf(info, n)
  {
    var resources := Resources(None, None, [], []);
    var attributes: seq<Attribute> := [];
    var allocations: seq<Allocation> := [];
    var siblings: seq<Sibling> := [];
    if n in info.resources { resources := info.resources[n]; }
    if n in info.attributes { attributes := MergeAttributes([], info.attributes[n]); }
    if n in info.allocations { allocations := MergeAllocations([], info.allocations[n]); }
    if n in info.siblings { siblings := MergeSiblings([], info.siblings[n]); }
    if n in info.pools {
      var pools := MergeResourcePools(resources.pools, info.pools[n]);
      resources := resources.(pools := pools);
    }
    if n in info.packages {
      var packages := MergeResourcePackages(resources.packages, info.packages[n]);
      resources := resources.(packages := packages);
    }
    payload := Payload(resources, attributes, allocations, siblings);
  }

  /** One zone with everything below it. */
  method GenerateZone(g: Generator, top: ZoneTopology, n: Key, info: ZoneInfo) returns (zone: Zone)
    requires g.Built() && top in g.objects && n in top.children
    ensures zone == StatusMap(g, top, info)[n]
    decreases g.clock - top.born, 0
  {
    hide PayloadOf;
    assert g.HangsBelow(top);
    var payload := ComputePayload(info, n);
    var children := GenerateUnder(g, top.children[n], info);
    zone := Zone(n, payload, children);
  }

  /** Walk the children in any order, recursing into each. */
  method GenerateZones(g: Generator, top: ZoneTopology, info: ZoneInfo, ghost m: map<Key, Zone>)
    returns (zones: seq<Zone>)
    requires g.Built() && top in g.objects && m == StatusMap(g, top, info)
    ensures Collects(zones, m, m.Keys, ZoneKey)
    decreases g.clock - top.born, 1
  {
    hide StatusMap, StatusOf, PayloadOf, Generator.Built, Collects, DistinctKeys;
    NothingCollected(m);
    var todo := top.children.Keys;
    ghost var done := {};
    zones := [];
    while todo != {}
      invariant todo !! done && todo + done == m.Keys
      invariant Collects(zones, m, done, ZoneKey)
    {
      var n :| n in todo;
      var zone := GenerateZone(g, top, n, info);
      CollectsStep(zones, m, done, ZoneKey, n);
      zones := zones + [zone];
      todo, done := todo - {n}, done + {n};
    }
  }

  /** The zones under an object, sorted. */
  method GenerateUnder(g: Generator, top: ZoneTopology, info: ZoneInfo) returns (zones: seq<Zone>)
    requires g.Built() && top in g.objects
    ensures zones == StatusOf(g, top, info)
    decreases g.clock - top.born, 2
  {
    hide StatusMap, Generator.Built, Collects;
    ghost var m := StatusMap(g, top, info);
    var result := GenerateZones(g, top, info, m);
    zones := SortByKey(result, ZoneKey);
    SortedZones(result, zones, m);
  }

  lemma NothingCollected(m: map<Key, Zone>)
    ensures Collects([], m, {}, ZoneKey)
  {
  }

  lemma SortedZones(result: seq<Zone>, zones: seq<Zone>, m: map<Key, Zone>)
    requires KeyedBy(m, ZoneKey) && Collects(result, m, m.Keys, ZoneKey)
    requires multiset(result) == multiset(zones) && WeaklySorted(zones, ZoneKey)
    ensures zones == ToList(m)
  {
    CollectsAll(result, m, ZoneKey);
    SortedForm(result, zones, ZoneKey);
  }

  // ---------------------------------------------------------------- what the status shows

  /** The path leads from an object down to its last node, child by child. */
  ghost predicate Leads(g: Generator, top: ZoneTopology, path: seq<Key>)
    requires g.Built() && top in g.objects
    reads g, g.root, g.objects
    decreases |path|
  {
    assert g.HangsBelow(top);
    path != [] && path[0] in top.children && (|path| > 1 ==> Leads(g, top.children[path[0]], path[1..]))
  }

  /** Sorted and without repeated nodes at every level. */
  ghost predicate SortedForest(f: seq<Zone>) {
    SortedLevel(f) && forall z <- f :: z.Zone? && SortedForest(z.children)
  }

  lemma {:induction false} StatusSorted(g: Generator, top: ZoneTopology, info: ZoneInfo)
    requires g.Built() && top in g.objects
    ensures SortedForest(StatusOf(g, top, info))
    decreases g.clock - top.born
  {
    hide PayloadOf;
    assert g.HangsBelow(top);
    var m := StatusMap(g, top, info);
    ToListEntries(m, ZoneKey);
    forall z <- ToList(m) ensures LiveZone(z) && SortedForest(z.children) {
      StatusSorted(g, top.children[ZoneKey(z)], info);
    }
  }

  /** The status has exactly the paths that follow the objects from the root, and each carries its
      node's information. */
  lemma {:induction false} StatusPaths(g: Generator, top: ZoneTopology, info: ZoneInfo, path: seq<Key>)
    requires g.Built() && top in g.objects && path != []
    ensures At(StatusOf(g, top, info), path) ==
            if Leads(g, top, path) then Some(PayloadOf(info, path[|path| - 1])) else None
    decreases |path|
  {
    hide PayloadOf, StatusOf, ZoneAt, Generator.Built;
    StatusZoneAt(g, top, info, path[0]);
    if path[0] in top.children && |path| > 1 {
      assert g.HangsBelow(top);
      StatusPaths(g, top.children[path[0]], info, path[1..]);
    }
  }

  lemma StatusZoneAt(g: Generator, top: ZoneTopology, info: ZoneInfo, n: Key)
    requires g.Built() && top in g.objects
    ensures g.HangsBelow(top)
    ensures ZoneAt(StatusOf(g, top, info), n) ==
            if n in top.children then Some(Zone(n, PayloadOf(info, n), StatusOf(g, top.children[n], info))) else None
  {
    hide PayloadOf;
    MapListMap(StatusMap(g, top, info), ZoneKey);
  }

  // ---------------------------------------------------------------- valid trees

  /** The path leads from `place` down to its last node, parent by parent. */
  ghost predicate Chain(parents: Parents, place: Option<Key>, path: seq<Key>)
    decreases |path|
  {
    && path != []
    && path[0] in parents && parents[path[0]] == place
    && (|path| > 1 ==> Chain(parents, Some(path[0]), path[1..]))
  }

  /** `top` is the object that holds the children of `place`. */
  ghost predicate Holds(g: Generator, top: ZoneTopology, place: Option<Key>)
    reads g
  {
    if place.None? then top == g.root else place.value in g.sub && top == g.sub[place.value]
  }

  lemma HeldChildren(g: Generator, top: ZoneTopology, place: Option<Key>)
    requires g.Valid() && Holds(g, top, place)
    ensures forall n :: n in top.children <==> n in g.parents && g.parents[n] == place
    ensures forall n <- top.children :: Holds(g, top.children[n], Some(n))
  {
    if place.Some? { assert Mirrors(g.Kids()[place.value], g.parents, g.sub, place); }
  }

  /** In a valid tree the objects follow the parents. */
  lemma {:induction false} LeadsIffChain(g: Generator, top: ZoneTopology, place: Option<Key>, path: seq<Key>)
    requires g.Built() && g.Valid() && top in g.objects && Holds(g, top, place)
    ensures Leads(g, top, path) <==> Chain(g.parents, place, path)
    decreases |path|
  {
    hide Generator.Valid;
    HeldChildren(g, top, place);
    assert g.HangsBelow(top);
    if path != [] && path[0] in top.children && |path| > 1 {
      LeadsIffChain(g, top.children[path[0]], Some(path[0]), path[1..]);
    }
  }

  lemma ChainAppend(parents: Parents, place: Option<Key>, path: seq<Key>, n: Key)
    requires Chain(parents, place, path) && n in parents && parents[n] == Some(path[|path| - 1])
    ensures Chain(parents, place, path + [n])
    decreases |path|
  {
    assert (path + [n])[1..] == path[1..] + [n];
    if |path| == 1 {
    } else {
      ChainAppend(parents, Some(path[0]), path[1..], n);
    }
  }

  lemma ChainPrefix(parents: Parents, place: Option<Key>, path: seq<Key>)
    requires Chain(parents, place, path) && |path| > 1
    ensures Chain(parents, place, path[..|path| - 1])
    ensures path[|path| - 1] in parents && parents[path[|path| - 1]] == Some(path[|path| - 2])
    decreases |path|
  {
    if |path| == 2 {
    } else {
      ChainPrefix(parents, Some(path[0]), path[1..]);
      assert path[1..][..|path| - 2] == path[..|path| - 1][1..];
    }
  }

  lemma ChainLevel(parents: Parents, depth: map<Key, nat>, path: seq<Key>)
    requires Forest(parents, depth) && Chain(parents, None, path)
    ensures path[|path| - 1] in parents && depth[path[|path| - 1]] == |path| - 1
    decreases |path|
  {
    assert Hangs(parents, depth, path[|path| - 1]) by { if |path| > 1 { ChainPrefix(parents, None, path); } }
    if |path| == 1 {
    } else {
      ChainPrefix(parents, None, path);
      ChainLevel(parents, depth, path[..|path| - 1]);
    }
  }

  /** Every node lies at the end of a path from a root ... */
  lemma {:induction false} NodeReported(parents: Parents, depth: map<Key, nat>, n: Key) returns (path: seq<Key>)
    requires Forest(parents, depth) && n in parents
    ensures Chain(parents, None, path) && path[|path| - 1] == n
    decreases depth[n]
  {
    assert Hangs(parents, depth, n);
    if parents[n].None? { return [n]; }
    path := NodeReported(parents, depth, parents[n].value);
    ChainAppend(parents, None, path, n);
    path := path + [n];
  }

  /** ... and of no other, so it is reported exactly once. */
  lemma {:induction false} NodeReportedOnce(parents: Parents, depth: map<Key, nat>, a: seq<Key>, b: seq<Key>)
    requires Forest(parents, depth) && Chain(parents, None, a) && Chain(parents, None, b)
    requires a[|a| - 1] == b[|b| - 1]
    ensures a == b
    decreases |a|
  {
    ChainLevel(parents, depth, a);
    ChainLevel(parents, depth, b);
    if |a| == 1 {
    } else {
      ChainPrefix(parents, None, a);
      ChainPrefix(parents, None, b);
      NodeReportedOnce(parents, depth, a[..|a| - 1], b[..|b| - 1]);
      assert a == a[..|a| - 1] + [a[|a| - 1]] && b == b[..|b| - 1] + [b[|b| - 1]];
    }
  }

  /** Attributes and allocations are reported sorted and without repetitions, whatever was given. */
  lemma ReportedListsCanonical(info: ZoneInfo, n: Key)
    ensures CanonicalAttributes(PayloadOf(info, n).attributes)
    ensures CanonicalAllocations(PayloadOf(info, n).allocations)
  {
    if n in info.attributes { FoldedCanonical(info.attributes[n], AttributeKey, AnyAttribute, FirstAttribute); }
    if n in info.allocations {
      FoldedCanonical(info.allocations[n], AllocationKey, LiveAllocation, CombinedAllocation);
    }
  }

  lemma FoldedCanonical<T(!new)>(xs: seq<T>, key: T -> Key, live: T -> bool, combine: (T, T) -> T)
    requires KeepsKey(key, combine) && KeepsLive(live, combine)
    ensures Canonical(MergeSorted([], xs, key, live, combine), key, live)
  {
    var m := MergedMap([], xs, key, live, combine);
    FilterEntries(xs, live);
    FoldedLive(Filter(xs, live), key, live, combine);
    FoldKeyed(map[], Filter(xs, live), key, combine);
    ToListEntries(m, key);
  }

  lemma {:induction false} FoldedLive<T(!new)>(xs: seq<T>, key: T -> Key, live: T -> bool, combine: (T, T) -> T)
    requires KeepsLive(live, combine) && forall x <- xs :: live(x)
    ensures forall k <- FoldInto(map[], xs, key, combine) :: live(FoldInto(map[], xs, key, combine)[k])
  {
    if xs == [] {
    } else {
      assert xs[|xs| - 1] in xs && forall x <- xs[..|xs| - 1] :: x in xs;
      FoldedLive(xs[..|xs| - 1], key, live, combine);
    }
  }

  // ---------------------------------------------------------------- when the status is canonical

  function Given<T>(lists: map<Key, seq<T>>, n: Key): seq<T> {
    if n in lists then lists[n] else []
  }

  /** The resources of a node name no pool and no package twice, and a pool, package or sibling that
      comes alone has sorted attributes without repetitions. */
  ghost predicate GivenCanonical(info: ZoneInfo, n: Key) {
    var base := BaseOf(info, n);
    && DistinctKeys(base.pools, PoolKey) && LoneGood(base.pools + Given(info.pools, n), PoolKey, PoolSorted)
    && DistinctKeys(base.packages, PackageKey)
    && LoneGood(base.packages + Given(info.packages, n), PackageKey, PackageSorted)
    && LoneGood(Given(info.siblings, n), SiblingKey, SiblingSorted)
  }

  lemma PayloadCanonicalIff(info: ZoneInfo, n: Key)
    ensures CanonicalPayload(PayloadOf(info, n)) <==> GivenCanonical(info, n)
  {
    var base, payload := BaseOf(info, n), PayloadOf(info, n);
    assert payload.resources.pools == MergedPools(base.pools, Given(info.pools, n));
    assert payload.resources.packages == MergedPackages(base.packages, Given(info.packages, n));
    assert payload.siblings == MergedSiblings([], Given(info.siblings, n)) by { NoSiblings(); }
    ReportedListsCanonical(info, n);
    PoolsCanonicalIff(base.pools, Given(info.pools, n));
    PackagesCanonicalIff(base.packages, Given(info.packages, n));
    SiblingsCanonicalIff(Given(info.siblings, n));
  }

  lemma NoSiblings()
    ensures MergedSiblings([], []) == []
  {
    assert MergedMap([], [], SiblingKey, AnySibling, CombinedSibling) == map[];
  }

  /** Every node below an object was given canonical lists. */
  ghost predicate AllGivenCanonical(g: Generator, top: ZoneTopology, info: ZoneInfo)
    requires g.Built() && top in g.objects
    reads g, g.root, g.objects
  {
    forall path | Leads(g, top, path) :: GivenCanonical(info, path[|path| - 1])
  }

  lemma AllGivenStep(g: Generator, top: ZoneTopology, info: ZoneInfo)
    requires g.Built() && top in g.objects
    ensures g.HangsBelow(top)
    ensures AllGivenCanonical(g, top, info) <==>
            forall n <- top.children :: GivenCanonical(info, n) && AllGivenCanonical(g, top.children[n], info)
  {
    hide GivenCanonical;
    assert g.HangsBelow(top);
    if AllGivenCanonical(g, top, info) {
      forall n <- top.children ensures GivenCanonical(info, n) && AllGivenCanonical(g, top.children[n], info) {
        assert Leads(g, top, [n]);
        forall path | Leads(g, top.children[n], path) ensures GivenCanonical(info, path[|path| - 1]) {
          assert ([n] + path)[1..] == path && Leads(g, top, [n] + path);
        }
      }
    }
    if forall n <- top.children :: GivenCanonical(info, n) && AllGivenCanonical(g, top.children[n], info) {
      forall path | Leads(g, top, path) ensures GivenCanonical(info, path[|path| - 1]) {
        if |path| > 1 { assert Leads(g, top.children[path[0]], path[1..]); }
      }
    }
  }

  lemma CanonicalLevel(m: map<Key, Zone>)
    requires KeyedBy(m, ZoneKey) && forall n <- m :: LiveZone(m[n])
    ensures CanonicalForest(ToList(m)) <==> forall n <- m :: CanonicalZone(m[n])
  {
    ToListEntries(m, ZoneKey);
    assert forall n <- m :: m[n] in ToList(m);
  }

  /** The status is in the form the merge laws ask for exactly if every reported node's lists are. */
  lemma {:induction false} StatusCanonicalIff(g: Generator, top: ZoneTopology, info: ZoneInfo)
    requires g.Built() && top in g.objects
    ensures CanonicalForest(StatusOf(g, top, info)) <==> AllGivenCanonical(g, top, info)
    decreases g.clock - top.born
  {
    hide PayloadOf, GivenCanonical, AllGivenCanonical, CanonicalPayload;
    AllGivenStep(g, top, info);
    var m := StatusMap(g, top, info);
    CanonicalLevel(m);
    forall n <- top.children
      ensures CanonicalZone(m[n]) <==> GivenCanonical(info, n) && AllGivenCanonical(g, top.children[n], info)
    {
      PayloadCanonicalIff(info, n);
      StatusCanonicalIff(g, top.children[n], info);
    }
  }

  lemma DoubledReported(g: Generator, c: Key, b: Key)
    requires g.Built() && g.Doubled(c, b)
    ensures Leads(g, g.root, [b]) && Leads(g, g.root, [c, b])
  {
    assert g.HangsBelow(g.root);
    assert [c, b][1..] == [b];
  }

  /** The status of any tree that was built: sorted at every level, with exactly the paths through the
      objects, each carrying its node's information. In a valid tree these are the chains of parents
      from a root; a node that hangs at two places is reported at both. The status is ready to be merged
      exactly if every reported node's lists were given in order. */
  method GenerateTopologyZoneStatus(g: Generator, info: ZoneInfo) returns (zones: seq<Zone>)
    requires g.Built()
    ensures SortedForest(zones)
    ensures forall path | path != [] ::
              At(zones, path) == if Leads(g, g.root, path) then Some(PayloadOf(info, path[|path| - 1])) else None
    ensures g.Valid() ==> forall path :: Leads(g, g.root, path) <==> Chain(g.parents, None, path)
    ensures forall c, b :: g.Doubled(c, b) ==> Leads(g, g.root, [b]) && Leads(g, g.root, [c, b])
    ensures CanonicalForest(zones) <==> AllGivenCanonical(g, g.root, info)
  {
    hide PayloadOf, StatusOf, SortedForest, AllGivenCanonical;
    zones := GenerateUnder(g, g.root, info);
    StatusCanonicalIff(g, g.root, info);
    StatusSorted(g, g.root, info);
    forall path | path != []
      ensures At(zones, path) == if Leads(g, g.root, path) then Some(PayloadOf(info, path[|path| - 1])) else None
    {
      StatusPaths(g, g.root, info, path);
    }
    forall path | g.Valid() ensures Leads(g, g.root, path) <==> Chain(g.parents, None, path) {
      LeadsIffChain(g, g.root, None, path);
    }
    forall c, b | g.Doubled(c, b) ensures Leads(g, g.root, [b]) && Leads(g, g.root, [c, b]) {
      DoubledReported(g, c, b);
    }
  }
}
