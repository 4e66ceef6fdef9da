/** Laws of the zone forest merge (pkg/util/cnr.go, lines 400-462) on forests that are sorted and
    key-unique at every level. `TopologyStatus.StatusCanonicalIff` says when a reported status is one. */
module ZoneLaws {
  import opened Keys
  import opened Sorting
  import opened KeyedLists
  import opened KeyedMerge
  import opened ZonePayload
  import opened PayloadLaws
  import opened ZoneMerge

  /** One level of a forest: sorted, no node twice, no nil pointers. */
  ghost predicate SortedLevel(f: seq<Zone>) {
    Canonical(f, ZoneKey, LiveZone)
  }

  /** Sorted and key-unique at every level, payloads included. */
  ghost predicate CanonicalForest(f: seq<Zone>) {
    SortedLevel(f) && forall z <- f :: CanonicalZone(z)
  }

  ghost predicate CanonicalZone(z: Zone) {
    z.Zone? && CanonicalPayload(z.payload) && CanonicalForest(z.children)
  }

  // ---------------------------------------------------------------- one level

  /** The zone merge as a total combination, so that the laws of keyed merges apply. */
  function CombinedZone(d: Zone, s: Zone): Zone {
    if LiveZone(d) && LiveZone(s) then MergedZone(d, s) else d
  }

  lemma CombinedZoneKeeps()
    ensures KeepsKey(ZoneKey, CombinedZone) && KeepsLive(LiveZone, CombinedZone)
  {
  }

  lemma {:induction false} FoldZonesIsFold(m: map<Key, Zone>, src: seq<Zone>)
    requires forall k <- m :: LiveZone(m[k])
    ensures FoldZones(m, src) == FoldInto(m, Filter(src, LiveZone), ZoneKey, CombinedZone)
  {
    if src == [] {
    } else {
      var init := src[..|src| - 1];
      FoldZonesIsFold(m, init);
      FoldStep(m, src, |src| - 1, ZoneKey, LiveZone, CombinedZone);
      assert src[..|src| - 1 + 1] == src;
    }
  }

  lemma MergedZonesIsMerge(d: seq<Zone>, s: seq<Zone>)
    ensures MergedZones(d, s) == MergeSorted(d, s, ZoneKey, LiveZone, CombinedZone)
  {
    LiveEntries(d);
    FoldZonesIsFold(ToMap(Filter(d, LiveZone), ZoneKey), s);
  }

  /** The level as a map from node to zone. */
  ghost function Level(f: seq<Zone>): map<Key, Zone> {
    ToMap(f, ZoneKey)
  }

  lemma LevelMeaning(f: seq<Zone>)
    requires SortedLevel(f)
    ensures forall k <- Level(f) :: Level(f)[k] in f && ZoneKey(Level(f)[k]) == k
    ensures forall z <- f :: ZoneKey(z) in Level(f) && Level(f)[ZoneKey(z)] == z
    ensures ToList(Level(f)) == f
  {
    SortedDistinct(f, ZoneKey);
    ToMapEntries(f, ZoneKey);
    ToMapLookup(f, ZoneKey);
    ListMapList(f, ZoneKey);
  }

  lemma ZonesOf(f: seq<Zone>, k: Key)
    requires CanonicalForest(f) && k in Level(f)
    ensures Level(f)[k] in f && CanonicalZone(Level(f)[k])
  {
    LevelMeaning(f);
  }

  /** Level by level, a merge is the union of the two levels. */
  lemma MergedLevel(d: seq<Zone>, s: seq<Zone>)
    requires SortedLevel(d) && SortedLevel(s)
    ensures SortedLevel(MergedZones(d, s))
    ensures Level(MergedZones(d, s)) == Union(Level(d), Level(s), CombinedZone)
  {
    CombinedZoneKeeps();
    MergedZonesIsMerge(d, s);
    MergeIsUnion(d, s, ZoneKey, LiveZone, CombinedZone);
    MergeLive(d, s, ZoneKey, LiveZone, CombinedZone);
  }

  // ---------------------------------------------------------------- canonical form and idempotence

  /** Merging canonical forests gives a canonical forest. */
  lemma {:induction false} MergedCanonical(d: seq<Zone>, s: seq<Zone>)
    requires CanonicalForest(d) && CanonicalForest(s)
    ensures CanonicalForest(MergedZones(d, s))
    decreases d
  {
    CombinedZoneKeeps();
    MergedLevel(d, s);
    MergedZonesIsMerge(d, s);
    MergeEntries(d, s, ZoneKey, LiveZone, CombinedZone);
    forall z <- MergedZones(d, s) ensures CanonicalZone(z) {
      assert FromMerge(z, d, s, ZoneKey, CombinedZone);
      if z !in d && z !in s {
        var x, y :| x in d && y in s && z == CombinedZone(x, y);
        assert CanonicalZone(x) && CanonicalZone(y);
        PayloadCanonical(x.payload, y.payload);
        MergedCanonical(x.children, y.children);
      }
    }
  }

  /** Merging a forest with itself changes nothing. */
  lemma {:induction false} MergedIdempotent(f: seq<Zone>)
    requires CanonicalForest(f)
    ensures MergedZones(f, f) == f
    decreases f
  {
    forall z <- f ensures CombinedZone(z, z) == z {
      assert CanonicalZone(z);
      PayloadCanonical(z.payload, z.payload);
      MergedIdempotent(z.children);
    }
    CombinedZoneKeeps();
    MergedZonesIsMerge(f, f);
    MergeIdempotent(f, ZoneKey, LiveZone, CombinedZone);
  }

  // ---------------------------------------------------------------- associativity

  /** Merging three forests gives one result, however the merges are nested. */
  lemma {:induction false} MergedAssociative(a: seq<Zone>, b: seq<Zone>, c: seq<Zone>)
    requires CanonicalForest(a) && CanonicalForest(b) && CanonicalForest(c)
    ensures MergedZones(MergedZones(a, b), c) == MergedZones(a, MergedZones(b, c))
    decreases a
  {
    assert Associates(Level(a), Level(b), Level(c), CombinedZone) by {
      forall k | k in Level(a) && k in Level(b) && k in Level(c)
        ensures CombinedZone(CombinedZone(Level(a)[k], Level(b)[k]), Level(c)[k]) ==
                CombinedZone(Level(a)[k], CombinedZone(Level(b)[k], Level(c)[k]))
      {
        ZonesOf(a, k);
        ZonesOf(b, k);
        ZonesOf(c, k);
        PayloadAssociative(Level(a)[k].payload, Level(b)[k].payload, Level(c)[k].payload);
        MergedAssociative(Level(a)[k].children, Level(b)[k].children, Level(c)[k].children);
      }
    }
    CombinedZoneKeeps();
    MergedZonesIsMerge(a, b);
    MergedZonesIsMerge(b, c);
    MergedZonesIsMerge(MergedZones(a, b), c);
    MergedZonesIsMerge(a, MergedZones(b, c));
    MergeAssociative(a, b, c, ZoneKey, LiveZone, CombinedZone);
  }

  /** The zones of a level come by type and, within a type, by name. */
  lemma LevelOrder(d: seq<Zone>, s: seq<Zone>)
    requires CanonicalForest(d) && CanonicalForest(s)
    ensures
      var r := MergedZones(d, s);
      forall i, j :: 0 <= i < j < |r| ==>
        && r[i].Zone? && r[j].Zone?
        && (|| StrLess(r[i].node.group, r[j].node.group)
            || (r[i].node.group == r[j].node.group && StrLess(r[i].node.name, r[j].node.name)))
  {
    MergedCanonical(d, s);
    var r := MergedZones(d, s);
    forall i, j | 0 <= i < j < |r|
      ensures
        && r[i].Zone? && r[j].Zone?
        && (|| StrLess(r[i].node.group, r[j].node.group)
            || (r[i].node.group == r[j].node.group && StrLess(r[i].node.name, r[j].node.name)))
    {
      assert r[i] in r && r[j] in r && Less(ZoneKey(r[i]), ZoneKey(r[j]));
      LessMeaning(ZoneKey(r[i]), ZoneKey(r[j]));
    }
  }

  // ---------------------------------------------------------------- paths

  /** What a forest says about the zone at the end of a path, if it has that path. */
  ghost function At(f: seq<Zone>, path: seq<Key>): Option<Payload>
    requires path != []
    decreases |path|
  {
    var z := ZoneAt(f, path[0]);
    if z.None? then None
    else if |path| == 1 then Some(z.value.payload)
    else At(z.value.children, path[1..])
  }

  ghost function MergedAt(d: Option<Payload>, s: Option<Payload>): Option<Payload> {
    if d.Some? && s.Some? then Some(MergedPayload(d.value, s.value)) else if d.Some? then d else s
  }

  /** The zone a level has for a node. */
  ghost function ZoneAt(f: seq<Zone>, k: Key): Option<Zone> {
    if k in Level(f) && LiveZone(Level(f)[k]) then Some(Level(f)[k]) else None
  }

  lemma MergedZoneAt(d: seq<Zone>, s: seq<Zone>, k: Key)
    requires CanonicalForest(d) && CanonicalForest(s)
    ensures
      var x, y, r := ZoneAt(d, k), ZoneAt(s, k), ZoneAt(MergedZones(d, s), k);
      && (x.Some? && y.Some? ==> r == Some(MergedZone(x.value, y.value)))
      && (x.Some? && y.None? ==> r == x)
      && (x.None? ==> r == y)
  {
    MergedLevel(d, s);
    if k in Level(d) { ZonesOf(d, k); }
    if k in Level(s) { ZonesOf(s, k); }
  }

  /** The merged forest has exactly the paths of the two forests, and every path carries the
      left-biased union of what the forests say about it. */
  lemma {:induction false} MergedPaths(d: seq<Zone>, s: seq<Zone>, path: seq<Key>)
    requires CanonicalForest(d) && CanonicalForest(s) && path != []
    ensures At(MergedZones(d, s), path) == MergedAt(At(d, path), At(s, path))
    decreases |path|
  {
    var x, y := ZoneAt(d, path[0]), ZoneAt(s, path[0]);
    MergedZoneAt(d, s, path[0]);
    if x.Some? && y.Some? && |path| > 1 {
      ZonesOf(d, path[0]);
      ZonesOf(s, path[0]);
      MergedPaths(x.value.children, y.value.children, path[1..]);
    }
  }

  ghost predicate SamePaths(a: seq<Zone>, b: seq<Zone>) {
    forall path | path != [] :: At(a, path) == At(b, path)
  }

  lemma SameNodesAt(a: seq<Zone>, b: seq<Zone>, k: Key)
    requires CanonicalForest(a) && CanonicalForest(b) && SamePaths(a, b)
    ensures k in Level(a) <==> k in Level(b)
    ensures k in Level(a) ==> Level(a)[k].Zone? && Level(b)[k].Zone? && Level(a)[k].payload == Level(b)[k].payload
  {
    if k in Level(a) { ZonesOf(a, k); }
    if k in Level(b) { ZonesOf(b, k); }
    assert At(a, [k]) == At(b, [k]);
  }

  lemma SamePathsBelow(a: seq<Zone>, b: seq<Zone>, k: Key)
    requires SamePaths(a, b) && k in Level(a) && k in Level(b) && Level(a)[k].Zone? && Level(b)[k].Zone?
    ensures SamePaths(Level(a)[k].children, Level(b)[k].children)
  {
    forall path | path != [] ensures At(Level(a)[k].children, path) == At(Level(b)[k].children, path) {
      assert ([k] + path)[1..] == path;
      assert At(a, [k] + path) == At(b, [k] + path);
    }
  }

  /** Two canonical forests that agree on every path are equal, so the paths say it all. */
  lemma {:induction false} PathsDetermine(a: seq<Zone>, b: seq<Zone>)
    requires CanonicalForest(a) && CanonicalForest(b) && SamePaths(a, b)
    ensures a == b
    decreases a
  {
    LevelMeaning(a);
    LevelMeaning(b);
    forall k ensures k in Level(a) <==> k in Level(b) { SameNodesAt(a, b, k); }
    forall k | k in Level(a) ensures Level(a)[k] == Level(b)[k] {
      ZonesOf(a, k);
      ZonesOf(b, k);
      SameNodesAt(a, b, k);
      SamePathsBelow(a, b, k);
      PathsDetermine(Level(a)[k].children, Level(b)[k].children);
    }
    assert Level(a) == Level(b);
  }
}
