/** The recursive merge of topology zone forests (pkg/util/cnr.go, lines 400-462). */
module ZoneMerge {
  import opened Keys
  import opened Sorting
  import opened KeyedLists
  import opened KeyedMerge
  import opened ZonePayload

  /** Zones form forests through nil-able pointers; a zone is identified by type and name. */
  datatype Zone = NilZone | Zone(node: Key, payload: Payload, children: seq<Zone>)

  function ZoneKey(z: Zone): Key {
    if z.NilZone? then Key("", "") else z.node
  }

  predicate LiveZone(z: Zone) {
    z.Zone?
  }

  /** Fold the live zones of a list into a map: new nodes are copied, known nodes are merged. */
  function FoldZones(m: map<Key, Zone>, src: seq<Zone>): map<Key, Zone>
    requires forall k <- m :: LiveZone(m[k])
    ensures forall k <- FoldZones(m, src) :: LiveZone(FoldZones(m, src)[k])
    decreases src, 0
  {
    if src == [] then m
    else
      var prev, z := FoldZones(m, src[..|src| - 1]), src[|src| - 1];
      if z.NilZone? then prev
      else prev[z.node := if z.node in prev then MergedZone(prev[z.node], z) else z]
  }

  function MergedZone(d: Zone, s: Zone): (z: Zone)
    requires LiveZone(d) && LiveZone(s)
    ensures LiveZone(z) && z.node == d.node
    decreases s, 2
  {
    d.(payload := MergedPayload(d.payload, s.payload), children := MergedZones(d.children, s.children))
  }

  function MergedZones(dst: seq<Zone>, src: seq<Zone>): seq<Zone>
    decreases src, 1
  {
    LiveEntries(dst);
    ToList(FoldZones(ToMap(Filter(dst, LiveZone), ZoneKey), src))
  }

  lemma LiveEntries(xs: seq<Zone>)
    ensures forall k <- ToMap(Filter(xs, LiveZone), ZoneKey) :: LiveZone(ToMap(Filter(xs, LiveZone), ZoneKey)[k])
  {
    FilterEntries(xs, LiveZone);
    ToMapEntries(Filter(xs, LiveZone), ZoneKey);
  }

  lemma {:induction false} FoldZonesKeyed(m: map<Key, Zone>, src: seq<Zone>)
    requires forall k <- m :: LiveZone(m[k])
    requires KeyedBy(m, ZoneKey)
    ensures KeyedBy(FoldZones(m, src), ZoneKey)
  {
    if src == [] {
    } else {
      FoldZonesKeyed(m, src[..|src| - 1]);
    }
  }

  method MergeTopologyZone(dst: seq<Zone>, src: seq<Zone>) returns (zones: seq<Zone>)
    ensures zones == MergedZones(dst, src)
    decreases src
  {
    var zoneMap: map<Key, Zone> := map[];
    for i := 0 to |dst|
      invariant zoneMap == ToMap(Filter(dst[..i], LiveZone), ZoneKey)
    {
      FillStep(dst, i, ZoneKey, LiveZone);
      if dst[i].NilZone? { continue; }
      zoneMap := zoneMap[dst[i].node := dst[i]];
    }
    assert dst[..|dst|] == dst;
    LiveEntries(dst);
    ghost var start := zoneMap;
    for i := 0 to |src|
      invariant zoneMap == FoldZones(start, src[..i])
    {
      var zone := src[i];
      assert src[..i + 1][..i] == src[..i];
      if zone.NilZone? { continue; }
      if zone.node !in zoneMap {
        zoneMap := zoneMap[zone.node := zone];
        continue;
      }
      var merged := MergeZoneInto(zoneMap[zone.node], zone);
      zoneMap := zoneMap[zone.node := merged];
    }
    assert src[..|src|] == src;
    ToMapEntries(Filter(dst, LiveZone), ZoneKey);
    FoldZonesKeyed(start, src);
    zones := ListOfMap(zoneMap, ZoneKey);
  }

  method MergeZoneInto(d: Zone, s: Zone) returns (z: Zone)
    requires LiveZone(d) && LiveZone(s)
    ensures z == MergedZone(d, s)
    decreases s, 1
  {
    var resources := MergeResources(d.payload.resources, s.payload.resources);
    var attributes := MergeAttributes(d.payload.attributes, s.payload.attributes);
    var allocations := MergeAllocations(d.payload.allocations, s.payload.allocations);
    var siblings := MergeSiblings(d.payload.siblings, s.payload.siblings);
    var children := MergeTopologyZone(d.children, s.children);
    z := Zone(d.node, Payload(resources, attributes, allocations, siblings), children);
  }
}
