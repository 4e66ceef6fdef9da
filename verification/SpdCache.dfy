/** The service profiles a CNC caches for its node (pkg/controller/spd/cnc.go, lines 190-253 and
    425-463, and pkg/util/cnc.go): after a sync the list holds every live profile with its current
    hash, whatever order the profiles are visited in. */
module SpdCache {
  import opened Keys
  import opened Sorting
  import opened KeyedLists
  import opened Cnc

  /** Profiles are identified by namespace and name; the type field stays empty. */
  function IdKey(c: TargetConfig): Key {
    c.id
  }

  type Profiles = map<Key, TargetConfig>

  /** The entries of one profile after it was applied: the first is the new one. */
  function Refreshed(entries: seq<TargetConfig>, c: TargetConfig): seq<TargetConfig> {
    if entries == [] then [c] else [c] + entries[1..]
  }

  ghost predicate AppliedTo(configs: seq<TargetConfig>, c: TargetConfig, result: seq<TargetConfig>) {
    forall k :: PerKey(result, IdKey, k) ==
                if k == c.id then Refreshed(PerKey(configs, IdKey, k), c) else PerKey(configs, IdKey, k)
  }

  /** Replace the first entry of the profile, or append one. */
  method ApplySPDTargetConfig(configs: seq<TargetConfig>, c: TargetConfig) returns (result: seq<TargetConfig>)
    ensures DistinctKeys(result, IdKey) <==> DistinctKeys(configs, IdKey)
    ensures DistinctKeys(configs, IdKey) ==> ToMap(result, IdKey) == ToMap(configs, IdKey)[c.id := c]
    ensures AppliedTo(configs, c, result)
  {
    var idx := 0;
    while idx < |configs| && configs[idx].id != c.id
      invariant 0 <= idx <= |configs|
      invariant forall i :: 0 <= i < idx ==> configs[i].id != c.id
    {
      idx := idx + 1;
    }
    if idx < |configs| {
      result := configs[idx := c];
      SameKeys(configs, result);
      ReplacedPerKey(configs, idx, c);
      if DistinctKeys(configs, IdKey) { Replaced(configs, idx, c); }
    } else {
      result := configs + [c];
      Appended(configs, c);
      AppendedPerKey(configs, c);
    }
  }

  lemma NoneWithKey(configs: seq<TargetConfig>, k: Key)
    requires forall i :: 0 <= i < |configs| ==> configs[i].id != k
    ensures PerKey(configs, IdKey, k) == []
  {
    forall i | 0 <= i < |configs| ensures !WithKey(IdKey, k)(configs[i]) { WithKeyMeaning(IdKey, k, configs[i]); }
    FilterNone(configs, WithKey(IdKey, k));
  }

  lemma FilterSingle<T>(x: T, keep: T -> bool)
    ensures Filter([x], keep) == if keep(x) then [x] else []
  {
    assert [x][..0] == [];
  }

  /** The entries of a key around one position. */
  lemma PerKeyAround(before: seq<TargetConfig>, c: TargetConfig, behind: seq<TargetConfig>, k: Key)
    ensures PerKey(before + ([c] + behind), IdKey, k) ==
            PerKey(before, IdKey, k) + ((if c.id == k then [c] else []) + PerKey(behind, IdKey, k))
  {
    var keep := WithKey(IdKey, k);
    FilterConcat(before, [c] + behind, keep);
    FilterConcat([c], behind, keep);
    FilterSingle(c, keep);
    WithKeyMeaning(IdKey, k, c);
  }

  lemma ReplacedPerKey(configs: seq<TargetConfig>, idx: nat, c: TargetConfig)
    requires idx < |configs| && configs[idx].id == c.id && forall i :: 0 <= i < idx ==> configs[i].id != c.id
    ensures AppliedTo(configs, c, configs[idx := c])
  {
    var before, behind := configs[..idx], configs[idx + 1..];
    assert configs == before + ([configs[idx]] + behind) && configs[idx := c] == before + ([c] + behind);
    NoneWithKey(before, c.id);
    forall k ensures PerKey(configs[idx := c], IdKey, k) ==
                     if k == c.id then Refreshed(PerKey(configs, IdKey, k), c) else PerKey(configs, IdKey, k)
    {
      hide PerKey;
      PerKeyAround(before, configs[idx], behind, k);
      PerKeyAround(before, c, behind, k);
      var entries, tail := PerKey(before, IdKey, k), PerKey(behind, IdKey, k);
      if k == c.id {
        assert entries + ([configs[idx]] + tail) == [configs[idx]] + tail && entries + ([c] + tail) == [c] + tail;
      } else {
        assert [] + tail == tail;
      }
    }
  }

  lemma AppendedPerKey(configs: seq<TargetConfig>, c: TargetConfig)
    requires forall i :: 0 <= i < |configs| ==> configs[i].id != c.id
    ensures AppliedTo(configs, c, configs + [c])
  {
    NoneWithKey(configs, c.id);
    assert [c] + [] == [c];
    forall k ensures PerKey(configs + [c], IdKey, k) ==
                     if k == c.id then Refreshed(PerKey(configs, IdKey, k), c) else PerKey(configs, IdKey, k)
    {
      PerKeyAround(configs, c, [], k);
    }
  }

  lemma SameKeys(xs: seq<TargetConfig>, ys: seq<TargetConfig>)
    requires |xs| == |ys| && forall i :: 0 <= i < |xs| ==> xs[i].id == ys[i].id
    ensures DistinctKeys(xs, IdKey) <==> DistinctKeys(ys, IdKey)
  {
  }

  lemma {:induction false} Replaced(configs: seq<TargetConfig>, idx: nat, c: TargetConfig)
    requires idx < |configs| && configs[idx].id == c.id && DistinctKeys(configs, IdKey)
    ensures ToMap(configs[idx := c], IdKey) == ToMap(configs, IdKey)[c.id := c]
  {
    var init, last := configs[..|configs| - 1], configs[|configs| - 1];
    if idx == |init| {
      assert configs[idx := c][..|init|] == init;
    } else {
      assert configs[idx := c][..|init|] == init[idx := c];
      Replaced(init, idx, c);
      assert IdKey(configs[idx]) != IdKey(last);
    }
  }

  lemma Appended(configs: seq<TargetConfig>, c: TargetConfig)
    requires forall i :: 0 <= i < |configs| ==> configs[i].id != c.id
    ensures DistinctKeys(configs + [c], IdKey) <==> DistinctKeys(configs, IdKey)
    ensures ToMap(configs + [c], IdKey) == ToMap(configs, IdKey)[c.id := c]
  {
    assert (configs + [c])[..|configs|] == configs;
    forall i, j | DistinctKeys(configs + [c], IdKey) && 0 <= i < j < |configs| ensures configs[i].id != configs[j].id {
      assert (configs + [c])[i] == configs[i] && (configs + [c])[j] == configs[j];
    }
  }

  /** What a sync makes of a list with distinct keys. */
  function Synced(configs: seq<TargetConfig>, live: Profiles): seq<TargetConfig> {
    ToList(ToMap(configs, IdKey) + live)
  }

  /** The entries of each profile after the profiles in `live` were applied. */
  function Wanted(configs: seq<TargetConfig>, live: Profiles, k: Key): seq<TargetConfig> {
    if k in live then Refreshed(PerKey(configs, IdKey, k), live[k]) else PerKey(configs, IdKey, k)
  }

  ghost predicate AllWanted(configs: seq<TargetConfig>, live: Profiles, list: seq<TargetConfig>) {
    forall k :: PerKey(list, IdKey, k) == Wanted(configs, live, k)
  }

  lemma WantedStep(configs: seq<TargetConfig>, seen: Profiles, c: TargetConfig, list: seq<TargetConfig>,
                   next: seq<TargetConfig>)
    requires AllWanted(configs, seen, list) && AppliedTo(list, c, next) && c.id !in seen
    ensures AllWanted(configs, seen[c.id := c], next)
  {
    hide PerKey;
  }

  /** What a sync makes of any list: sorted, live profiles current in their first entries, the other
      entries kept in their order. */
  ghost predicate IsSynced(configs: seq<TargetConfig>, live: Profiles, result: seq<TargetConfig>) {
    WeaklySorted(result, IdKey) && AllWanted(configs, live, result)
  }

  method ApplyAll(configs: seq<TargetConfig>, live: Profiles) returns (list: seq<TargetConfig>)
    requires KeyedBy(live, IdKey)
    ensures DistinctKeys(list, IdKey) <==> DistinctKeys(configs, IdKey)
    ensures DistinctKeys(configs, IdKey) ==> ToMap(list, IdKey) == ToMap(configs, IdKey) + live
    ensures AllWanted(configs, live, list)
  {
    list := configs;
    var todo := live.Keys;
    assert ToMap(list, IdKey) == ToMap(configs, IdKey) + (live - live.Keys);
    assert AllWanted(configs, live - live.Keys, list);
    hide DistinctKeys, ToMap, AllWanted, AppliedTo, PerKey, Wanted;
    while todo != {}
      invariant todo <= live.Keys
      invariant AllWanted(configs, live - todo, list)
      invariant DistinctKeys(list, IdKey) <==> DistinctKeys(configs, IdKey)
      invariant DistinctKeys(configs, IdKey) ==> ToMap(list, IdKey) == ToMap(configs, IdKey) + (live - todo)
    {
      var k :| k in todo;
      ghost var seen := live - todo;
      todo := todo - {k};
      assert live - todo == seen[k := live[k]] && live[k].id == k;
      assert (ToMap(configs, IdKey) + seen)[k := live[k]] == ToMap(configs, IdKey) + seen[k := live[k]];
      ghost var before := list;
      list := ApplySPDTargetConfig(list, live[k]);
      WantedStep(configs, seen, live[k], before, list);
    }
    assert live - {} == live;
  }

  /** Apply every live profile, in any order, and sort; `patched` says whether anything changed. */
  method SyncCNC(configs: seq<TargetConfig>, live: Profiles) returns (result: seq<TargetConfig>, patched: bool)
    requires KeyedBy(live, IdKey)
    ensures DistinctKeys(result, IdKey) <==> DistinctKeys(configs, IdKey)
    ensures DistinctKeys(configs, IdKey) ==> result == Synced(configs, live)
    ensures IsSynced(configs, live, result)
    ensures patched <==> result != configs
  {
    var list := ApplyAll(configs, live);
    result := SortByKey(list, IdKey);
    forall k ensures PerKey(result, IdKey, k) == PerKey(list, IdKey, k) { SortPerKey(list, IdKey, k); }
    hide DistinctKeys, ToMap, ToList, WeaklySorted, SortByKey, PerKey, Wanted;
    if DistinctKeys(configs, IdKey) {
      SortedForm(list, result, IdKey);
      DistinctKeysPermute(list, result, IdKey);
    } else if DistinctKeys(result, IdKey) {
      DistinctKeysPermute(result, list, IdKey);
    }
    patched := result != configs;
  }

  /** Keep the live profiles only, or none when the cache is disabled; without an answer about the live
      profiles nothing is removed. */
  method ClearUnusedConfig(configs: seq<TargetConfig>, live: Option<Profiles>, enabled: bool)
    returns (result: seq<TargetConfig>)
    ensures result == if !enabled then [] else if live.None? then configs else Filter(configs, InUse(live.value))
  {
    var profiles: Profiles := map[];
    if enabled {
      if live.None? { return configs; }
      profiles := live.value;
    }
    result := RemoveUnusedTargetConfig(configs, Unused(profiles));
    SameFilter(configs, (c: TargetConfig) => !Unused(profiles)(c), InUse(profiles));
    FilterNone(configs, InUse(map[]));
  }

  function Unused(live: Profiles): TargetConfig -> bool {
    (c: TargetConfig) => c.id !in live
  }

  function InUse(live: Profiles): TargetConfig -> bool {
    (c: TargetConfig) => c.id in live
  }

  /** A synced list is sorted without repetitions, holds every live profile with its current hash,
      and keeps the other entries. */
  lemma SyncedMeaning(configs: seq<TargetConfig>, live: Profiles)
    requires DistinctKeys(configs, IdKey) && KeyedBy(live, IdKey)
    ensures Sorted(Synced(configs, live), IdKey)
    ensures forall c :: c in Synced(configs, live) <==> if c.id in live then c == live[c.id] else c in configs
  {
    var m := ToMap(configs, IdKey);
    ToMapEntries(configs, IdKey);
    ToMapLookup(configs, IdKey);
    ToListEntries(m + live, IdKey);
    forall c ensures c in Synced(configs, live) <==> if c.id in live then c == live[c.id] else c in configs {
      assert IdKey(c) == c.id;
    }
  }

  /** A second sync changes nothing. */
  lemma SyncIdempotent(configs: seq<TargetConfig>, live: Profiles)
    requires DistinctKeys(configs, IdKey) && KeyedBy(live, IdKey)
    ensures Synced(Synced(configs, live), live) == Synced(configs, live)
  {
    hide ToMap, ToList;
    ToMapEntries(configs, IdKey);
    var m := ToMap(configs, IdKey) + live;
    assert KeyedBy(m, IdKey) && m + live == m;
    MapListMap(m, IdKey);
  }

  /** Sync and clear leave exactly the live profiles with their current hashes. */
  lemma SyncThenClear(configs: seq<TargetConfig>, live: Profiles)
    requires DistinctKeys(configs, IdKey) && KeyedBy(live, IdKey)
    ensures Filter(Synced(configs, live), InUse(live)) == ToList(live)
  {
    var synced := Synced(configs, live);
    var cleared := Filter(synced, InUse(live));
    SyncedMeaning(configs, live);
    FilterEntries(synced, InUse(live));
    FilterSorted(synced, InUse(live));
    ToListEntries(live, IdKey);
    forall c ensures c in cleared <==> c in ToList(live) {
      assert IdKey(c) == c.id;
    }
    SortedUnique(cleared, ToList(live), IdKey);
  }

  lemma FilterSorted(xs: seq<TargetConfig>, keep: TargetConfig -> bool)
    requires Sorted(xs, IdKey)
    ensures Sorted(Filter(xs, keep), IdKey)
  {
    var pos := FilterPositions(xs, keep);
  }

  /** Whatever the list and the order of the profiles, a sync has one result. */
  lemma SyncDetermined(configs: seq<TargetConfig>, live: Profiles, a: seq<TargetConfig>, b: seq<TargetConfig>)
    requires IsSynced(configs, live, a) && IsSynced(configs, live, b)
    ensures a == b
  {
    PerKeyDetermines(a, b, IdKey);
  }

  /** A second sync of any list changes nothing. */
  lemma SecondSyncIdle(configs: seq<TargetConfig>, live: Profiles, once: seq<TargetConfig>, twice: seq<TargetConfig>)
    requires IsSynced(configs, live, once) && IsSynced(once, live, twice)
    ensures twice == once
  {
    forall k ensures Wanted(once, live, k) == PerKey(once, IdKey, k) {}
    PerKeyDetermines(once, twice, IdKey);
  }
}
