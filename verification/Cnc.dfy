/** The configuration list a CNC (custom node config) keeps for one node: which target, with which
    content hash, is applied for each configuration type (pkg/controller/kcc/util/kcct.go, lines
    39-93, and pkg/util/cnc.go). */
module Cnc {
  import opened Keys
  import opened Sorting
  import opened KeyedLists
  import opened Selectors

  datatype TargetConfig = TargetConfig(configType: string, id: Key, hash: string)

  datatype CNC = CNC(id: Key, labels: Labels, deleting: bool, configs: seq<TargetConfig>)

  function TypeKey(c: TargetConfig): Key {
    Key("", c.configType)
  }

  predicate HasConfig(cnc: CNC, c: TargetConfig) {
    c in cnc.configs
  }

  method IsCNCUpdated(cnc: CNC, gvr: string, id: Key, hash: string) returns (updated: bool)
    ensures updated <==> TargetConfig(gvr, id, hash) in cnc.configs
  {
    for i := 0 to |cnc.configs|
      invariant TargetConfig(gvr, id, hash) !in cnc.configs[..i]
    {
      var c := cnc.configs[i];
      if c.configType == gvr && c.id == id && c.hash == hash { return true; }
    }
    return false;
  }

  /** The position of the first entry of a type, or the length of the list. */
  function FirstOfType(configs: seq<TargetConfig>, gvr: string): (idx: nat)
    ensures idx <= |configs|
    ensures idx < |configs| ==> configs[idx].configType == gvr
    ensures forall i :: 0 <= i < idx ==> configs[i].configType != gvr
  {
    if configs == [] then 0
    else if configs[0].configType == gvr then 0
    else
      var rest := FirstOfType(configs[1..], gvr);
      assert forall i :: 0 < i < rest + 1 ==> configs[i] == configs[1..][i - 1];
      rest + 1
  }

  /** Replace the entry of the type, or append one and sort the list by type. */
  function Applied(cnc: CNC, c: TargetConfig): CNC {
    var idx := FirstOfType(cnc.configs, c.configType);
    if idx < |cnc.configs| then cnc.(configs := cnc.configs[idx := c])
    else cnc.(configs := SortByKey(cnc.configs + [c], TypeKey))
  }

  method ApplyKCCTargetConfigToCNC(cnc: CNC, gvr: string, id: Key, hash: string) returns (result: CNC)
    ensures result == Applied(cnc, TargetConfig(gvr, id, hash))
  {
    var idx := 0;
    while idx < |cnc.configs| && cnc.configs[idx].configType != gvr
      invariant 0 <= idx <= |cnc.configs|
      invariant forall i :: 0 <= i < idx ==> cnc.configs[i].configType != gvr
    {
      idx := idx + 1;
    }
    var configs := cnc.configs;
    if idx < |configs| {
      configs := configs[idx := TargetConfig(gvr, id, hash)];
    } else {
      configs := SortByKey(configs + [TargetConfig(gvr, id, hash)], TypeKey);
    }
    result := cnc.(configs := configs);
  }

  /** An applied configuration counts as updated, the node's identity stays, and entries of other
      types are neither lost, added nor changed. */
  lemma AppliedMeaning(cnc: CNC, c: TargetConfig)
    ensures c in Applied(cnc, c).configs
    ensures Applied(cnc, c).(configs := cnc.configs) == cnc
    ensures forall o: TargetConfig | o.configType != c.configType :: o in Applied(cnc, c).configs <==> o in cnc.configs
  {
    var idx := FirstOfType(cnc.configs, c.configType);
    var result := Applied(cnc, c).configs;
    if idx < |cnc.configs| {
      assert result[idx] == c;
      forall o: TargetConfig | o.configType != c.configType ensures o in result <==> o in cnc.configs {
        if o in cnc.configs {
          var i :| 0 <= i < |cnc.configs| && cnc.configs[i] == o;
          assert result[i] == o;
        }
      }
    } else {
      PermutationEntries(cnc.configs + [c], result);
      assert (cnc.configs + [c])[idx] == c;
    }
  }

  /** A list sorted by type without repetitions stays so, and then holds no stale entry of the type. */
  lemma AppliedKeepsOrder(cnc: CNC, c: TargetConfig)
    requires Sorted(cnc.configs, TypeKey)
    ensures Sorted(Applied(cnc, c).configs, TypeKey)
    ensures forall o <- Applied(cnc, c).configs :: o.configType == c.configType ==> o == c
  {
    LessIsTotalOrder();
    AppliedMeaning(cnc, c);
    var idx := FirstOfType(cnc.configs, c.configType);
    if idx == |cnc.configs| {
      assert DistinctKeys(cnc.configs + [c], TypeKey);
      var sorted := SortByKey(cnc.configs + [c], TypeKey);
      ToMapEntries(cnc.configs + [c], TypeKey);
      SortedForm(cnc.configs + [c], sorted, TypeKey);
      ToListEntries(ToMap(cnc.configs + [c], TypeKey), TypeKey);
    }
    SortedDistinct(Applied(cnc, c).configs, TypeKey);
  }

  /** Drop the entries for which `needToDelete` holds. */
  method RemoveUnusedTargetConfig(configs: seq<TargetConfig>, needToDelete: TargetConfig -> bool)
    returns (result: seq<TargetConfig>)
    ensures result == Filter(configs, c => !needToDelete(c))
  {
    if |configs| == 0 { return configs; }
    result := [];
    for i := 0 to |configs|
      invariant result == Filter(configs[..i], c => !needToDelete(c))
    {
      FilterStep(configs, i, c => !needToDelete(c));
      if needToDelete(configs[i]) { continue; }
      result := result + [configs[i]];
    }
    assert configs[..|configs|] == configs;
  }
}
