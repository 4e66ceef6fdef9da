/** When a reconcile goes on to touch nodes (pkg/controller/kcc/kcct.go, lines 287-427). */
module TargetSync {
  import opened Keys
  import opened Sorting
  import opened Selectors
  import opened Targets
  import opened Matching

  /** A target as listed, with the facts that take it out of the reconcile. */
  datatype Listed = Listed(target: Target, terminating: bool, created: int)

  /** The target's lifetime has run out. */
  predicate Expired(l: Listed, now: int) {
    l.target.lastDuration.Some? && l.created + l.target.lastDuration.value <= now
  }

  predicate Active(l: Listed, now: int) {
    !l.terminating && !Expired(l, now)
  }

  function ActiveTargets(list: seq<Listed>, now: int): seq<Target> {
    if list == [] then []
    else
      var l := list[|list| - 1];
      ActiveTargets(list[..|list| - 1], now) + (if Active(l, now) then [l.target] else [])
  }

  /** A listed target goes on exactly if it is not being deleted and has no duration or one that ends
      later. */
  lemma {:induction false} ActiveMeaning(list: seq<Listed>, now: int)
    ensures forall t :: t in ActiveTargets(list, now) <==>
              exists l <- list ::
                && l.target == t && !l.terminating
                && (t.lastDuration.Some? ==> l.created + t.lastDuration.value > now)
  {
    if list == [] {
    } else {
      ActiveMeaning(list[..|list| - 1], now);
      assert list == list[..|list| - 1] + [list[|list| - 1]];
    }
  }

  /** The KCCs that match the kind of target; None is one that cannot be read. */
  type Kccs = seq<Option<seq<AllowedKeys>>>

  function Rejected(kcc: seq<AllowedKeys>, targets: seq<Target>): Target -> bool {
    (t: Target) => VerdictOf(kcc, t, targets) != Valid
  }

  /** The targets found invalid. Without exactly one matching KCC the list stays empty, although
      every target's status is set to invalid. */
  function InvalidTargets(needValidate: bool, kccs: Kccs, targets: seq<Target>): seq<Target> {
    if !needValidate || |kccs| != 1 || kccs[0].None? then [] else Filter(targets, Rejected(kccs[0].value, targets))
  }

  /** Validation ends with an error: the one KCC cannot be read, or the status of a target set to
      invalid cannot be written. `written(i)` answers for target `i`. */
  predicate ValidationFails(needValidate: bool, kccs: Kccs, targets: seq<Target>, written: nat -> bool) {
    && needValidate
    && if |kccs| != 1 then exists i: nat :: i < |targets| && !written(i)
       else if kccs[0].None? then true
       else exists i: nat :: i < |targets| && Rejected(kccs[0].value, targets)(targets[i]) && !written(i)
  }

  method ValidateKCCTs(needValidate: bool, kccs: Kccs, targets: seq<Target>, written: nat -> bool)
    returns (invalid: seq<Target>, failed: bool)
    ensures invalid == InvalidTargets(needValidate, kccs, targets)
    ensures failed <==> ValidationFails(needValidate, kccs, targets, written)
  {
    invalid, failed := [], false;
    if !needValidate { return; }
    if |kccs| != 1 {
      for i := 0 to |targets|
        invariant failed <==> exists j: nat :: j < i && !written(j)
      {
        if !written(i) { failed := true; }
      }
      return;
    }
    if kccs[0].None? { return [], true; }
    var kcc := kccs[0].value;
    for i := 0 to |targets|
      invariant invalid == Filter(targets[..i], Rejected(kcc, targets))
      invariant failed <==> exists j: nat :: j < i && Rejected(kcc, targets)(targets[j]) && !written(j)
    {
      FilterStep(targets, i, Rejected(kcc, targets));
      var verdict := ValidateTargetResourceGenericSpec(kcc, targets[i], targets);
      if verdict == Valid { continue; }
      invalid := invalid + [targets[i]];
      if !written(i) { failed := true; }
    }
    assert targets[..|targets|] == targets;
  }

  /** Every target that leaves the reconcile was cleaned up; `cleaned(i)` answers for entry `i`. */
  predicate AllCleaned(list: seq<Listed>, now: int, cleaned: nat -> bool) {
    forall i: nat :: i < |list| && !Active(list[i], now) ==> cleaned(i)
  }

  /** Nodes are touched only when a target is left, nothing failed and no target was found invalid. */
  predicate ManagesNodes(needValidate: bool, kccs: Kccs, targets: seq<Target>, clean: bool, written: nat -> bool) {
    && targets != [] && clean
    && !ValidationFails(needValidate, kccs, targets, written)
    && InvalidTargets(needValidate, kccs, targets) == []
  }

  /** With one KCC the gate opens if it can be read and every target is valid; otherwise, although every
      target is marked invalid, it opens as soon as the marks are written. */
  lemma GateMeaning(needValidate: bool, kccs: Kccs, targets: seq<Target>, clean: bool, written: nat -> bool)
    ensures ManagesNodes(needValidate, kccs, targets, clean, written) <==>
            && targets != [] && clean
            && (needValidate ==>
                  if |kccs| == 1 then kccs[0].Some? && AllValid(kccs[0].value, targets)
                  else forall i: nat :: i < |targets| ==> written(i))
  {
    if needValidate && |kccs| == 1 && kccs[0].Some? {
      var kcc := kccs[0].value;
      FilterEntries(targets, Rejected(kcc, targets));
      if AllValid(kcc, targets) {
        FilterNone(targets, Rejected(kcc, targets));
        forall i: nat | i < |targets| ensures !Rejected(kcc, targets)(targets[i]) { assert targets[i] in targets; }
      } else {
        var t :| t in targets && VerdictOf(kcc, t, targets) != Valid;
        assert Rejected(kcc, targets)(t) && t in Filter(targets, Rejected(kcc, targets));
      }
    }
  }

  method SyncKCCTs(needValidate: bool, kccs: Kccs, list: seq<Listed>, now: int, cleaned: nat -> bool,
                   written: nat -> bool)
    returns (targets: seq<Target>, manages: bool)
    ensures targets == ActiveTargets(list, now)
    ensures forall t :: t in targets <==>
              exists l <- list ::
                && l.target == t && !l.terminating
                && (t.lastDuration.Some? ==> l.created + t.lastDuration.value > now)
    ensures manages <==> ManagesNodes(needValidate, kccs, targets, AllCleaned(list, now, cleaned), written)
    ensures manages <==>
            && targets != []
            && (forall i: nat :: i < |list| && list[i].terminating ==> cleaned(i))
            && (forall i: nat ::
                  i < |list| && list[i].target.lastDuration.Some? ==>
                  cleaned(i) || list[i].created + list[i].target.lastDuration.value > now)
            && (needValidate ==>
                  if |kccs| == 1 then kccs[0].Some? && AllValid(kccs[0].value, targets)
                  else forall i: nat :: i < |targets| ==> written(i))
  {
    ActiveMeaning(list, now);
    GateMeaning(needValidate, kccs, ActiveTargets(list, now), AllCleaned(list, now, cleaned), written);
    targets := [];
    var clean := true;
    for i := 0 to |list|
      invariant targets == ActiveTargets(list[..i], now)
      invariant clean <==> forall j: nat :: j < i && !Active(list[j], now) ==> cleaned(j)
    {
      assert list[..i + 1][..i] == list[..i];
      if list[i].terminating {
        if !cleaned(i) { clean := false; }
        continue;
      }
      if list[i].target.lastDuration.Some? {
        if list[i].created + list[i].target.lastDuration.value - now <= 0 {
          if !cleaned(i) { clean := false; }
          continue;
        }
      }
      targets := targets + [list[i].target];
    }
    assert list[..|list|] == list;
    if |targets| == 0 { return targets, false; }
    var invalid, failed := ValidateKCCTs(needValidate, kccs, targets, written);
    if !clean || failed { return targets, false; }
    manages := |invalid| == 0;
  }

  lemma NoInvalidMeansAllValid(kcc: seq<AllowedKeys>, targets: seq<Target>)
    ensures InvalidTargets(true, [Some(kcc)], targets) == [] <==> AllValid(kcc, targets)
  {
    var invalid := InvalidTargets(true, [Some(kcc)], targets);
    FilterEntries(targets, Rejected(kcc, targets));
    if invalid != [] { assert invalid[0] in invalid; }
    if AllValid(kcc, targets) { assert forall t <- invalid :: false; }
  }

  /** With exactly one KCC, whenever nodes are touched every node's target is decided by the
      precedence rules alone. */
  lemma ManagedNodesAreDecided(kcc: Option<seq<AllowedKeys>>, targets: seq<Target>, clean: bool, written: nat -> bool,
                               node: string, l: Labels, t: Target)
    requires ManagesNodes(true, [kcc], targets, clean, written) && DistinctIds(targets)
    ensures Chosen(targets, node, l) == Some(t) <==> Applies(t, targets, node, l)
    ensures Chosen(targets, node, l).None? <==> MatchedTargets(targets, node, l) == []
  {
    NoInvalidMeansAllValid(kcc.value, targets);
    ValidTargetsDecide(kcc.value, targets, node, l, t);
  }

  function GlobalTarget(name: string): Target {
    Target(Key("ns", name), Unset, [], 0, None, None, false, Some("h"))
  }

  /** Two global targets, each rejected because of the other. */
  function RivalGlobals(): seq<Target> {
    [GlobalTarget("a"), GlobalTarget("b")]
  }

  lemma RivalsRejected(kcc: seq<AllowedKeys>)
    ensures !AllValid(kcc, RivalGlobals())
  {
    var rivals := RivalGlobals();
    var a, b := rivals[0], rivals[1];
    assert a in rivals && b in rivals;
    assert GlobalsClash(a, b);
    assert b.id in ClashingGlobals(a, rivals);
  }

  /** The gate keeps invalid targets away from the nodes exactly when validation is on and one KCC
      matches: with none or several, even targets that reject each other go through. */
  lemma GateIffOneKCC(needValidate: bool, kccs: Kccs, kcc: seq<AllowedKeys>)
    requires |kccs| == 1 && kccs[0].Some? ==> kccs[0].value == kcc
    ensures (forall targets, clean, written :: ManagesNodes(needValidate, kccs, targets, clean, written) ==>
            AllValid(kcc, targets))
            <==> needValidate && |kccs| == 1
  {
    if needValidate && |kccs| == 1 {
      forall targets, clean, written | ManagesNodes(needValidate, kccs, targets, clean, written)
        ensures AllValid(kcc, targets)
      {
        assert kccs == [Some(kcc)];
        NoInvalidMeansAllValid(kcc, targets);
      }
    } else {
      RivalsRejected(kcc);
      assert ManagesNodes(needValidate, kccs, RivalGlobals(), true, (i: nat) => true);
    }
  }
}
