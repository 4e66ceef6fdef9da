/** One pass of the canary rollout (pkg/controller/kcc/kcct.go, lines 429-665): group the nodes by
    target, cut each group at its canary point, and collect the outdated canary nodes as long as
    the rate limiter grants tokens. */
module Rollout {
  import opened Keys
  import opened Sorting
  import opened Scaling
  import opened Targets
  import opened Matching
  import opened Cnc

  /** What stays fixed during a pass: the configuration type, whether its targets are per node,
      and the targets. */
  datatype Plan = Plan(gvr: string, perNode: bool, targets: seq<Target>)

  // ---------------------------------------------------------------- groups

  /** The target a node belongs to; a per-node target carries the node's own name. */
  ghost function Owner(plan: Plan, cnc: CNC): Option<Key> {
    if cnc.deleting then None
    else if plan.perNode then Some(cnc.id)
    else
      var chosen := Chosen(plan.targets, cnc.id.name, cnc.labels);
      if chosen.Some? then Some(chosen.value.id) else None
  }

  /** The positions of the nodes that belong to a target. */
  ghost function Members(plan: Plan, cncs: seq<CNC>, k: Key): seq<int> {
    Positions(cncs, (cnc: CNC) => Owner(plan, cnc) == Some(k))
  }

  lemma MembersMeaning(plan: Plan, cncs: seq<CNC>, k: Key)
    ensures InRange(Members(plan, cncs, k), |cncs|)
    ensures Increasing(Members(plan, cncs, k))
    ensures forall i :: i in Members(plan, cncs, k) <==> 0 <= i < |cncs| && Owner(plan, cncs[i]) == Some(k)
    ensures forall i :: i in Members(plan, cncs, k) <==>
              && 0 <= i < |cncs| && !cncs[i].deleting
              && if plan.perNode then cncs[i].id == k
                 else exists t :: Chosen(plan.targets, cncs[i].id.name, cncs[i].labels) == Some(t) && t.id == k
  {
    PositionsMeaning(cncs, (cnc: CNC) => Owner(plan, cnc) == Some(k));
  }

  function GroupOf(groups: map<Key, seq<int>>, k: Key): seq<int> {
    if k in groups then groups[k] else []
  }

  /** The target of one node, found as the grouping loop finds it. */
  method FindOwner(plan: Plan, cnc: CNC) returns (owner: Option<Key>)
    ensures owner == Owner(plan, cnc)
  {
    if cnc.deleting { return None; }
    if plan.perNode { return Some(cnc.id); }
    var r := FindMatchedKCCTargetConfigForNode(plan.targets, cnc.id.name, cnc.labels);
    return if r.Matched? then Some(r.target.id) else None;
  }

  ghost predicate Adds(groups: map<Key, seq<int>>, groups': map<Key, seq<int>>, owner: Option<Key>, i: int) {
    forall k :: GroupOf(groups', k) == GroupOf(groups, k) + (if owner == Some(k) then [i] else [])
  }

  lemma MembersStep(plan: Plan, cncs: seq<CNC>, i: nat, groups: map<Key, seq<int>>, groups': map<Key, seq<int>>)
    requires i < |cncs| && Adds(groups, groups', Owner(plan, cncs[i]), i)
    requires forall k :: GroupOf(groups, k) == Members(plan, cncs[..i], k)
    ensures forall k :: GroupOf(groups', k) == Members(plan, cncs[..i + 1], k)
  {
    assert cncs[..i + 1][..i] == cncs[..i];
    forall k ensures GroupOf(groups', k) == Members(plan, cncs[..i + 1], k) {
      assert GroupOf(groups, k) == Members(plan, cncs[..i], k);
    }
  }

  /** A node that should have a target but has none. */
  ghost predicate IsUnmatched(plan: Plan, cnc: CNC) {
    !cnc.deleting && Owner(plan, cnc).None?
  }

  method GroupCNCsByKCCT(plan: Plan, cncs: seq<CNC>) returns (groups: map<Key, seq<int>>, unmatched: seq<CNC>)
    ensures forall k :: GroupOf(groups, k) == Members(plan, cncs, k)
    ensures forall cnc :: cnc in unmatched <==> cnc in cncs && IsUnmatched(plan, cnc)
  {
    groups, unmatched := map[], [];
    for i := 0 to |cncs|
      invariant forall k :: GroupOf(groups, k) == Members(plan, cncs[..i], k)
      invariant forall cnc :: cnc in unmatched <==> cnc in cncs[..i] && IsUnmatched(plan, cnc)
    {
      var cnc := cncs[i];
      assert cncs[..i + 1] == cncs[..i] + [cnc];
      var owner := FindOwner(plan, cnc);
      var groups' := groups;
      if owner.Some? {
        groups' := groups[owner.value := GroupOf(groups, owner.value) + [i]];
      } else if !cnc.deleting {
        unmatched := unmatched + [cnc];
      }
      MembersStep(plan, cncs, i, groups, groups');
      groups := groups';
    }
    assert cncs[..|cncs|] == cncs;
  }

  // ---------------------------------------------------------------- canary cutoffs

  /** How many nodes of a group of `n` are canaries; None when the canary value is malformed. */
  function CutoffFor(canary: Option<IntOrPercent>, n: nat): Option<int> {
    if canary.None? then Some(n)
    else
      var scaled := Scaled(canary.value, n, false);
      if scaled.None? then None
      else Some(if scaled.value < 0 then 0 else if scaled.value > n then n else scaled.value)
  }

  /** A canary value that asks for at least as much. */
  predicate CanaryAtMost(a: IntOrPercent, b: IntOrPercent) {
    || (a.Count? && b.Count? && a.count <= b.count)
    || (a.Percent? && b.Percent? && a.percent <= b.percent)
  }

  /** Cutoffs stay within the group and grow with the canary value. */
  lemma CutoffGrows(a: IntOrPercent, b: IntOrPercent, n: nat)
    requires CanaryAtMost(a, b)
    ensures CutoffFor(Some(a), n).Some? && CutoffFor(Some(b), n).Some?
    ensures 0 <= CutoffFor(Some(a), n).value <= CutoffFor(Some(b), n).value <= CutoffFor(None, n).value == n
  {
    if a.Percent? { PercentMonotone(a.percent, b.percent, n); }
  }

  /** The whole group without a canary value, a plain number kept within the group, or the greatest
      number within the group whose percentage of it does not exceed the value. */
  lemma CutoffMeaning(canary: Option<IntOrPercent>, n: nat)
    ensures
      match canary
      case None => CutoffFor(canary, n) == Some(n)
      case Some(Malformed) => CutoffFor(canary, n) == None
      case Some(Count(c)) => CutoffFor(canary, n) == Some(if c < 0 then 0 else if c > n then n else c)
      case Some(Percent(p)) =>
        && CutoffFor(canary, n).Some?
        && var r := CutoffFor(canary, n).value;
           0 <= r <= n && (r > 0 ==> 100 * r <= p * n) && (r < n ==> p * n < 100 * (r + 1))
  {
    if canary.Some? && canary.value.Percent? { SharesRounded(canary.value.percent, n); }
  }

  /** The canary value of the target makes sense for its group. */
  function HasCutoff(groups: map<Key, seq<int>>): Target -> bool {
    (t: Target) => CutoffFor(t.canary, |GroupOf(groups, t.id)|).Some?
  }

  method ComputeCanaryCutoffPoints(targets: seq<Target>, groups: map<Key, seq<int>>)
    returns (valid: seq<Target>, cutoffs: map<Key, int>)
    requires DistinctIds(targets)
    ensures valid == Filter(targets, HasCutoff(groups))
    ensures forall t <- valid :: t.id in cutoffs && 0 <= cutoffs[t.id] <= |GroupOf(groups, t.id)|
    ensures forall t <- valid :: Some(cutoffs[t.id]) == CutoffFor(t.canary, |GroupOf(groups, t.id)|)
  {
    hide CutoffFor;
    valid, cutoffs := [], map[];
    for i := 0 to |targets|
      invariant valid == Filter(targets[..i], HasCutoff(groups))
      invariant forall j :: 0 <= j < |valid| ==> valid[j] in targets[..i] && CutoffSet(valid[j], groups, cutoffs)
    {
      var t := targets[i];
      assert forall j :: 0 <= j < |valid| ==> valid[j].id != t.id;
      FilterStep(targets, i, HasCutoff(groups));
      var cutoff := CanaryCutoff(t.canary, |GroupOf(groups, t.id)|);
      if cutoff.None? { continue; }
      cutoffs := cutoffs[t.id := cutoff.value];
      valid := valid + [t];
    }
    assert targets[..|targets|] == targets;
  }

  ghost predicate CutoffSet(t: Target, groups: map<Key, seq<int>>, cutoffs: map<Key, int>) {
    && t.id in cutoffs && 0 <= cutoffs[t.id] <= |GroupOf(groups, t.id)|
    && Some(cutoffs[t.id]) == CutoffFor(t.canary, |GroupOf(groups, t.id)|)
  }

  /** The whole group without a canary value; otherwise the scaled value, kept within the group. */
  method CanaryCutoff(canary: Option<IntOrPercent>, n: nat) returns (cutoff: Option<int>)
    ensures cutoff == CutoffFor(canary, n)
    ensures cutoff.None? <==> canary == Some(Malformed)
    ensures cutoff.Some? ==> 0 <= cutoff.value <= n
    ensures canary.None? ==> cutoff == Some(n)
    ensures canary.Some? && canary.value.Count? ==>
              var c := canary.value.count;
              cutoff == Some(if c < 0 then 0 else if c > n then n else c)
    ensures canary.Some? && canary.value.Percent? ==>
              var share := canary.value.percent * n;
              && (cutoff.value > 0 ==> 100 * cutoff.value <= share)
              && (cutoff.value < n ==> share < 100 * (cutoff.value + 1))
  {
    CutoffMeaning(canary, n);
    if canary.None? { return Some(n); }
    var scaled := Scaled(canary.value, n, false);
    if scaled.None? { return None; }
    var value := scaled.value;
    if value < 0 { value := 0; } else if value > n { value := n; }
    return Some(value);
  }

  // ---------------------------------------------------------------- candidates

  predicate HasHash(t: Target) {
    t.hash.Some?
  }

  method GenerateConfigHashes(targets: seq<Target>) returns (valid: seq<Target>)
    ensures valid == Filter(targets, HasHash)
  {
    valid := [];
    for i := 0 to |targets|
      invariant valid == Filter(targets[..i], HasHash)
    {
      FilterStep(targets, i, HasHash);
      if targets[i].hash.None? { continue; }
      valid := valid + [targets[i]];
    }
    assert targets[..|targets|] == targets;
  }

  ghost predicate Cuttable(plan: Plan, cncs: seq<CNC>, t: Target) {
    CutoffFor(t.canary, |Members(plan, cncs, t.id)|).Some?
  }

  /** The targets a pass works on: those with a hash and a meaningful canary value. */
  ghost function Managed(plan: Plan, cncs: seq<CNC>): seq<Target> {
    Filter(Filter(plan.targets, HasHash), (t: Target) => Cuttable(plan, cncs, t))
  }

  lemma ManagedMeaning(plan: Plan, cncs: seq<CNC>)
    ensures forall t :: t in Managed(plan, cncs) <==> t in plan.targets && HasHash(t) && Cuttable(plan, cncs, t)
    ensures DistinctIds(plan.targets) ==> DistinctIds(Managed(plan, cncs))
  {
    FilterEntries(plan.targets, HasHash);
    FilterEntries(Filter(plan.targets, HasHash), (t: Target) => Cuttable(plan, cncs, t));
    if DistinctIds(plan.targets) {
      FilterKeepsDistinctIds(plan.targets, HasHash);
      FilterKeepsDistinctIds(Filter(plan.targets, HasHash), (t: Target) => Cuttable(plan, cncs, t));
    }
  }

  /** The canary prefix of a target's group. */
  ghost function Canary(plan: Plan, cncs: seq<CNC>, t: Target): seq<int> {
    var members := Members(plan, cncs, t.id);
    var cutoff := CutoffFor(t.canary, |members|);
    if cutoff.Some? then members[..cutoff.value] else []
  }

  /** The plan with another canary value for one target. */
  ghost function WithCanary(plan: Plan, k: Key, canary: Option<IntOrPercent>): Plan {
    plan.(targets := seq(|plan.targets|, i requires 0 <= i < |plan.targets| =>
      if plan.targets[i].id == k then plan.targets[i].(canary := canary) else plan.targets[i]))
  }

  /** Dropping the canary value, or raising it. */
  predicate MoreCanaries(a: Option<IntOrPercent>, b: Option<IntOrPercent>) {
    b.None? || (a.Some? && CanaryAtMost(a.value, b.value))
  }

  lemma OwnerIgnoresCanary(plan: Plan, k: Key, canary: Option<IntOrPercent>, cnc: CNC)
    ensures Owner(WithCanary(plan, k, canary), cnc) == Owner(plan, cnc)
  {
    ChosenAlike(plan.targets, WithCanary(plan, k, canary).targets, cnc.id.name, cnc.labels);
  }

  lemma MembersIgnoreCanary(plan: Plan, k: Key, canary: Option<IntOrPercent>, cncs: seq<CNC>, id: Key)
    ensures Members(WithCanary(plan, k, canary), cncs, id) == Members(plan, cncs, id)
  {
    var raised := WithCanary(plan, k, canary);
    forall cnc: CNC ensures Owner(raised, cnc) == Owner(plan, cnc) { OwnerIgnoresCanary(plan, k, canary, cnc); }
    SamePositionsFor(cncs, (cnc: CNC) => Owner(raised, cnc) == Some(id), (cnc: CNC) => Owner(plan, cnc) == Some(id));
  }

  lemma {:induction false} SamePositionsFor<T>(xs: seq<T>, f: T -> bool, g: T -> bool)
    requires forall i :: 0 <= i < |xs| ==> f(xs[i]) == g(xs[i])
    ensures Positions(xs, f) == Positions(xs, g)
  {
    if xs == [] {
    } else {
      SamePositionsFor(xs[..|xs| - 1], f, g);
    }
  }

  /** The canaries under a raised or dropped canary value are the old ones and possibly more. */
  lemma CanaryGrows(plan: Plan, cncs: seq<CNC>, t: Target, canary: Option<IntOrPercent>)
    requires MoreCanaries(t.canary, canary)
    ensures Canary(plan, cncs, t) <= Canary(WithCanary(plan, t.id, canary), cncs, t.(canary := canary))
  {
    MembersIgnoreCanary(plan, t.id, canary, cncs, t.id);
    if t.canary.Some? && canary.Some? { CutoffGrows(t.canary.value, canary.value, |Members(plan, cncs, t.id)|); }
  }

  function ConfigFor(gvr: string, t: Target): TargetConfig
    requires HasHash(t)
  {
    TargetConfig(gvr, t.id, t.hash.value)
  }

  datatype Task = Task(target: Target, index: int)

  /** One task for every position whose node does not carry the target's configuration yet. */
  function Outdated(gvr: string, cncs: seq<CNC>, t: Target, indexes: seq<int>): seq<Task>
    requires HasHash(t) && InRange(indexes, |cncs|)
  {
    if indexes == [] then []
    else
      var i := indexes[|indexes| - 1];
      Outdated(gvr, cncs, t, indexes[..|indexes| - 1]) +
      (if HasConfig(cncs[i], ConfigFor(gvr, t)) then [] else [Task(t, i)])
  }

  lemma {:induction false} OutdatedMeaning(gvr: string, cncs: seq<CNC>, t: Target, indexes: seq<int>)
    requires HasHash(t) && InRange(indexes, |cncs|)
    ensures forall x :: x in Outdated(gvr, cncs, t, indexes) <==>
              x.target == t && x.index in indexes && !HasConfig(cncs[x.index], ConfigFor(gvr, t))
    ensures Increasing(indexes) ==> DistinctIndexes(Outdated(gvr, cncs, t, indexes))
  {
    if indexes == [] {
    } else {
      OutdatedMeaning(gvr, cncs, t, indexes[..|indexes| - 1]);
      assert indexes == indexes[..|indexes| - 1] + [indexes[|indexes| - 1]];
    }
  }

  ghost function TargetTasks(plan: Plan, cncs: seq<CNC>, t: Target): seq<Task> {
    MembersMeaning(plan, cncs, t.id);
    if t.paused || !HasHash(t) then [] else Outdated(plan.gvr, cncs, t, Canary(plan, cncs, t))
  }

  ghost function CandidatesOf(plan: Plan, cncs: seq<CNC>, ts: seq<Target>): seq<Task> {
    if ts == [] then []
    else CandidatesOf(plan, cncs, ts[..|ts| - 1]) + TargetTasks(plan, cncs, ts[|ts| - 1])
  }

  /** Every node update the pass would make with unlimited tokens, in order. */
  ghost function Candidates(plan: Plan, cncs: seq<CNC>): seq<Task> {
    CandidatesOf(plan, cncs, Managed(plan, cncs))
  }

  ghost predicate DistinctIndexes(tasks: seq<Task>) {
    forall i, j :: 0 <= i < j < |tasks| ==> tasks[i].index != tasks[j].index
  }

  /** A task updates an outdated node in the canary prefix of its own unpaused target. */
  ghost predicate Legitimate(plan: Plan, cncs: seq<CNC>, x: Task) {
    && x.target in plan.targets && HasHash(x.target) && !x.target.paused
    && Cuttable(plan, cncs, x.target)
    && x.index in Canary(plan, cncs, x.target)
    && 0 <= x.index < |cncs|
    && Owner(plan, cncs[x.index]) == Some(x.target.id)
    && TargetConfig(plan.gvr, x.target.id, x.target.hash.value) !in cncs[x.index].configs
  }

  lemma TargetTasksMeaning(plan: Plan, cncs: seq<CNC>, t: Target)
    ensures forall x :: x in TargetTasks(plan, cncs, t) <==>
              && x.target == t && HasHash(t) && !t.paused && x.index in Canary(plan, cncs, t)
              && 0 <= x.index < |cncs| && !HasConfig(cncs[x.index], ConfigFor(plan.gvr, t))
    ensures forall x <- TargetTasks(plan, cncs, t) :: Owner(plan, cncs[x.index]) == Some(t.id)
    ensures DistinctIndexes(TargetTasks(plan, cncs, t))
  {
    MembersMeaning(plan, cncs, t.id);
    if HasHash(t) { OutdatedMeaning(plan.gvr, cncs, t, Canary(plan, cncs, t)); }
  }

  lemma {:induction false} CandidatesOfMeaning(plan: Plan, cncs: seq<CNC>, ts: seq<Target>)
    ensures forall x :: x in CandidatesOf(plan, cncs, ts) <==> x.target in ts && x in TargetTasks(plan, cncs, x.target)
    ensures DistinctIds(ts) ==> DistinctIndexes(CandidatesOf(plan, cncs, ts))
  {
    if ts == [] {
    } else {
      var init, t := ts[..|ts| - 1], ts[|ts| - 1];
      CandidatesOfMeaning(plan, cncs, init);
      TargetTasksMeaning(plan, cncs, t);
      assert ts == init + [t];
      if DistinctIds(ts) { CandidatesAppend(plan, cncs, init, t); }
    }
  }

  lemma CandidatesAppend(plan: Plan, cncs: seq<CNC>, init: seq<Target>, t: Target)
    requires DistinctIds(init + [t]) && DistinctIndexes(CandidatesOf(plan, cncs, init))
    requires forall x :: x in CandidatesOf(plan, cncs, init) <==>
             x.target in init && x in TargetTasks(plan, cncs, x.target)
    ensures DistinctIndexes(CandidatesOf(plan, cncs, init) + TargetTasks(plan, cncs, t))
  {
    var a, b := CandidatesOf(plan, cncs, init), TargetTasks(plan, cncs, t);
    TargetTasksMeaning(plan, cncs, t);
    forall x <- a, y <- b ensures x.index != y.index {
      TargetTasksMeaning(plan, cncs, x.target);
      assert x.target.id != t.id by {
        var i :| 0 <= i < |init| && init[i] == x.target;
        assert (init + [t])[i] == x.target && (init + [t])[|init|] == t;
      }
    }
  }

  /** The candidates are exactly the legitimate updates, and no node appears twice. */
  lemma CandidatesMeaning(plan: Plan, cncs: seq<CNC>)
    requires DistinctIds(plan.targets)
    ensures forall x :: x in Candidates(plan, cncs) <==> Legitimate(plan, cncs, x)
    ensures DistinctIndexes(Candidates(plan, cncs))
  {
    ManagedMeaning(plan, cncs);
    CandidatesOfMeaning(plan, cncs, Managed(plan, cncs));
    forall x ensures x in Candidates(plan, cncs) <==> Legitimate(plan, cncs, x) {
      TargetTasksMeaning(plan, cncs, x.target);
    }
  }
}
