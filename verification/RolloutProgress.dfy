/** What rollout passes achieve over time (pkg/controller/kcc/kcct.go, lines 429-476, 595-713). */
module RolloutProgress {
  import opened Keys
  import opened Sorting
  import opened KeyedLists
  import opened Targets
  import opened Cnc
  import opened Rollout
  import opened RolloutSchedule
  import opened RolloutPass

  // ---------------------------------------------------------------- groups stay fixed

  /** Two slices that differ in configuration lists only. */
  ghost predicate SameNodes(a: seq<CNC>, b: seq<CNC>) {
    |a| == |b| && forall i :: 0 <= i < |a| ==> b[i] == a[i].(configs := b[i].configs)
  }

  lemma OutcomeSameNodes(gvr: string, before: seq<CNC>, after: seq<CNC>, tasks: seq<Task>, done: set<nat>,
                         ok: nat -> bool)
    requires RunnableTasks(tasks, |before|) && IsOutcome(gvr, before, after, tasks, done, ok)
    ensures SameNodes(before, after)
  {
    forall j | 0 <= j < |before| ensures after[j] == before[j].(configs := after[j].configs) {
      if i :| 0 <= i < |tasks| && tasks[i].index == j {
        AppliedMeaning(before[j], ConfigFor(gvr, tasks[i].target));
      }
    }
  }

  lemma OwnerIgnoresConfigs(plan: Plan, cnc: CNC, configs: seq<TargetConfig>)
    ensures Owner(plan, cnc) == Owner(plan, cnc.(configs := configs))
  {
  }

  lemma {:induction false} SamePositions<T>(xs: seq<T>, ys: seq<T>, keep: T -> bool)
    requires |xs| == |ys| && forall i :: 0 <= i < |xs| ==> keep(xs[i]) == keep(ys[i])
    ensures Positions(xs, keep) == Positions(ys, keep)
  {
    if xs == [] {
    } else {
      SamePositions(xs[..|xs| - 1], ys[..|ys| - 1], keep);
    }
  }

  /** Updating configurations moves no node to another group, canary prefix or target. */
  lemma GroupsFixed(plan: Plan, a: seq<CNC>, b: seq<CNC>, t: Target)
    requires SameNodes(a, b)
    ensures Members(plan, a, t.id) == Members(plan, b, t.id)
    ensures Canary(plan, a, t) == Canary(plan, b, t)
    ensures Cuttable(plan, a, t) <==> Cuttable(plan, b, t)
  {
    var keep := (cnc: CNC) => Owner(plan, cnc) == Some(t.id);
    forall i | 0 <= i < |a| ensures keep(a[i]) == keep(b[i]) {
      OwnerIgnoresConfigs(plan, a[i], b[i].configs);
    }
    SamePositions(a, b, keep);
  }

  // ---------------------------------------------------------------- what one pass leaves outdated

  /** The node updates still due. */
  ghost function Due(plan: Plan, cncs: seq<CNC>): set<Task> {
    Elements(Candidates(plan, cncs))
  }

  lemma DueMeaning(plan: Plan, cncs: seq<CNC>)
    requires DistinctIds(plan.targets)
    ensures forall x :: x in Due(plan, cncs) <==> Legitimate(plan, cncs, x)
    ensures |Due(plan, cncs)| == |Candidates(plan, cncs)|
  {
    CandidatesMeaning(plan, cncs);
    assert Distinct(Candidates(plan, cncs));
    DistinctCard(Candidates(plan, cncs));
  }

  /** The updates whose patch was accepted. */
  ghost function Accepted(tasks: seq<Task>, ok: nat -> bool): set<Task> {
    set i: nat | i in AllOf(|tasks|) && ok(i) :: tasks[i]
  }

  /** A legitimate update and a task on the same node are one and the same. */
  lemma SameSlot(plan: Plan, cncs: seq<CNC>, x: Task, y: Task)
    requires DistinctIds(plan.targets)
    requires x.target in plan.targets && y.target in plan.targets && x.index == y.index
    requires 0 <= x.index < |cncs|
    requires Owner(plan, cncs[x.index]) == Some(x.target.id) && Owner(plan, cncs[y.index]) == Some(y.target.id)
    ensures x == y
  {
  }

  /** Slots of tasks that were not accepted, and slots without a task, are unchanged. */
  lemma UntouchedSlot(gvr: string, before: seq<CNC>, after: seq<CNC>, tasks: seq<Task>, ok: nat -> bool, j: int)
    requires RunnableTasks(tasks, |before|) && IsOutcome(gvr, before, after, tasks, AllOf(|tasks|), ok)
    requires 0 <= j < |before| && forall i :: 0 <= i < |tasks| && tasks[i].index == j ==> !ok(i)
    ensures after[j] == before[j]
  {
    if i :| 0 <= i < |tasks| && tasks[i].index == j { }
  }

  lemma AcceptedSlot(gvr: string, before: seq<CNC>, after: seq<CNC>, tasks: seq<Task>, ok: nat -> bool, i: nat)
    requires RunnableTasks(tasks, |before|) && IsOutcome(gvr, before, after, tasks, AllOf(|tasks|), ok)
    requires i < |tasks| && ok(i)
    ensures HasConfig(after[tasks[i].index], ConfigFor(gvr, tasks[i].target))
  {
    AppliedMeaning(before[tasks[i].index], ConfigFor(gvr, tasks[i].target));
  }

  lemma LegitimateMoves(plan: Plan, a: seq<CNC>, b: seq<CNC>, x: Task)
    requires SameNodes(a, b) && Legitimate(plan, a, x)
    requires !HasConfig(b[x.index], ConfigFor(plan.gvr, x.target))
    ensures Legitimate(plan, b, x)
  {
    GroupsFixed(plan, a, b, x.target);
    OwnerIgnoresConfigs(plan, a[x.index], b[x.index].configs);
  }

  lemma SameNodesSymmetric(a: seq<CNC>, b: seq<CNC>)
    requires SameNodes(a, b)
    ensures SameNodes(b, a)
  {
  }

  /** The node of an accepted task is up to date, so no update of it is due. */
  lemma AcceptedNotDue(plan: Plan, before: seq<CNC>, after: seq<CNC>, tasks: seq<Task>, ok: nat -> bool, i: nat,
                       x: Task)
    requires DistinctIds(plan.targets) && RunnableTasks(tasks, |before|)
    requires IsOutcome(plan.gvr, before, after, tasks, AllOf(|tasks|), ok)
    requires i < |tasks| && ok(i) && Legitimate(plan, before, tasks[i]) && tasks[i].index == x.index
    ensures !Legitimate(plan, after, x)
  {
    AcceptedSlot(plan.gvr, before, after, tasks, ok, i);
    OutcomeSameNodes(plan.gvr, before, after, tasks, AllOf(|tasks|), ok);
    OwnerIgnoresConfigs(plan, before[x.index], after[x.index].configs);
    if Legitimate(plan, after, x) { SameSlot(plan, before, x, tasks[i]); }
  }

  /** A still-due update was due before and was not accepted. */
  lemma DueBefore(plan: Plan, before: seq<CNC>, after: seq<CNC>, tasks: seq<Task>, limited: bool,
                  allow: nat -> bool, ok: nat -> bool, x: Task)
    requires DistinctIds(plan.targets) && Pass(plan, before, after, tasks, limited, allow, ok)
    requires Legitimate(plan, after, x)
    ensures Legitimate(plan, before, x) && x !in Accepted(tasks, ok)
  {
    CandidatesRunnable(plan, before, tasks);
    forall i: nat | i < |tasks| && tasks[i].index == x.index ensures !ok(i) {
      assert Legitimate(plan, before, tasks[i]);
      if ok(i) { AcceptedNotDue(plan, before, after, tasks, ok, i, x); }
    }
    OutcomeSameNodes(plan.gvr, before, after, tasks, AllOf(|tasks|), ok);
    SameNodesSymmetric(before, after);
    UntouchedSlot(plan.gvr, before, after, tasks, ok, x.index);
    LegitimateMoves(plan, after, before, x);
  }

  /** An update that was due and not accepted is still due. */
  lemma DueAfter(plan: Plan, before: seq<CNC>, after: seq<CNC>, tasks: seq<Task>, limited: bool,
                 allow: nat -> bool, ok: nat -> bool, x: Task)
    requires DistinctIds(plan.targets) && Pass(plan, before, after, tasks, limited, allow, ok)
    requires Legitimate(plan, before, x) && x !in Accepted(tasks, ok)
    ensures Legitimate(plan, after, x)
  {
    CandidatesRunnable(plan, before, tasks);
    OutcomeSameNodes(plan.gvr, before, after, tasks, AllOf(|tasks|), ok);
    forall i: nat | i < |tasks| && tasks[i].index == x.index ensures !ok(i) {
      assert Legitimate(plan, before, tasks[i]);
      SameSlot(plan, before, x, tasks[i]);
      assert i in AllOf(|tasks|);
    }
    UntouchedSlot(plan.gvr, before, after, tasks, ok, x.index);
    LegitimateMoves(plan, before, after, x);
  }

  /** A pass removes exactly the accepted updates from what is due. */
  lemma PassRemovesAccepted(plan: Plan, before: seq<CNC>, after: seq<CNC>, tasks: seq<Task>, limited: bool,
                            allow: nat -> bool, ok: nat -> bool)
    requires DistinctIds(plan.targets) && Pass(plan, before, after, tasks, limited, allow, ok)
    ensures Accepted(tasks, ok) <= Due(plan, before)
    ensures Due(plan, after) == Due(plan, before) - Accepted(tasks, ok)
  {
    CandidatesRunnable(plan, before, tasks);
    DueMeaning(plan, before);
    DueMeaning(plan, after);
    forall x <- Accepted(tasks, ok) ensures x in Due(plan, before) {
      assert x in tasks;
    }
    forall x ensures x in Due(plan, after) <==> x in Due(plan, before) - Accepted(tasks, ok) {
      if Legitimate(plan, after, x) { DueBefore(plan, before, after, tasks, limited, allow, ok, x); }
      if Legitimate(plan, before, x) && x !in Accepted(tasks, ok) {
        DueAfter(plan, before, after, tasks, limited, allow, ok, x);
      }
    }
  }

  lemma AcceptedAll(tasks: seq<Task>, ok: nat -> bool)
    requires AllAllowed(|tasks|, ok)
    ensures Accepted(tasks, ok) == Elements(tasks)
  {
    forall x <- Elements(tasks) ensures x in Accepted(tasks, ok) {
      var i :| 0 <= i < |tasks| && tasks[i] == x;
      assert i in AllOf(|tasks|);
    }
  }

  /** The same for the parallel workers: whatever their interleaving, and even if they are stopped,
      exactly the finished updates are no longer due. */
  lemma InterleavedRemovesFinished(plan: Plan, before: seq<CNC>, tasks: seq<Task>, limited: bool, allow: nat -> bool,
                                   ok: nat -> bool, events: seq<Event>)
    requires DistinctIds(plan.targets) && Granted(Candidates(plan, before), tasks, limited, allow)
    requires RunnableTasks(tasks, |before|) && Schedule(events, |tasks|)
    ensures Due(plan, Run(plan.gvr, tasks, ok, before, events).cncs) ==
            Due(plan, before) - Accepted(tasks, Finished(ok, events))
  {
    InterleavedIsPass(plan, before, tasks, limited, allow, ok, events);
    PassRemovesAccepted(plan, before, Run(plan.gvr, tasks, ok, before, events).cncs, tasks, limited, allow,
                        Finished(ok, events));
  }

  /** The amount of work left never grows; with at least one token and no failed patch it shrinks
      by the number of tasks, strictly until nothing is due, and then nothing is patched any more. */
  lemma PassMakesProgress(plan: Plan, before: seq<CNC>, after: seq<CNC>, tasks: seq<Task>, limited: bool,
                          allow: nat -> bool, ok: nat -> bool)
    requires DistinctIds(plan.targets) && Pass(plan, before, after, tasks, limited, allow, ok)
    ensures |Due(plan, after)| <= |Due(plan, before)|
    ensures AllAllowed(|tasks|, ok) ==> |Due(plan, after)| == |Due(plan, before)| - |tasks|
    ensures AllAllowed(|tasks|, ok) && allow(0) && Due(plan, before) != {} ==> |Due(plan, after)| < |Due(plan, before)|
    ensures Due(plan, before) == {} ==> tasks == [] && after == before
  {
    PassRemovesAccepted(plan, before, after, tasks, limited, allow, ok);
    SubsetCard(Due(plan, after), Due(plan, before));
    if AllAllowed(|tasks|, ok) {
      AcceptedAll(tasks, ok);
      CandidatesRunnable(plan, before, tasks);
      assert Distinct(tasks);
      DistinctCard(tasks);
    }
    DueMeansCandidates(plan, before);
    hide Due;
    if Candidates(plan, before) == [] {
      assert after == before;
    }
  }

  lemma DueMeansCandidates(plan: Plan, cncs: seq<CNC>)
    ensures Due(plan, cncs) == {} <==> Candidates(plan, cncs) == []
  {
    if Candidates(plan, cncs) != [] { assert Candidates(plan, cncs)[0] in Due(plan, cncs); }
  }

  // ---------------------------------------------------------------- runs of passes

  /** The updates of one pass, whether it ran out of tokens, and the answers it got. */
  datatype Record = Record(tasks: seq<Task>, limited: bool, allow: nat -> bool, ok: nat -> bool)

  /** The pass got a token and had every patch accepted. */
  ghost predicate GoodPass(plan: Plan, before: seq<CNC>, after: seq<CNC>, r: Record) {
    Pass(plan, before, after, r.tasks, r.limited, r.allow, r.ok) && r.allow(0) && AllAllowed(|r.tasks|, r.ok)
  }

  /** A run of good passes: `states[i + 1]` is the slice after pass `i`. */
  ghost predicate GoodRun(plan: Plan, states: seq<seq<CNC>>, records: seq<Record>) {
    && |states| == |records| + 1
    && forall i :: 0 <= i < |records| ==> GoodPass(plan, states[i], states[i + 1], records[i])
  }

  lemma GoodPassProgress(plan: Plan, before: seq<CNC>, after: seq<CNC>, r: Record)
    requires DistinctIds(plan.targets) && GoodPass(plan, before, after, r)
    ensures Due(plan, before) != {} ==> |Due(plan, after)| < |Due(plan, before)|
    ensures Due(plan, before) == {} ==> after == before && r.tasks == []
  {
    PassMakesProgress(plan, before, after, r.tasks, r.limited, r.allow, r.ok);
  }

  /** Once nothing is due, a run changes nothing and patches nothing. */
  lemma {:induction false} FinishedStays(plan: Plan, states: seq<seq<CNC>>, records: seq<Record>)
    requires DistinctIds(plan.targets) && GoodRun(plan, states, records) && Due(plan, states[0]) == {}
    ensures forall i :: 0 <= i < |states| ==> states[i] == states[0]
    ensures forall r <- records :: r.tasks == []
    decreases |records|
  {
    if records == [] {
    } else {
      GoodPassProgress(plan, states[0], states[1], records[0]);
      FinishedStays(plan, states[1..], records[1..]);
      assert records == [records[0]] + records[1..];
      forall i | 0 < i < |states| ensures states[i] == states[0] { assert states[1..][i - 1] == states[1..][0]; }
    }
  }

  /** A run of good passes finishes: after as many passes as updates were due, no update of an
      unpaused target's canaries is left. */
  lemma {:induction false} RolloutConverges(plan: Plan, states: seq<seq<CNC>>, records: seq<Record>)
    requires DistinctIds(plan.targets) && GoodRun(plan, states, records)
    requires |records| >= |Due(plan, states[0])|
    ensures Due(plan, states[|records|]) == {}
    decreases |records|
  {
    if Due(plan, states[0]) == {} {
      FinishedStays(plan, states, records);
    } else {
      GoodPassProgress(plan, states[0], states[1], records[0]);
      RolloutConverges(plan, states[1..], records[1..]);
    }
  }

  /** After an unthrottled pass without failures, every canary of an unpaused target is updated. */
  lemma CanariesUpdated(plan: Plan, before: seq<CNC>, after: seq<CNC>, tasks: seq<Task>,
                        allow: nat -> bool, ok: nat -> bool, t: Target, s: Status)
    requires DistinctIds(plan.targets) && Pass(plan, before, after, tasks, false, allow, ok) && AllAllowed(|tasks|, ok)
    requires t in Managed(plan, before) && HasHash(t) && !t.paused && StatusOf(plan, before, after, t, s)
    ensures s.canaryNodes <= s.updatedTargetNodes
  {
    PassRemovesAccepted(plan, before, after, tasks, false, allow, ok);
    AcceptedAll(tasks, ok);
    assert Due(plan, after) == {};
    DueMeaning(plan, after);
    OutcomeSameNodes(plan.gvr, before, after, tasks, AllOf(|tasks|), ok);
    var canary, members := Canary(plan, before, t), Members(plan, before, t.id);
    MembersMeaning(plan, before, t.id);
    DistinctCard(canary);
    forall i <- Elements(canary) ensures i in UpdatedNodes(plan.gvr, after, t) * Elements(members) {
      CanaryUpdated(plan, before, after, t, i);
    }
    SubsetCard(Elements(canary), UpdatedNodes(plan.gvr, after, t) * Elements(members));
  }

  lemma CanaryUpdated(plan: Plan, before: seq<CNC>, after: seq<CNC>, t: Target, i: int)
    requires SameNodes(before, after) && t in Managed(plan, before) && HasHash(t) && !t.paused
    requires forall x :: !Legitimate(plan, after, x)
    requires i in Canary(plan, before, t)
    ensures i in UpdatedNodes(plan.gvr, after, t) && i in Members(plan, before, t.id)
  {
    ManagedMeaning(plan, before);
    MembersMeaning(plan, before, t.id);
    MembersMeaning(plan, after, t.id);
    GroupsFixed(plan, before, after, t);
    assert !Legitimate(plan, after, Task(t, i));
  }

  /** The next pass lists the same nodes in any order and works on the same slice again, because
      nodes are sorted by their distinct names. */
  lemma RelistingKeepsOrder(after: seq<CNC>, listing: seq<CNC>)
    requires Sorted(after, NameKey) && multiset(listing) == multiset(after)
    ensures SortByKey(listing, NameKey) == after
  {
    SortedDistinct(after, NameKey);
    DistinctKeysPermute(after, listing, NameKey);
    LessIsTotalOrder();
    assert WeaklySorted(after, NameKey);
    SortedForm(listing, SortByKey(listing, NameKey), NameKey);
    SortedForm(listing, after, NameKey);
  }

  lemma PassKeepsOrder(before: seq<CNC>, after: seq<CNC>)
    requires SameNodes(before, after) && Sorted(before, NameKey)
    ensures Sorted(after, NameKey)
  {
    forall i, j | 0 <= i < j < |after| ensures Less(NameKey(after[i]), NameKey(after[j])) {
      assert NameKey(after[i]) == NameKey(before[i]) && NameKey(after[j]) == NameKey(before[j]);
    }
  }
}
