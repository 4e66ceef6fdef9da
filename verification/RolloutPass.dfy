/** A whole rollout pass over the shared slice of nodes, and the status it reports per target
    (pkg/controller/kcc/kcct.go, lines 429-476 and 595-713). */
module RolloutPass {
  import opened Keys
  import opened Sorting
  import opened KeyedLists
  import opened Targets
  import opened Matching
  import opened Cnc
  import opened Rollout
  import opened RolloutSchedule

  // ---------------------------------------------------------------- collecting tasks

  /** A target's group and cutoff have been worked out. */
  ghost predicate TargetPrepared(plan: Plan, cncs: seq<CNC>, groups: map<Key, seq<int>>, cutoffs: map<Key, int>,
                                 t: Target) {
    && HasHash(t)
    && GroupOf(groups, t.id) == Members(plan, cncs, t.id)
    && t.id in cutoffs
    && Some(cutoffs[t.id]) == CutoffFor(t.canary, |Members(plan, cncs, t.id)|)
  }

  /** What a pass has worked out before it collects tasks. */
  ghost predicate Prepared(plan: Plan, cncs: seq<CNC>, groups: map<Key, seq<int>>, managed: seq<Target>,
                           cutoffs: map<Key, int>) {
    managed == Managed(plan, cncs) && forall t <- managed :: TargetPrepared(plan, cncs, groups, cutoffs, t)
  }

  lemma CanarySlice(plan: Plan, cncs: seq<CNC>, groups: map<Key, seq<int>>, cutoffs: map<Key, int>, t: Target)
    requires TargetPrepared(plan, cncs, groups, cutoffs, t)
    ensures 0 <= cutoffs[t.id] <= |GroupOf(groups, t.id)|
    ensures GroupOf(groups, t.id)[..cutoffs[t.id]] == Canary(plan, cncs, t)
    ensures |Canary(plan, cncs, t)| == cutoffs[t.id] && InRange(Canary(plan, cncs, t), |cncs|)
  {
    MembersMeaning(plan, cncs, t.id);
  }

  lemma {:induction false} CandidatesPrefix(plan: Plan, cncs: seq<CNC>, ts: seq<Target>, n: nat)
    requires n <= |ts|
    ensures CandidatesOf(plan, cncs, ts[..n]) <= CandidatesOf(plan, cncs, ts)
  {
    if n < |ts| {
      CandidatesPrefix(plan, cncs, ts[..|ts| - 1], n);
      assert ts[..|ts| - 1][..n] == ts[..n];
    } else {
      assert ts[..n] == ts;
    }
  }

  lemma {:induction false} OutdatedPrefix(gvr: string, cncs: seq<CNC>, t: Target, indexes: seq<int>, n: nat)
    requires HasHash(t) && InRange(indexes, |cncs|) && n <= |indexes|
    ensures Outdated(gvr, cncs, t, indexes[..n]) <= Outdated(gvr, cncs, t, indexes)
  {
    if n < |indexes| {
      OutdatedPrefix(gvr, cncs, t, indexes[..|indexes| - 1], n);
      assert indexes[..|indexes| - 1][..n] == indexes[..n];
    } else {
      assert indexes[..n] == indexes;
    }
  }

  /** The tokens ran out at the candidate after `tasks`, or every candidate got one. */
  ghost predicate Granted(candidates: seq<Task>, tasks: seq<Task>, limited: bool, allow: nat -> bool) {
    && tasks <= candidates
    && (forall i :: 0 <= i < |tasks| ==> allow(i))
    && (limited <==> tasks != candidates)
    && (limited ==> !allow(|tasks|))
  }

  /** The updates of one target, until the limiter refuses; `used` tokens are already spent. */
  method CollectTargetTasks(gvr: string, cncs: seq<CNC>, t: Target, canary: seq<int>, used: nat, allow: nat -> bool)
    returns (tasks: seq<Task>, limited: bool)
    requires HasHash(t) && InRange(canary, |cncs|)
    ensures tasks <= Outdated(gvr, cncs, t, canary)
    ensures limited <==> tasks != Outdated(gvr, cncs, t, canary)
    ensures forall n :: used <= n < used + |tasks| ==> allow(n)
    ensures limited ==> !allow(used + |tasks|)
  {
    tasks := [];
    for j := 0 to |canary|
      invariant tasks == Outdated(gvr, cncs, t, canary[..j])
      invariant forall n :: used <= n < used + |tasks| ==> allow(n)
    {
      assert canary[..j + 1][..j] == canary[..j];
      var updated := IsCNCUpdated(cncs[canary[j]], gvr, t.id, t.hash.value);
      if !updated {
        if !allow(used + |tasks|) {
          OutdatedPrefix(gvr, cncs, t, canary, j + 1);
          return tasks, true;
        }
        tasks := tasks + [Task(t, canary[j])];
      }
    }
    assert canary[..|canary|] == canary;
    return tasks, false;
  }

  lemma CandidatesStep(plan: Plan, cncs: seq<CNC>, ts: seq<Target>, i: nat)
    requires i < |ts|
    ensures CandidatesOf(plan, cncs, ts[..i + 1]) == CandidatesOf(plan, cncs, ts[..i]) + TargetTasks(plan, cncs, ts[i])
    ensures CandidatesOf(plan, cncs, ts[..i + 1]) <= CandidatesOf(plan, cncs, ts)
  {
    assert ts[..i + 1][..i] == ts[..i];
    CandidatesPrefix(plan, cncs, ts, i + 1);
  }

  ghost predicate AllAllowed(n: nat, allow: nat -> bool) {
    forall i :: 0 <= i < n ==> allow(i)
  }

  lemma GrantedShort(used: seq<Task>, more: seq<Task>, full: seq<Task>, candidates: seq<Task>, allow: nat -> bool)
    requires used + full <= candidates && more <= full && more != full
    requires AllAllowed(|used|, allow) && forall n :: |used| <= n < |used| + |more| ==> allow(n)
    requires !allow(|used| + |more|)
    ensures Granted(candidates, used + more, true, allow)
  {
    assert used + more <= used + full;
  }

  /** The updates a target contributes, read off the prepared maps. */
  lemma SliceTasks(plan: Plan, cncs: seq<CNC>, groups: map<Key, seq<int>>, cutoffs: map<Key, int>, t: Target)
    requires TargetPrepared(plan, cncs, groups, cutoffs, t) && !t.paused
    ensures 0 <= cutoffs[t.id] <= |GroupOf(groups, t.id)| && InRange(GroupOf(groups, t.id)[..cutoffs[t.id]], |cncs|)
    ensures TargetTasks(plan, cncs, t) == Outdated(plan.gvr, cncs, t, GroupOf(groups, t.id)[..cutoffs[t.id]])
  {
    CanarySlice(plan, cncs, groups, cutoffs, t);
  }

  /** Add the updates of one unpaused target to those already collected. */
  method CollectNext(gvr: string, cncs: seq<CNC>, t: Target, canary: seq<int>, collected: seq<Task>,
                     ghost candidates: seq<Task>, allow: nat -> bool)
    returns (tasks: seq<Task>, limited: bool)
    requires HasHash(t) && InRange(canary, |cncs|)
    requires collected + Outdated(gvr, cncs, t, canary) <= candidates && AllAllowed(|collected|, allow)
    ensures limited ==> Granted(candidates, tasks, true, allow)
    ensures !limited ==> tasks == collected + Outdated(gvr, cncs, t, canary) && AllAllowed(|tasks|, allow)
  {
    var more;
    more, limited := CollectTargetTasks(gvr, cncs, t, canary, |collected|, allow);
    tasks := collected + more;
    if limited { GrantedShort(collected, more, Outdated(gvr, cncs, t, canary), candidates, allow); }
  }

  method CollectTasks(plan: Plan, cncs: seq<CNC>, groups: map<Key, seq<int>>, managed: seq<Target>,
                      cutoffs: map<Key, int>,
                      allow: nat -> bool)
    returns (tasks: seq<Task>, limited: bool)
    requires forall t <- managed :: TargetPrepared(plan, cncs, groups, cutoffs, t)
    ensures Granted(CandidatesOf(plan, cncs, managed), tasks, limited, allow)
  {
    tasks, limited := [], false;
    for i := 0 to |managed|
      invariant tasks == CandidatesOf(plan, cncs, managed[..i]) && AllAllowed(|tasks|, allow)
    {
      var t := managed[i];
      CandidatesStep(plan, cncs, managed, i);
      if t.paused { continue; }
      SliceTasks(plan, cncs, groups, cutoffs, t);
      var canary := GroupOf(groups, t.id)[..cutoffs[t.id]];
      tasks, limited := CollectNext(plan.gvr, cncs, t, canary, tasks, CandidatesOf(plan, cncs, managed), allow);
      if limited { return; }
    }
    assert managed[..|managed|] == managed;
    limited := false;
  }

  // ---------------------------------------------------------------- patching the nodes

  lemma CandidatesRunnable(plan: Plan, cncs: seq<CNC>, tasks: seq<Task>)
    requires DistinctIds(plan.targets) && tasks <= Candidates(plan, cncs)
    ensures RunnableTasks(tasks, |cncs|)
    ensures forall x <- tasks :: Legitimate(plan, cncs, x)
  {
    CandidatesMeaning(plan, cncs);
    forall i | 0 <= i < |tasks| ensures Legitimate(plan, cncs, tasks[i]) {
      assert Candidates(plan, cncs)[i] == tasks[i];
    }
  }

  function AllOf(n: nat): (s: set<nat>)
    ensures forall i: nat :: i in s <==> i < n
  {
    if n == 0 then {} else AllOf(n - 1) + {n - 1}
  }

  /** One more task finished: its slot was untouched until now, and only its slot changes. */
  lemma OutcomeStep(gvr: string, before: seq<CNC>, now: seq<CNC>, next: seq<CNC>, tasks: seq<Task>, done: set<nat>,
                    ok: nat -> bool, i: nat)
    requires RunnableTasks(tasks, |before|) && IsOutcome(gvr, before, now, tasks, done, ok)
    requires i < |tasks| && i !in done
    requires next == if ok(i) then now[tasks[i].index := Applied(now[tasks[i].index], ConfigFor(gvr, tasks[i].target))]
             else now
    ensures IsOutcome(gvr, before, next, tasks, done + {i}, ok)
  {
    forall j | 0 <= j < |tasks| && j != i ensures next[tasks[j].index] == now[tasks[j].index] {
      if j < i { assert tasks[j].index != tasks[i].index; } else { assert tasks[i].index != tasks[j].index; }
    }
  }

  /** Apply a configuration to its CNC and keep the result if it is accepted. */
  method PatchOne(gvr: string, x: Task, allCNCs: array<CNC>, accepted: bool)
    requires 0 <= x.index < allCNCs.Length && HasHash(x.target)
    modifies allCNCs
    ensures allCNCs[..] == if accepted
            then old(allCNCs[..])[x.index := Applied(old(allCNCs[..])[x.index], ConfigFor(gvr, x.target))]
                           else old(allCNCs[..])
  {
    var newCNC := ApplyKCCTargetConfigToCNC(allCNCs[x.index], gvr, x.target.id, x.target.hash.value);
    if accepted {
      allCNCs[x.index] := newCNC;
    }
  }

  /** Run all updates in any order. `ok(i)` says whether the patch of task `i` is accepted. */
  method PatchAll(gvr: string, tasks: seq<Task>, allCNCs: array<CNC>, ok: nat -> bool) returns (failed: nat)
    requires RunnableTasks(tasks, allCNCs.Length)
    modifies allCNCs
    ensures IsOutcome(gvr, old(allCNCs[..]), allCNCs[..], tasks, AllOf(|tasks|), ok)
    ensures failed == 0 <==> AllAllowed(|tasks|, ok)
  {
    failed := 0;
    var todo := AllOf(|tasks|);
    ghost var before, done := allCNCs[..], {};
    assert IsOutcome(gvr, before, before, tasks, {}, ok);
    hide IsOutcome, Applied, RunnableTasks;
    while todo != {}
      invariant todo !! done && todo + done == AllOf(|tasks|)
      invariant IsOutcome(gvr, before, allCNCs[..], tasks, done, ok)
      invariant failed == 0 <==> AllIn(done, ok)
    {
      var i :| i in todo;
      ghost var now := allCNCs[..];
      Runnable(tasks, allCNCs.Length, i);
      PatchOne(gvr, tasks[i], allCNCs, ok(i));
      if !ok(i) { failed := failed + 1; }
      OutcomeStep(gvr, before, now, allCNCs[..], tasks, done, ok, i);
      todo, done := todo - {i}, done + {i};
    }
    assert done == AllOf(|tasks|);
  }

  ghost predicate AllIn(done: set<nat>, ok: nat -> bool) {
    forall i <- done :: ok(i)
  }

  lemma Runnable(tasks: seq<Task>, n: nat, i: nat)
    requires RunnableTasks(tasks, n) && i < |tasks|
    ensures 0 <= tasks[i].index < n && HasHash(tasks[i].target)
  {
  }

  // ---------------------------------------------------------------- statuses

  datatype Status = Status(targetNodes: int, canaryNodes: int, updatedTargetNodes: int, updatedNodes: int, hash: string)

  ghost function UpdatedNodes(gvr: string, cncs: seq<CNC>, t: Target): set<int>
    requires HasHash(t)
  {
    set i | 0 <= i < |cncs| && HasConfig(cncs[i], ConfigFor(gvr, t))
  }

  ghost predicate StatusOf(plan: Plan, before: seq<CNC>, after: seq<CNC>, t: Target, s: Status)
    requires HasHash(t)
  {
    var members := Members(plan, before, t.id);
    && s.targetNodes == |members|
    && s.canaryNodes == |Canary(plan, before, t)|
    && s.updatedTargetNodes == |UpdatedNodes(plan.gvr, after, t) * Elements(members)|
    && s.updatedNodes == |UpdatedNodes(plan.gvr, after, t)|
    && s.hash == t.hash.value
  }

  method CountUpdated(gvr: string, cncs: seq<CNC>, t: Target, members: seq<int>) returns (updatedTarget: nat,
                      updated: nat)
    requires HasHash(t)
    ensures updatedTarget == |UpdatedNodes(gvr, cncs, t) * Elements(members)|
    ensures updated == |UpdatedNodes(gvr, cncs, t)|
  {
    updatedTarget, updated := 0, 0;
    var memberSet := Elements(members);
    assert UpdatedNodes(gvr, cncs[..0], t) == {};
    hide UpdatedNodes, Elements;
    for i := 0 to |cncs|
      invariant updated == |UpdatedNodes(gvr, cncs[..i], t)|
      invariant updatedTarget == |UpdatedNodes(gvr, cncs[..i], t) * memberSet|
    {
      UpdatedStep(gvr, cncs, t, i, memberSet);
      var isUpdated := IsCNCUpdated(cncs[i], gvr, t.id, t.hash.value);
      if isUpdated {
        updated := updated + 1;
        if i in memberSet { updatedTarget := updatedTarget + 1; }
      }
    }
    assert cncs[..|cncs|] == cncs;
  }

  lemma UpdatedStep(gvr: string, cncs: seq<CNC>, t: Target, i: nat, members: set<int>)
    requires HasHash(t) && i < |cncs|
    ensures
      var was, now := UpdatedNodes(gvr, cncs[..i], t), UpdatedNodes(gvr, cncs[..i + 1], t);
      if HasConfig(cncs[i], ConfigFor(gvr, t))
      then |now| == |was| + 1 && |now * members| == |was * members| + if i in members then 1 else 0
      else now == was
  {
    hide HasConfig, ConfigFor;
    var a, b, c := cncs[..i], cncs[..i + 1], ConfigFor(gvr, t);
    var was, now := UpdatedNodes(gvr, a, t), UpdatedNodes(gvr, b, t);
    assert b[i] == cncs[i] && forall j :: 0 <= j < i ==> a[j] == b[j];
    forall j ensures j in now <==> j in was || (j == i && HasConfig(cncs[i], c)) {}
    if HasConfig(cncs[i], c) {
      assert now == was + {i};
      AddOne(was, now, i, members);
    } else {
      assert now == was;
    }
  }

  lemma AddOne(was: set<int>, now: set<int>, i: int, members: set<int>)
    requires i !in was && now == was + {i}
    ensures |now| == |was| + 1 && |now * members| == |was * members| + if i in members then 1 else 0
  {
    if i in members {
      assert now * members == was * members + {i};
    } else {
      assert now * members == was * members;
    }
  }

  /** Counts are consistent in every status ever reported. */
  lemma StatusConsistent(plan: Plan, before: seq<CNC>, after: seq<CNC>, t: Target, s: Status)
    requires HasHash(t) && StatusOf(plan, before, after, t, s)
    ensures 0 <= s.updatedTargetNodes <= s.targetNodes
    ensures s.updatedTargetNodes <= s.updatedNodes
    ensures 0 <= s.canaryNodes <= s.targetNodes
  {
    var members := Members(plan, before, t.id);
    var updated := UpdatedNodes(plan.gvr, after, t);
    MembersMeaning(plan, before, t.id);
    DistinctCard(members);
    SubsetCard(updated * Elements(members), Elements(members));
    SubsetCard(updated * Elements(members), updated);
  }

  lemma SubsetCard<T>(a: set<T>, b: set<T>)
    requires a <= b
    ensures |a| <= |b|
  {
    assert b == a + (b - a);
  }

  // ---------------------------------------------------------------- the pass

  function NameKey(cnc: CNC): Key {
    Key("", cnc.id.name)
  }

  method Prepare(plan: Plan, cncs: seq<CNC>)
    returns (groups: map<Key, seq<int>>, managed: seq<Target>, cutoffs: map<Key, int>, unmatched: seq<CNC>)
    requires DistinctIds(plan.targets)
    ensures Prepared(plan, cncs, groups, managed, cutoffs)
    ensures forall cnc :: cnc in unmatched <==> cnc in cncs && IsUnmatched(plan, cnc)
  {
    groups, unmatched := GroupCNCsByKCCT(plan, cncs);
    var hashed := GenerateConfigHashes(plan.targets);
    FilterKeepsDistinctIds(plan.targets, HasHash);
    managed, cutoffs := ComputeCanaryCutoffPoints(hashed, groups);
    forall t: Target
      ensures CutoffFor(t.canary, |GroupOf(groups, t.id)|) == CutoffFor(t.canary, |Members(plan, cncs, t.id)|)
    {
      assert GroupOf(groups, t.id) == Members(plan, cncs, t.id);
    }
    SameFilter(hashed, HasCutoff(groups), (t: Target) => Cuttable(plan, cncs, t));
    ManagedMeaning(plan, cncs);
  }

  /** One pass from `before` to `after`: `tasks` were granted a token, `ok(i)` of them accepted. */
  ghost predicate Pass(plan: Plan, before: seq<CNC>, after: seq<CNC>, tasks: seq<Task>, limited: bool,
                       allow: nat -> bool, ok: nat -> bool)
  {
    && Granted(Candidates(plan, before), tasks, limited, allow)
    && RunnableTasks(tasks, |before|)
    && IsOutcome(plan.gvr, before, after, tasks, AllOf(|tasks|), ok)
  }

  /** The updates that were accepted and finished before the workers stopped. */
  ghost function Finished(ok: nat -> bool, events: seq<Event>): nat -> bool {
    (i: nat) => ok(i) && i in Written(events)
  }

  /** Any interleaving of the workers, cut short or not, is a pass in which exactly the finished
      updates count as accepted. */
  lemma InterleavedIsPass(plan: Plan, before: seq<CNC>, tasks: seq<Task>, limited: bool, allow: nat -> bool,
                          ok: nat -> bool, events: seq<Event>)
    requires Granted(Candidates(plan, before), tasks, limited, allow)
    requires RunnableTasks(tasks, |before|) && Schedule(events, |tasks|)
    ensures Pass(plan, before, Run(plan.gvr, tasks, ok, before, events).cncs, tasks, limited, allow,
            Finished(ok, events))
  {
    hide Granted, Run, Schedule;
    RunMeaning(plan.gvr, tasks, ok, before, events);
  }

  method ManageCNCs(plan: Plan, listing: seq<CNC>, allow: nat -> bool, ok: nat -> bool)
    returns (before: seq<CNC>, after: seq<CNC>, tasks: seq<Task>, limited: bool, statuses: map<Key, Status>)
    requires DistinctIds(plan.targets)
    ensures before == SortByKey(listing, NameKey)
    ensures Pass(plan, before, after, tasks, limited, allow, ok)
    ensures forall t <- Managed(plan, before) :: Reported(plan, before, after, statuses, t)
  {
    before := SortByKey(listing, NameKey);
    var allCNCs := new CNC[|before|](i requires 0 <= i < |before| => before[i]);
    assert allCNCs[..] == before;
    var groups, managed, cutoffs, unmatched := Prepare(plan, before);
    tasks, limited := CollectTasks(plan, before, groups, managed, cutoffs, allow);
    CandidatesRunnable(plan, before, tasks);
    var failed := PatchAll(plan.gvr, tasks, allCNCs, ok);
    after := allCNCs[..];
    ManagedMeaning(plan, before);
    statuses := UpdateTargetStatuses(plan, before, after, groups, managed, cutoffs);
  }

  method TargetStatus(plan: Plan, before: seq<CNC>, after: seq<CNC>, groups: map<Key, seq<int>>,
                      cutoffs: map<Key, int>, t: Target)
    returns (status: Status)
    requires TargetPrepared(plan, before, groups, cutoffs, t)
    ensures StatusOf(plan, before, after, t, status)
  {
    var members := GroupOf(groups, t.id);
    CanarySlice(plan, before, groups, cutoffs, t);
    var updatedTarget, updated := CountUpdated(plan.gvr, after, t, members);
    status := Status(|members|, cutoffs[t.id], updatedTarget, updated, t.hash.value);
  }

  ghost predicate Reported(plan: Plan, before: seq<CNC>, after: seq<CNC>, statuses: map<Key, Status>, t: Target) {
    HasHash(t) && t.id in statuses && StatusOf(plan, before, after, t, statuses[t.id])
  }

  method UpdateTargetStatuses(plan: Plan, before: seq<CNC>, after: seq<CNC>, groups: map<Key, seq<int>>,
                              managed: seq<Target>, cutoffs: map<Key, int>)
    returns (statuses: map<Key, Status>)
    requires DistinctIds(managed) && forall t <- managed :: TargetPrepared(plan, before, groups, cutoffs, t)
    ensures forall t <- managed :: Reported(plan, before, after, statuses, t)
  {
    statuses := map[];
    for i := 0 to |managed|
      invariant forall j :: 0 <= j < i ==> Reported(plan, before, after, statuses, managed[j])
    {
      var t := managed[i];
      var status := TargetStatus(plan, before, after, groups, cutoffs, t);
      ghost var was := statuses;
      statuses := statuses[t.id := status];
      forall j | 0 <= j < i ensures Reported(plan, before, after, statuses, managed[j]) {
        assert Reported(plan, before, after, was, managed[j]) && managed[j].id != t.id;
      }
    }
  }
}
