/** The parallel part of a rollout pass (pkg/controller/kcc/kcct.go, lines 641-661). Workers share
    the slice of nodes: each task reads its slot, patches the node, and writes the slot back. The
    reads and writes of different tasks may interleave in any order, and a cancelled pass may leave
    tasks undone. */
module RolloutSchedule {
  import opened Keys
  import opened Cnc
  import opened Rollout

  datatype Event = Read(task: nat) | Write(task: nat)

  /** The shared slice, and what each task has read. */
  datatype Exec = Exec(cncs: seq<CNC>, held: map<nat, CNC>)

  ghost predicate RunnableTasks(tasks: seq<Task>, n: nat) {
    && DistinctIndexes(tasks)
    && forall i :: 0 <= i < |tasks| ==> HasHash(tasks[i].target) && 0 <= tasks[i].index < n
  }

  /** `ok(i)` says whether the API server accepts the patch of task `i`. */
  ghost function Step(gvr: string, tasks: seq<Task>, ok: nat -> bool, s: Exec, e: Event): (s': Exec)
    requires RunnableTasks(tasks, |s.cncs|) && e.task < |tasks|
    ensures |s'.cncs| == |s.cncs|
  {
    var x := tasks[e.task];
    match e
    case Read(i) => s.(held := s.held[i := s.cncs[x.index]])
    case Write(i) =>
      if i in s.held && ok(i)
      then s.(cncs := s.cncs[x.index := Applied(s.held[i], ConfigFor(gvr, x.target))])
      else s
  }

  ghost function Run(gvr: string, tasks: seq<Task>, ok: nat -> bool, cncs: seq<CNC>, events: seq<Event>): (s: Exec)
    requires RunnableTasks(tasks, |cncs|) && forall p :: 0 <= p < |events| ==> events[p].task < |tasks|
    ensures |s.cncs| == |cncs|
  {
    if events == [] then Exec(cncs, map[])
    else Step(gvr, tasks, ok, Run(gvr, tasks, ok, cncs, events[..|events| - 1]), events[|events| - 1])
  }

  /** Each task reads at most once, writes at most once, and writes only after it has read. */
  ghost predicate Schedule(events: seq<Event>, n: nat) {
    && Distinct(events)
    && (forall p :: 0 <= p < |events| ==> events[p].task < n)
    && (forall p :: 0 <= p < |events| && events[p].Write? ==> Read(events[p].task) in events[..p])
  }

  ghost function Written(events: seq<Event>): set<nat> {
    set e <- events | e.Write? :: e.task
  }

  /** The slice after the updates in `done` have run: each accepted task has applied its target's
      configuration to the node as it was before the pass, and nothing else has changed. */
  ghost predicate IsOutcome(gvr: string, before: seq<CNC>, after: seq<CNC>, tasks: seq<Task>, done: set<nat>,
                            ok: nat -> bool)
    requires RunnableTasks(tasks, |before|)
  {
    && |after| == |before|
    && (forall i :: 0 <= i < |tasks| ==>
          after[tasks[i].index] ==
          if i in done && ok(i) then Applied(before[tasks[i].index], ConfigFor(gvr, tasks[i].target))
          else before[tasks[i].index])
    && (forall j :: 0 <= j < |before| && (forall i :: 0 <= i < |tasks| ==> tasks[i].index != j) ==>
      after[j] == before[j])
  }

  lemma OutcomeUnique(gvr: string, before: seq<CNC>, a: seq<CNC>, b: seq<CNC>, tasks: seq<Task>, done: set<nat>,
                      ok: nat -> bool)
    requires RunnableTasks(tasks, |before|)
    requires IsOutcome(gvr, before, a, tasks, done, ok) && IsOutcome(gvr, before, b, tasks, done, ok)
    ensures a == b
  {
    forall j | 0 <= j < |before| ensures a[j] == b[j] {
      if i :| 0 <= i < |tasks| && tasks[i].index == j { }
    }
  }

  lemma SchedulePrefix(events: seq<Event>, n: nat)
    requires Schedule(events, n) && events != []
    ensures Schedule(events[..|events| - 1], n)
  {
    var init := events[..|events| - 1];
    forall p | 0 <= p < |init| && init[p].Write? ensures Read(init[p].task) in init[..p] {
      assert init[..p] == events[..p];
    }
  }

  /** A task that has read but not written still finds its slot as it was, because no other task
      owns it. */
  ghost predicate Undisturbed(gvr: string, tasks: seq<Task>, ok: nat -> bool, cncs: seq<CNC>, events: seq<Event>,
                              s: Exec)
    requires RunnableTasks(tasks, |cncs|)
  {
    && IsOutcome(gvr, cncs, s.cncs, tasks, Written(events), ok)
    && forall i: nat :: i < |tasks| && Read(i) in events ==> i in s.held && s.held[i] == cncs[tasks[i].index]
  }

  lemma StepRead(gvr: string, tasks: seq<Task>, ok: nat -> bool, cncs: seq<CNC>, init: seq<Event>, s: Exec, i: nat)
    requires RunnableTasks(tasks, |cncs|) && Undisturbed(gvr, tasks, ok, cncs, init, s)
    requires i < |tasks| && i !in Written(init)
    ensures Undisturbed(gvr, tasks, ok, cncs, init + [Read(i)], Step(gvr, tasks, ok, s, Read(i)))
  {
    assert Written(init + [Read(i)]) == Written(init);
  }

  lemma StepWrite(gvr: string, tasks: seq<Task>, ok: nat -> bool, cncs: seq<CNC>, init: seq<Event>, s: Exec, i: nat)
    requires RunnableTasks(tasks, |cncs|) && Undisturbed(gvr, tasks, ok, cncs, init, s)
    requires i < |tasks| && Read(i) in init && i !in Written(init)
    ensures Undisturbed(gvr, tasks, ok, cncs, init + [Write(i)], Step(gvr, tasks, ok, s, Write(i)))
  {
    assert Written(init + [Write(i)]) == Written(init) + {i};
    var s' := Step(gvr, tasks, ok, s, Write(i));
    forall j | 0 <= j < |tasks| && j != i ensures s'.cncs[tasks[j].index] == s.cncs[tasks[j].index] {
      if j < i { assert tasks[j].index != tasks[i].index; } else { assert tasks[i].index != tasks[j].index; }
    }
  }

  lemma {:induction false} RunMeaning(gvr: string, tasks: seq<Task>, ok: nat -> bool, cncs: seq<CNC>,
                                      events: seq<Event>)
    requires RunnableTasks(tasks, |cncs|) && Schedule(events, |tasks|)
    ensures Undisturbed(gvr, tasks, ok, cncs, events, Run(gvr, tasks, ok, cncs, events))
  {
    if events == [] { return; }
    var init, e := events[..|events| - 1], events[|events| - 1];
    SchedulePrefix(events, |tasks|);
    RunMeaning(gvr, tasks, ok, cncs, init);
    assert events == init + [e] && e !in init;
    if e.Read? {
      if e.task in Written(init) { ReadBefore(init, |tasks|, e.task); }
      StepRead(gvr, tasks, ok, cncs, init, Run(gvr, tasks, ok, cncs, init), e.task);
    } else {
      assert Write(e.task) !in init;
      StepWrite(gvr, tasks, ok, cncs, init, Run(gvr, tasks, ok, cncs, init), e.task);
    }
  }

  lemma ReadBefore(events: seq<Event>, n: nat, i: nat)
    requires Schedule(events, n) && i in Written(events)
    ensures Read(i) in events
  {
    var p :| 0 <= p < |events| && events[p] == Write(i);
    assert Read(i) in events[..p];
  }

  /** Whatever the interleaving, the same finished tasks leave the same slice. */
  lemma EveryInterleavingAgrees(gvr: string, tasks: seq<Task>, ok: nat -> bool, cncs: seq<CNC>,
                                events: seq<Event>, events': seq<Event>)
    requires RunnableTasks(tasks, |cncs|)
    requires Schedule(events, |tasks|) && Schedule(events', |tasks|) && Written(events) == Written(events')
    ensures Run(gvr, tasks, ok, cncs, events).cncs == Run(gvr, tasks, ok, cncs, events').cncs
  {
    RunMeaning(gvr, tasks, ok, cncs, events);
    RunMeaning(gvr, tasks, ok, cncs, events');
    OutcomeUnique(gvr, cncs, Run(gvr, tasks, ok, cncs, events).cncs, Run(gvr, tasks, ok, cncs, events').cncs,
                  tasks, Written(events), ok);
  }
}
