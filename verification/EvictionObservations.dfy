/** When eviction thresholds were first met and conditions last seen
    (pkg/agent/evictionmanager/manager.go, lines 393-448 and 765-838), over every run of syncs. */
module EvictionObservations {

  datatype MetType = NotMet | SoftMet | HardMet

  /** A plugin's answer to "is your threshold met?"; `text` stands for its measured values. */
  datatype Threshold = Threshold(metType: MetType, gracePeriodSeconds: int, scope: string, text: string)

  datatype ConditionType = NodeCondition | CnrCondition

  datatype Condition = Condition(name: string, kind: ConditionType, effects: seq<string>, met: bool)

  /** Times are nanoseconds. */
  datatype ThresholdAt = ThresholdAt(threshold: Threshold, at: int)

  datatype ConditionAt = ConditionAt(condition: Condition, at: int)

  type Thresholds = map<string, Threshold>
  type ThresholdsAt = map<string, ThresholdAt>
  type Conditions = map<string, Condition>
  type ConditionsAt = map<string, ConditionAt>

  const NANOSECONDS := 1_000_000_000

  // ---------------------------------------------------------------- one sync

  function FirstObserved(met: Thresholds, last: ThresholdsAt, now: int): ThresholdsAt {
    map p <- met :: ThresholdAt(met[p], if p in last then last[p].at else now)
  }

  predicate PastGrace(o: ThresholdAt, now: int) {
    now - o.at >= o.threshold.gracePeriodSeconds * NANOSECONDS
  }

  function MetGracePeriod(observed: ThresholdsAt, now: int): Thresholds {
    map p <- observed | PastGrace(observed[p], now) :: observed[p].threshold
  }

  function LastObserved(seen: Conditions, last: ConditionsAt, now: int): ConditionsAt {
    last + map c <- seen :: ConditionAt(seen[c], now)
  }

  function ObservedSince(observed: ConditionsAt, period: int, now: int): Conditions {
    map c <- observed | now - observed[c].at < period :: observed[c].condition
  }

  method ThresholdsFirstObservedAt(met: Thresholds, last: ThresholdsAt, now: int) returns (results: ThresholdsAt)
    ensures results == FirstObserved(met, last, now)
  {
    results := map[];
    var todo := met.Keys;
    while todo != {}
      invariant todo <= met.Keys && results.Keys == met.Keys - todo
      invariant forall p <- results :: results[p] == FirstObserved(met, last, now)[p]
    {
      var p :| p in todo;
      todo := todo - {p};
      var observed := if p in last then last[p].(threshold := met[p]) else ThresholdAt(met[p], now);
      results := results[p := observed];
    }
  }

  method ThresholdsMetGracePeriod(observed: ThresholdsAt, now: int) returns (results: Thresholds)
    ensures results == MetGracePeriod(observed, now)
  {
    results := map[];
    var todo := observed.Keys;
    while todo != {}
      invariant todo <= observed.Keys
      invariant results == map p <- observed | p !in todo && PastGrace(observed[p], now) :: observed[p].threshold
    {
      var p :| p in todo;
      todo := todo - {p};
      if now - observed[p].at < observed[p].threshold.gracePeriodSeconds * NANOSECONDS { continue; }
      results := results[p := observed[p].threshold];
    }
  }

  method ConditionsLastObservedAt(seen: Conditions, last: ConditionsAt, now: int) returns (results: ConditionsAt)
    ensures results == LastObserved(seen, last, now)
  {
    results := map[];
    var todo := seen.Keys;
    while todo != {}
      invariant todo <= seen.Keys
      invariant results == map c <- seen | c !in todo :: ConditionAt(seen[c], now)
    {
      var c :| c in todo;
      todo := todo - {c};
      results := results[c := ConditionAt(seen[c], now)];
    }
    results := AddUnseen(results, last);
  }

  /** Conditions not seen now keep their old time. */
  method AddUnseen(current: ConditionsAt, last: ConditionsAt) returns (results: ConditionsAt)
    ensures results == last + current
  {
    results := current;
    var todo := last.Keys;
    while todo != {}
      invariant todo <= last.Keys
      invariant results == (map c <- last | c !in todo :: last[c]) + current
    {
      var c :| c in todo;
      todo := todo - {c};
      if c !in results {
        results := results[c := last[c]];
      }
    }
  }

  method ConditionsObservedSince(observed: ConditionsAt, period: int, now: int) returns (results: Conditions)
    ensures results == ObservedSince(observed, period, now)
  {
    results := map[];
    var todo := observed.Keys;
    while todo != {}
      invariant todo <= observed.Keys
      invariant results == map c <- observed | c !in todo && now - observed[c].at < period :: observed[c].condition
    {
      var c :| c in todo;
      todo := todo - {c};
      if now - observed[c].at < period {
        results := results[c := observed[c].condition];
      }
    }
  }

  // ---------------------------------------------------------------- runs

  /** What one sync collected, and when. */
  datatype Sync = Sync(now: int, met: Thresholds, seen: Conditions)

  datatype State = State(thresholds: ThresholdsAt, conditions: ConditionsAt)

  function Next(s: State, sync: Sync): State {
    State(FirstObserved(sync.met, s.thresholds, sync.now), LastObserved(sync.seen, s.conditions, sync.now))
  }

  function After(h: seq<Sync>): State {
    if h == [] then State(map[], map[]) else Next(After(h[..|h| - 1]), h[|h| - 1])
  }

  predicate Monotone(h: seq<Sync>) {
    forall i, j :: 0 <= i <= j < |h| ==> h[i].now <= h[j].now
  }

  /** The plugin's threshold was met at every sync from `j` on. */
  predicate MetSince(h: seq<Sync>, p: string, j: int) {
    0 <= j < |h| && forall k :: j <= k < |h| ==> p in h[k].met
  }

  /** `j` is the first sync of the streak that reaches the end. */
  predicate StreakStart(h: seq<Sync>, p: string, j: int) {
    MetSince(h, p, j) && (j > 0 ==> p !in h[j - 1].met)
  }

  /** `j` is the latest sync that saw the condition. */
  predicate LatestSight(h: seq<Sync>, c: string, j: int) {
    0 <= j < |h| && c in h[j].seen && forall k :: j < k < |h| ==> c !in h[k].seen
  }

  lemma StreakExtends(h: seq<Sync>, s: Sync, p: string, j: int)
    requires StreakStart(h, p, j) && p in s.met
    ensures StreakStart(h + [s], p, j)
  {
  }

  lemma StreakBegins(h: seq<Sync>, s: Sync, p: string)
    requires p in s.met && (h != [] ==> p !in h[|h| - 1].met)
    ensures StreakStart(h + [s], p, |h|)
  {
  }

  /** The stored thresholds are those met at the latest sync, each stamped with the first sync of its
      unbroken streak. */
  lemma {:induction false} ThresholdStamps(h: seq<Sync>)
    requires h != []
    ensures After(h).thresholds.Keys == h[|h| - 1].met.Keys
    ensures forall p <- After(h).thresholds :: After(h).thresholds[p].threshold == h[|h| - 1].met[p]
    ensures forall p <- After(h).thresholds :: exists j :: StreakStart(h, p, j) && After(h).thresholds[p].at == h[j].now
  {
    var init, s := h[..|h| - 1], h[|h| - 1];
    assert h == init + [s];
    if init == [] {
    } else {
      ThresholdStamps(init);
    }
    forall p <- After(h).thresholds ensures exists j :: StreakStart(h, p, j) && After(h).thresholds[p].at == h[j].now {
      if init != [] && p in init[|init| - 1].met {
        var j :| StreakStart(init, p, j) && After(init).thresholds[p].at == init[j].now;
        StreakExtends(init, s, p, j);
        assert StreakStart(h, p, j) && h[j] == init[j];
      } else {
        StreakBegins(init, s, p);
        assert StreakStart(h, p, |init|) && h[|init|] == s;
        assert p !in After(init).thresholds;
      }
    }
  }

  lemma StreakUnique(h: seq<Sync>, p: string, i: int, j: int)
    requires StreakStart(h, p, i) && MetSince(h, p, j)
    ensures i <= j
  {
  }

  /** With a clock that does not go back, a plugin is asked for pods exactly if its threshold was met
      at every sync of some window that is at least the grace period long. */
  lemma AskedIffMetForGrace(h: seq<Sync>, p: string)
    requires h != [] && Monotone(h)
    ensures
      var last := h[|h| - 1];
      p in MetGracePeriod(After(h).thresholds, last.now)
      <==> exists j :: MetSince(h, p, j) && last.now - h[j].now >= last.met[p].gracePeriodSeconds * 1_000_000_000
  {
    ThresholdStamps(h);
    var last := h[|h| - 1];
    if p in last.met {
      var i :| StreakStart(h, p, i) && After(h).thresholds[p].at == h[i].now;
      forall j | MetSince(h, p, j) ensures h[i].now <= h[j].now { StreakUnique(h, p, i, j); }
    }
  }

  lemma LatestSightExtends(h: seq<Sync>, s: Sync, c: string, j: int)
    requires LatestSight(h, c, j) && c !in s.seen
    ensures LatestSight(h + [s], c, j)
  {
  }

  /** Every condition ever seen is stored with its latest sight. */
  lemma {:induction false} ConditionStamps(h: seq<Sync>, c: string)
    ensures c in After(h).conditions <==> exists j :: 0 <= j < |h| && c in h[j].seen
    ensures c in After(h).conditions ==>
              exists j :: LatestSight(h, c, j) && After(h).conditions[c] == ConditionAt(h[j].seen[c], h[j].now)
  {
    if h == [] {
    } else {
      var init, s := h[..|h| - 1], h[|h| - 1];
      assert h == init + [s];
      ConditionStamps(init, c);
      if c in s.seen {
        assert LatestSight(h, c, |init|);
      } else if c in After(init).conditions {
        var j :| LatestSight(init, c, j) && After(init).conditions[c] == ConditionAt(init[j].seen[c], init[j].now);
        LatestSightExtends(init, s, c, j);
        assert h[j] == init[j];
      }
    }
  }

  /** A condition is reported exactly if its latest sight is younger than the transition period, with
      the content of that sight. */
  lemma ReportedIffRecent(h: seq<Sync>, c: string, period: int, now: int)
    ensures
      var reported := ObservedSince(After(h).conditions, period, now);
      && (c in reported <==> exists j :: LatestSight(h, c, j) && now - h[j].now < period)
      && (c in reported ==> exists j :: LatestSight(h, c, j) && reported[c] == h[j].seen[c])
  {
    ConditionStamps(h, c);
    if c in After(h).conditions {
      var i :| LatestSight(h, c, i) && After(h).conditions[c] == ConditionAt(h[i].seen[c], h[i].now);
      forall j | LatestSight(h, c, j) ensures j == i { SameSight(h, c, i, j); }
    }
  }

  lemma SameSight(h: seq<Sync>, c: string, i: int, j: int)
    requires LatestSight(h, c, i) && LatestSight(h, c, j)
    ensures i == j
  {
  }

  /** With a clock that does not go back, any sight within the period keeps the condition reported. */
  lemma RecentSightReported(h: seq<Sync>, c: string, period: int, now: int, i: int)
    requires Monotone(h) && 0 <= i < |h| && c in h[i].seen && now - h[i].now < period
    ensures c in ObservedSince(After(h).conditions, period, now)
  {
    ConditionStamps(h, c);
    var j :| LatestSight(h, c, j) && After(h).conditions[c] == ConditionAt(h[j].seen[c], h[j].now);
    assert i <= j;
  }
}
