/** One sync of the eviction manager: collecting the plugins' answers and choosing whom to evict
    (pkg/agent/evictionmanager/manager.go, lines 393-513, 536-566, 690-708 and 841-853). Plugin
    answers, pod validation, the eviction order and the clock are parameters. */
module EvictionManager {
  import opened Keys
  import opened Sorting
  import opened EvictionObservations
  import opened EvictionCollector
  import opened EvictionGrace

  // ---------------------------------------------------------------- whom to evict

  function Lower(s: string): string {
    seq(|s|, i requires 0 <= i < |s| => if 'A' <= s[i] <= 'Z' then s[i] - 'A' + 'a' else s[i])
  }

  predicate NotificationEnabled(pod: Pod) {
    pod.notification.Some? && Lower(pod.notification.value) == "true"
  }

  /** The annotation says "true" in any case. */
  predicate AsksNotice(pod: Pod) {
    && pod.notification.Some? && |pod.notification.value| == 4
    && pod.notification.value[0] in {'t', 'T'} && pod.notification.value[1] in {'r', 'R'}
    && pod.notification.value[2] in {'u', 'U'} && pod.notification.value[3] in {'e', 'E'}
  }

  lemma NoticeMeaning(pod: Pod)
    ensures NotificationEnabled(pod) <==> AsksNotice(pod)
  {
    if pod.notification.Some? && |pod.notification.value| == 4 {
      var s := Lower(pod.notification.value);
      assert s == "true" <==> s[0] == 't' && s[1] == 'r' && s[2] == 'u' && s[3] == 'e';
    }
  }

  /** The eviction order compares pods and the scopes they are evicted for. */
  datatype Candidate = Candidate(pod: Pod, scope: string)

  function ByCandidate(less: (Candidate, Candidate) -> bool): (Victim, Victim) -> bool {
    (a: Victim, b: Victim) => less(Candidate(a.pod, a.scope), Candidate(b.pod, b.scope))
  }

  /** Soft victims that are not forced already. */
  method FilterOutForced(soft: Victims, force: Victims) returns (ret: Victims)
    ensures ret == soft - force.Keys
  {
    ret := map[];
    var todo := soft.Keys;
    while todo != {}
      invariant todo <= soft.Keys
      invariant ret == (soft - force.Keys) - todo
    {
      var u :| u in todo;
      todo := todo - {u};
      if u in force { continue; }
      ret := ret[u := soft[u]];
    }
  }

  /** Victims filed under the UID of their pod. */
  ghost predicate ByUid(victims: Victims) {
    forall u <- victims :: victims[u].pod.uid == u
  }

  /** The list has exactly the victims that satisfy `keep`, one per pod. */
  ghost predicate ListsThose(list: seq<Victim>, victims: Victims, keep: Victim -> bool) {
    && (forall i, j :: 0 <= i < j < |list| ==> list[i].pod.uid != list[j].pod.uid)
    && (forall i :: 0 <= i < |list| ==>
          list[i].pod.uid in victims && victims[list[i].pod.uid] == list[i] && keep(list[i]))
    && (forall u <- victims :: keep(victims[u]) ==> victims[u] in list)
  }

  /** The victims that satisfy `keep`, in any order. */
  method ListVictims(victims: Victims, keep: Victim -> bool) returns (list: seq<Victim>)
    requires ByUid(victims)
    ensures ListsThose(list, victims, keep)
  {
    list := [];
    var todo := victims.Keys;
    while todo != {}
      invariant todo <= victims.Keys
      invariant ListsThose(list, victims - todo, keep)
    {
      var u :| u in todo;
      ghost var before := victims - todo;
      todo := todo - {u};
      assert victims - todo == before[u := victims[u]];
      if keep(victims[u]) {
        list := list + [victims[u]];
      }
    }
    assert victims - {} == victims;
  }

  function EligibleFor(validate: Pod -> bool): Victim -> bool {
    (v: Victim) => validate(v.pod) && !NotificationEnabled(v.pod)
  }

  function ValidFor(validate: Pod -> bool): Victim -> bool {
    (v: Victim) => validate(v.pod)
  }

  /** `best` is an eligible candidate that no other eligible one comes after. */
  ghost predicate LastInOrder(best: Victim, candidates: Victims, validate: Pod -> bool,
                              less: (Candidate, Candidate) -> bool) {
    && best.pod.uid in candidates && candidates[best.pod.uid] == best && EligibleFor(validate)(best)
    && forall u <- candidates :: EligibleFor(validate)(candidates[u]) ==> !ByCandidate(less)(best, candidates[u])
  }

  /** The last of the eligible candidates in the eviction order. */
  method GetEvictPodFromCandidates(candidates: Victims, validate: Pod -> bool, less: (Candidate, Candidate) -> bool)
    returns (best: Option<Victim>)
    requires StrictWeakOrder(less) && ByUid(candidates)
    ensures best.None? <==> forall u <- candidates :: !EligibleFor(validate)(candidates[u])
    ensures best.Some? ==> LastInOrder(best.value, candidates, validate, less)
  {
    hide StrictWeakOrder, LastInOrder, StableSort;
    var list := ListVictims(candidates, EligibleFor(validate));
    if list == [] { return None; }
    var sorted := StableSort(list, ByCandidate(less));
    LastOfSorted(list, less);
    var last := sorted[|sorted| - 1];
    LastListed(list, last, candidates, validate, less);
    best := Some(last);
  }

  lemma LastListed(list: seq<Victim>, last: Victim, candidates: Victims, validate: Pod -> bool,
                   less: (Candidate, Candidate) -> bool)
    requires ListsThose(list, candidates, EligibleFor(validate)) && last in list
    requires forall i :: 0 <= i < |list| ==> !ByCandidate(less)(last, list[i])
    ensures LastInOrder(last, candidates, validate, less)
    ensures exists u <- candidates :: EligibleFor(validate)(candidates[u])
  {
    var i :| 0 <= i < |list| && list[i] == last;
    assert EligibleFor(validate)(candidates[last.pod.uid]);
  }

  lemma LastOfSorted(list: seq<Victim>, less: (Candidate, Candidate) -> bool)
    requires StrictWeakOrder(less) && list != []
    ensures
      var sorted := StableSort(list, ByCandidate(less));
      && sorted != [] && sorted[|sorted| - 1] in list
      && forall i :: 0 <= i < |list| ==> !ByCandidate(less)(sorted[|sorted| - 1], list[i])
  {
    var sorted := StableSort(list, ByCandidate(less));
    CandidatesOrdered(list, less);
    SortSortedOn(list, ByCandidate(less));
    assert |multiset(sorted)| == |multiset(list)|;
    var last := sorted[|sorted| - 1];
    assert last in multiset(sorted);
    forall i | 0 <= i < |list| ensures !ByCandidate(less)(last, list[i]) {
      assert list[i] in multiset(sorted);
      var j :| 0 <= j < |sorted| && sorted[j] == list[i];
      if j == |sorted| - 1 { Irreflexive(less, Candidate(last.pod, last.scope)); }
    }
  }

  lemma CandidatesOrdered(list: seq<Victim>, less: (Candidate, Candidate) -> bool)
    requires StrictWeakOrder(less)
    ensures Orders(list, ByCandidate(less))
  {
    var lessVictim := ByCandidate(less);
    forall a, b | a in list && b in list && lessVictim(a, b) ensures !lessVictim(b, a) {
      var x, y := Candidate(a.pod, a.scope), Candidate(b.pod, b.scope);
      assert less(x, y) && !less(y, x);
    }
    forall a, b, c | a in list && b in list && c in list && !lessVictim(a, b) && !lessVictim(b, c)
      ensures !lessVictim(a, c)
    {
      var x, y, z := Candidate(a.pod, a.scope), Candidate(b.pod, b.scope), Candidate(c.pod, c.scope);
      assert !less(x, y) && !less(y, z);
    }
  }

  lemma Irreflexive(less: (Candidate, Candidate) -> bool, c: Candidate)
    requires StrictWeakOrder(less)
    ensures !less(c, c)
  {
  }

  /** The victims handed to the killer: every valid forced one, and at most one promoted soft one. */
  method DoEvict(soft: Victims, force: Victims, validate: Pod -> bool, less: (Candidate, Candidate) -> bool)
    returns (list: seq<Victim>, promoted: Option<Victim>)
    requires StrictWeakOrder(less) && ByUid(soft) && ByUid(force)
    ensures promoted.None? <==> forall u <- soft - force.Keys :: !EligibleFor(validate)(soft[u])
    ensures promoted.Some? ==> LastInOrder(promoted.value, soft - force.Keys, validate, less)
    ensures ListsThose(list, WithPromoted(force, promoted), ValidFor(validate))
  {
    var candidates := FilterOutForced(soft, force);
    promoted := GetEvictPodFromCandidates(candidates, validate, less);
    var all := force;
    if promoted.Some? {
      all := all[promoted.value.pod.uid := promoted.value];
    }
    list := ListVictims(all, ValidFor(validate));
  }

  function WithPromoted(force: Victims, promoted: Option<Victim>): Victims {
    if promoted.Some? then force[promoted.value.pod.uid := promoted.value] else force
  }

  // ---------------------------------------------------------------- collecting the answers

  /** What a plugin answered to GetEvictPods and ThresholdMet; None is an error or an empty reply. */
  datatype Answers = Answers(evict: Option<EvictResponse>, met: Option<ThresholdResponse>)

  predicate ThresholdIsMet(a: Answers) {
    a.met.Some? && a.met.value.threshold.metType != NotMet
  }

  function MetIn(answers: map<string, Answers>): Thresholds {
    map p <- answers | ThresholdIsMet(answers[p]) :: answers[p].met.value.threshold
  }

  ghost predicate RequestedBy(answers: map<string, Answers>, w: Wish) {
    w.plugin in answers && answers[w.plugin].evict.Some?
    && w in RequestWishes(w.plugin, Requests(answers[w.plugin].evict.value.pods))
  }

  ghost predicate SeenBy(a: Answers, s: Sight) {
    || (a.evict.Some? && s in Sights(s.plugin, a.evict.value.condition))
    || (ThresholdIsMet(a) && s in Sights(s.plugin, a.met.value.condition))
  }

  /** A plugin outside dry run reported the condition. */
  ghost predicate Sighted(answers: map<string, Answers>, dryRun: seq<string>, s: Sight) {
    !Enabled(s.plugin, dryRun) && s.plugin in answers && SeenBy(answers[s.plugin], s)
  }

  /** The conditions are those the plugins reported, one per name. */
  ghost predicate ConditionsOf(conditions: Conditions, answers: map<string, Answers>, dryRun: seq<string>) {
    && (forall n <- conditions :: n == conditions[n].name)
    && (forall n <- conditions :: exists p :: Sighted(answers, dryRun, Sight(p, conditions[n])))
    && (forall s :: Sighted(answers, dryRun, s) ==> s.condition.name in conditions)
  }

  lemma ConditionsFromSights(conditions: Conditions, sights: set<Sight>, answers: map<string, Answers>,
                             dryRun: seq<string>)
    requires ConditionsFiled(conditions, sights, dryRun)
    requires forall s :: s in sights <==> Sighted(answers, dryRun, s)
    ensures ConditionsOf(conditions, answers, dryRun)
  {
    hide Sighted;
    forall n <- conditions ensures exists p :: Sighted(answers, dryRun, Sight(p, conditions[n])) {
      var s :| s in sights && s.condition == conditions[n];
      assert s == Sight(s.plugin, conditions[n]);
    }
  }

  /** The collector holds what the visited plugins said, dry-run plugins left out. */
  ghost predicate Collected(wishes: set<Wish>, sights: set<Sight>, answers: map<string, Answers>, dryRun: seq<string>) {
    && (forall w :: w in wishes <==> !Enabled(w.plugin, dryRun) && RequestedBy(answers, w))
    && (forall s :: s in sights <==> !Enabled(s.plugin, dryRun) && s.plugin in answers && SeenBy(answers[s.plugin], s))
  }

  /** One plugin's answers. */
  method CollectOne(c: Collector, plugin: string, a: Answers)
    requires c.Valid()
    modifies c
    ensures c.Valid()
    ensures c.met == if ThresholdIsMet(a) then old(c.met)[plugin := a.met.value.threshold] else old(c.met)
    ensures c.wishes == old(c.wishes) + (if Enabled(plugin, c.dryRun) || a.evict.None? then {}
                                         else RequestWishes(plugin, Requests(a.evict.value.pods)))
    ensures forall s :: s in c.sights <==>
            s in old(c.sights) || (!Enabled(plugin, c.dryRun) && s.plugin == plugin && SeenBy(a, s))
  {
    hide c.Valid, Enabled;
    if a.evict.Some? { c.CollectEvictPods(plugin, a.evict.value); }
    if a.met.None? { return; }
    c.CollectMetThreshold(plugin, a.met.value);
  }

  lemma CollectedStep(wishes: set<Wish>, sights: set<Sight>, seen: map<string, Answers>, dryRun: seq<string>,
                      plugin: string,
                      a: Answers, wishes': set<Wish>, sights': set<Sight>)
    requires Collected(wishes, sights, seen, dryRun) && plugin !in seen
    requires wishes' == wishes + if Enabled(plugin, dryRun) || a.evict.None? then {}
                                 else RequestWishes(plugin, Requests(a.evict.value.pods))
    requires forall s :: s in sights' <==>
             s in sights || (!Enabled(plugin, dryRun) && s.plugin == plugin && SeenBy(a, s))
    ensures Collected(wishes', sights', seen[plugin := a], dryRun)
  {
    hide Enabled, SeenBy;
    var seen' := seen[plugin := a];
    forall w ensures w in wishes' <==> !Enabled(w.plugin, dryRun) && RequestedBy(seen', w) {
      assert w.plugin != plugin ==> (RequestedBy(seen', w) <==> RequestedBy(seen, w));
      assert w in wishes ==> w.plugin in seen;
    }
    forall s ensures s in sights' <==> !Enabled(s.plugin, dryRun) && s.plugin in seen' && SeenBy(seen'[s.plugin], s) {}
  }

  /** The answers of all plugins, visited in any order. */
  method CollectAnswers(answers: map<string, Answers>, dryRun: seq<string>) returns (c: Collector)
    ensures fresh(c) && c.Valid() && c.dryRun == dryRun
    ensures c.met == MetIn(answers)
    ensures Collected(c.wishes, c.sights, answers, dryRun)
  {
    c := new Collector(dryRun);
    hide c.Valid, Enabled, Collected;
    assert Collected({}, {}, map[], dryRun) by { NothingCollected(dryRun); }
    var todo := answers.Keys;
    while todo != {}
      invariant todo <= answers.Keys && fresh(c) && c.Valid() && c.dryRun == dryRun
      invariant c.met == MetIn(answers - todo)
      invariant Collected(c.wishes, c.sights, answers - todo, dryRun)
    {
      var p :| p in todo;
      ghost var seen, wishes, sights := answers - todo, c.wishes, c.sights;
      todo := todo - {p};
      assert answers - todo == seen[p := answers[p]];
      CollectOne(c, p, answers[p]);
      CollectedStep(wishes, sights, seen, dryRun, p, answers[p], c.wishes, c.sights);
    }
    assert answers - {} == answers;
  }

  lemma NothingCollected(dryRun: seq<string>)
    ensures Collected({}, {}, map[], dryRun)
  {
  }

  // ---------------------------------------------------------------- asking for the top pods

  type TopAnswers = map<string, Option<TopResponse>>

  ghost function TopOptions(top: TopAnswers): set<DeletionOptions> {
    set p | p in top && top[p].Some? && top[p].value.options != null :: top[p].value.options
  }

  ghost predicate TargetedBy(answer: Option<TopResponse>, w: Wish) {
    answer.Some? && w in TargetWishes(w.plugin, Present(answer.value.targets), w.force)
  }

  /** File a plugin's top pods: by force if its hard threshold is met, else as candidates. */
  method FileTop(c: Collector, plugin: string, threshold: Threshold, answer: Option<TopResponse>)
    requires c.Valid()
    modifies c`force, c`soft, c`wishes, if answer.Some? && answer.value.options != null then {answer.value.options}
             else {}
    ensures c.Valid() && GracesKept(old(Graces(c.force)), Graces(c.force))
    ensures forall w :: w in c.wishes <==>
                        || w in old(c.wishes)
                        || (!Enabled(plugin, c.dryRun) && w.plugin == plugin && TargetedBy(answer, w)
                            && (w.force <==> threshold.metType == HardMet))
  {
    GracesKeptReflexive(Graces(c.force));
    hide c.Valid, Enabled, Graces, GracesKept;
    if answer.None? || answer.value.targets == [] { return; }
    if threshold.metType == HardMet {
      CollectTopEvictionPods(c, plugin, threshold, answer.value);
    } else {
      c.CollectTopSoftEvictionPods(plugin, threshold, answer.value);
    }
  }

  /** Ask every plugin whose threshold has been met for its grace period, in any order. */
  method AskTop(c: Collector, due: Thresholds, top: TopAnswers) returns (asked: set<string>)
    requires c.Valid() && due.Keys <= top.Keys
    modifies c`force, c`soft, c`wishes, TopOptions(top)
    ensures c.Valid() && GracesKept(old(Graces(c.force)), Graces(c.force))
    ensures asked == set p | p in due && due[p].metType != NotMet
    ensures forall w :: w in c.wishes <==>
                        || w in old(c.wishes)
                        || (!Enabled(w.plugin, c.dryRun) && w.plugin in asked && TargetedBy(top[w.plugin], w)
                            && (w.force <==> due[w.plugin].metType == HardMet))
  {
    ghost var before := Graces(c.force);
    GracesKeptReflexive(before);
    hide c.Valid, Enabled, Graces, GracesKept, TargetedBy;
    asked := {};
    var todo := due.Keys;
    while todo != {}
      invariant todo <= due.Keys && asked == set p | p in due && p !in todo && due[p].metType != NotMet
      invariant c.Valid() && GracesKept(before, Graces(c.force))
      invariant forall w :: w in c.wishes <==>
                            || w in old(c.wishes)
                            || (!Enabled(w.plugin, c.dryRun) && w.plugin in asked && TargetedBy(top[w.plugin], w)
                                && (w.force <==> due[w.plugin].metType == HardMet))
    {
      var p :| p in todo;
      todo := todo - {p};
      if due[p].metType == NotMet { continue; }
      ghost var was := Graces(c.force);
      FileTop(c, p, due[p], top[p]);
      GracesKeptTransitive(before, was, Graces(c.force));
      asked := asked + {p};
    }
  }

  // ---------------------------------------------------------------- the manager

  lemma DueAreMet(answers: map<string, Answers>, last: ThresholdsAt, now: int)
    ensures
      var due := MetGracePeriod(FirstObserved(MetIn(answers), last, now), now);
      && due.Keys <= answers.Keys
      && forall p <- due :: answers[p].met.Some? && due[p] == answers[p].met.value.threshold && due[p].metType != NotMet
  {
  }

  lemma HistoryGrows(history: seq<Sync>, sync: Sync)
    ensures After(history + [sync]) == Next(After(history), sync)
  {
    assert (history + [sync])[..|history|] == history;
  }

  /** A plugin outside dry run asked for the pod in this sync: in its eviction requests, by force or
      not as the request says, or among its top pods, by force if its threshold is a hard one. */
  ghost predicate Wanted(answers: map<string, Answers>, top: TopAnswers, asked: set<string>, dryRun: seq<string>,
                         w: Wish)
  {
    && !Enabled(w.plugin, dryRun) && w.plugin in answers
    && (|| (&& answers[w.plugin].evict.Some?
            && exists r :: Some(r) in answers[w.plugin].evict.value.pods && r.pod == Some(w.pod) && r.force == w.force)
        || (&& w.plugin in asked && w.plugin in top && top[w.plugin].Some? && Some(w.pod) in top[w.plugin].value.targets
            && answers[w.plugin].met.Some?
            && (w.force <==> answers[w.plugin].met.value.threshold.metType == HardMet)))
  }

  /** Exactly the UIDs of the pods asked for in one way are filed, each with a pod and a plugin that
      asked for it. */
  ghost predicate FiledAs(victims: Victims, force: bool, answers: map<string, Answers>, top: TopAnswers,
                          asked: set<string>, dryRun: seq<string>)
  {
    && (forall u <- victims ::
          && victims[u].pod.uid == u && victims[u].force == force
          && Wanted(answers, top, asked, dryRun, Wish(victims[u].plugin, victims[u].pod, force)))
    && forall w :: Wanted(answers, top, asked, dryRun, w) && w.force == force ==> w.pod.uid in victims
  }

  lemma WantedMeaning(answers: map<string, Answers>, top: TopAnswers, asked: set<string>, dryRun: seq<string>, w: Wish)
    requires asked <= answers.Keys <= top.Keys && forall p <- asked :: answers[p].met.Some?
    ensures Wanted(answers, top, asked, dryRun, w) <==>
            && !Enabled(w.plugin, dryRun)
            && (|| RequestedBy(answers, w)
                || (&& w.plugin in asked && TargetedBy(top[w.plugin], w)
                    && (w.force <==> answers[w.plugin].met.value.threshold.metType == HardMet)))
  {
    hide Enabled;
    if w.plugin in answers && answers[w.plugin].evict.Some? {
      RequestWished(w.plugin, answers[w.plugin].evict.value.pods, w);
    }
    if w.plugin in asked && top[w.plugin].Some? { TargetWished(w.plugin, top[w.plugin].value.targets, w); }
  }

  lemma RequestWished(plugin: string, pods: seq<Option<EvictRequest>>, w: Wish)
    requires w.plugin == plugin
    ensures w in RequestWishes(plugin, Requests(pods)) <==>
            exists r :: Some(r) in pods && r.pod == Some(w.pod) && r.force == w.force
  {
    RequestsMeaning(pods);
    if r :| Some(r) in pods && r.pod == Some(w.pod) && r.force == w.force {
      var i :| 0 <= i < |Requests(pods)| && Requests(pods)[i] == r;
    }
  }

  lemma TargetWished(plugin: string, pods: seq<Option<Pod>>, w: Wish)
    requires w.plugin == plugin
    ensures w in TargetWishes(plugin, Present(pods), w.force) <==> Some(w.pod) in pods
  {
    PresentMeaning(pods);
    if Some(w.pod) in pods { var i :| 0 <= i < |Present(pods)| && Present(pods)[i] == w.pod; }
  }

  lemma FiledFromWishes(c: Collector, answers: map<string, Answers>, top: TopAnswers, asked: set<string>,
                        dryRun: seq<string>)
    requires c.Valid() && forall w :: w in c.wishes <==> Wanted(answers, top, asked, dryRun, w)
    ensures FiledAs(c.force, true, answers, top, asked, dryRun) && FiledAs(c.soft, false, answers, top, asked, dryRun)
  {
    hide Wanted, Enabled;
  }

  class Manager {
    var thresholds: ThresholdsAt
    var observed: ConditionsAt
    var conditions: Conditions
    ghost var history: seq<Sync>

    /** The observations are those of the syncs so far. */
    ghost predicate Valid()
      reads this
    {
      State(thresholds, observed) == After(history)
    }

    constructor ()
      ensures Valid() && history == [] && conditions == map[]
    {
      thresholds, observed, conditions, history := map[], map[], map[], [];
    }

    /** Collect what the plugins say and ask those whose threshold has been met long enough. */
    method CollectEvictionResult(answers: map<string, Answers>, top: TopAnswers, dryRun: seq<string>, period: int,
                                 now: int)
      returns (c: Collector, asked: set<string>)
      requires Valid() && answers.Keys <= top.Keys
      modifies this, TopOptions(top)
      ensures Valid() && fresh(c) && c.Valid() && c.dryRun == dryRun
      ensures history == old(history) + [Sync(now, MetIn(answers), c.conditions)]
      ensures conditions == ObservedSince(After(history).conditions, period, now)
      ensures asked == MetGracePeriod(After(history).thresholds, now).Keys && asked <= answers.Keys
      ensures forall s :: s in c.sights <==> Sighted(answers, dryRun, s)
      ensures forall w :: w in c.wishes <==> Wanted(answers, top, asked, dryRun, w)
      ensures FiledAs(c.force, true, answers, top, asked, dryRun) && FiledAs(c.soft, false, answers, top, asked, dryRun)
    {
      c := CollectAnswers(answers, dryRun);
      hide c.Valid, Enabled, RequestedBy, SeenBy, TargetedBy, MetGracePeriod, FirstObserved, LastObserved,
        ObservedSince, MetIn, After;
      ghost var sync := Sync(now, c.met, c.conditions);
      DueAreMet(answers, thresholds, now);
      HistoryGrows(history, sync);
      var first := ThresholdsFirstObservedAt(c.met, thresholds, now);
      var due := ThresholdsMetGracePeriod(first, now);
      var last := ConditionsLastObservedAt(c.conditions, observed, now);
      conditions := ConditionsObservedSince(last, period, now);
      observed, thresholds, history := last, first, history + [sync];
      asked := AskTop(c, due, top);
      forall w ensures w in c.wishes <==> Wanted(answers, top, asked, dryRun, w) {
        WantedMeaning(answers, top, asked, dryRun, w);
      }
      FiledFromWishes(c, answers, top, asked, dryRun);
    }

    /** A whole sync. `force` and `soft` are the victims filed in it. Every forced victim whose pod
        passes validation is evicted, and besides them only the last eligible candidate, one that does
        not ask to be notified instead. */
    method SyncOnce(answers: map<string, Answers>, top: TopAnswers, dryRun: seq<string>, period: int, now: int,
                    validate: Pod -> bool, less: (Candidate, Candidate) -> bool)
      returns (list: seq<Victim>, promoted: Option<Victim>, asked: set<string>, ghost force: Victims,
               ghost soft: Victims)
      requires Valid() && answers.Keys <= top.Keys && StrictWeakOrder(less)
      modifies this, TopOptions(top)
      ensures Valid() && |history| == |old(history)| + 1 && old(history) < history
      ensures history[|old(history)|].now == now && history[|old(history)|].met == MetIn(answers)
      ensures ConditionsOf(history[|old(history)|].seen, answers, dryRun)
      ensures conditions == ObservedSince(After(history).conditions, period, now)
      ensures asked == MetGracePeriod(After(history).thresholds, now).Keys
      ensures FiledAs(force, true, answers, top, asked, dryRun) && FiledAs(soft, false, answers, top, asked, dryRun)
      ensures forall v :: v in list <==>
                promoted == Some(v) || (v.pod.uid in force && force[v.pod.uid] == v && validate(v.pod))
      ensures promoted.None? <==> forall u <- soft :: u in force || !validate(soft[u].pod) || AsksNotice(soft[u].pod)
      ensures promoted.Some? ==>
                var best := promoted.value;
                && best.pod.uid in soft && soft[best.pod.uid] == best && best.pod.uid !in force
                && validate(best.pod) && !AsksNotice(best.pod)
                && forall u <- soft :: u in force || !validate(soft[u].pod) || AsksNotice(soft[u].pod) ||
                                       !less(Candidate(best.pod, best.scope), Candidate(soft[u].pod, soft[u].scope))
      ensures forall w :: Wanted(answers, top, asked, dryRun, w) && w.force &&
                          (forall o :: Wanted(answers, top, asked, dryRun, o) && o.force && o.pod.uid == w.pod.uid ==>
                                       validate(o.pod)) ==>
                          exists i :: 0 <= i < |list| && list[i].pod.uid == w.pod.uid && list[i].force
      ensures forall i, j :: 0 <= i < j < |list| ==> list[i].pod.uid != list[j].pod.uid
      ensures forall i :: 0 <= i < |list| ==> AskedAndValid(list[i], answers, top, asked, dryRun, validate)
      ensures forall i :: 0 <= i < |list| ==> list[i].force || promoted == Some(list[i])
      ensures promoted.Some? ==>
                promoted.value in list && !promoted.value.force && !NotificationEnabled(promoted.value.pod)
    {
      hide After, Enabled, RequestedBy, SeenBy, TargetedBy, MetGracePeriod, MetIn, ObservedSince;
      var c;
      c, asked := CollectEvictionResult(answers, top, dryRun, period, now);
      hide LastInOrder, ListsThose, AskedAndValid, AsksNotice, EligibleFor;
      ConditionsFromSights(c.conditions, c.sights, answers, dryRun);
      hide ConditionsOf, Sighted;
      assert ByUid(c.soft) && ByUid(c.force);
      hide Filed, Served;
      list, promoted := DoEvict(c.soft, c.force, validate, less);
      force, soft := c.force, c.soft;
      KillList(list, promoted, soft, force, c.wishes, validate, less);
      KillListExact(list, promoted, soft, force, validate, less);
      forall i | 0 <= i < |list| ensures AskedAndValid(list[i], answers, top, asked, dryRun, validate) {
        WishKept(list[i], answers, top, asked, dryRun, validate);
      }
      forall w | && Wanted(answers, top, asked, dryRun, w) && w.force
                 && (forall o :: Wanted(answers, top, asked, dryRun, o) && o.force && o.pod.uid == w.pod.uid ==>
                                 validate(o.pod))
        ensures exists i :: 0 <= i < |list| && list[i].pod.uid == w.pod.uid && list[i].force
      {
        ForcedListed(list, promoted, soft, force, validate, less, answers, top, asked, dryRun, w);
      }
    }
  }

  lemma WishKept(v: Victim, answers: map<string, Answers>, top: TopAnswers, asked: set<string>, dryRun: seq<string>,
                 validate: Pod -> bool)
    requires validate(v.pod) && Wanted(answers, top, asked, dryRun, Wish(v.plugin, v.pod, v.force))
    ensures AskedAndValid(v, answers, top, asked, dryRun, validate)
  {
  }

  /** What the listed victims are, in terms of the collector's maps and wishes. */
  lemma KillList(list: seq<Victim>, promoted: Option<Victim>, soft: Victims, force: Victims, wishes: set<Wish>,
                 validate: Pod -> bool,
                 less: (Candidate, Candidate) -> bool)
    requires Filed(force, true, wishes) && Filed(soft, false, wishes)
    requires ListsThose(list, WithPromoted(force, promoted), ValidFor(validate))
    requires promoted.Some? ==> LastInOrder(promoted.value, soft - force.Keys, validate, less)
    ensures forall i, j :: 0 <= i < j < |list| ==> list[i].pod.uid != list[j].pod.uid
    ensures forall i :: 0 <= i < |list| ==>
              && validate(list[i].pod) && Wish(list[i].plugin, list[i].pod, list[i].force) in wishes
              && (list[i].force || promoted == Some(list[i]))
    ensures promoted.Some? ==>
              promoted.value in list && !promoted.value.force && !NotificationEnabled(promoted.value.pod)
  {
    if promoted.Some? {
      PromotedMeaning(promoted.value, soft, force.Keys, validate, less);
      var all, u := WithPromoted(force, promoted), promoted.value.pod.uid;
      assert u in all && ValidFor(validate)(all[u]);
    }
    hide LastInOrder;
    forall i | 0 <= i < |list|
      ensures validate(list[i].pod) && Wish(list[i].plugin, list[i].pod, list[i].force) in wishes
              && (list[i].force || promoted == Some(list[i]))
    {
      assert ValidFor(validate)(list[i]);
    }
  }

  /** The list in terms of the filed victims: the valid forced ones and the last eligible candidate. */
  lemma KillListExact(list: seq<Victim>, promoted: Option<Victim>, soft: Victims, force: Victims,
                      validate: Pod -> bool, less: (Candidate, Candidate) -> bool)
    requires ByUid(force) && ByUid(soft)
    requires ListsThose(list, WithPromoted(force, promoted), ValidFor(validate))
    requires promoted.None? <==> forall u <- soft - force.Keys :: !EligibleFor(validate)(soft[u])
    requires promoted.Some? ==> LastInOrder(promoted.value, soft - force.Keys, validate, less)
    ensures forall v :: v in list <==>
              promoted == Some(v) || (v.pod.uid in force && force[v.pod.uid] == v && validate(v.pod))
    ensures promoted.None? <==> forall u <- soft :: u in force || !validate(soft[u].pod) || AsksNotice(soft[u].pod)
    ensures promoted.Some? ==>
              var best := promoted.value;
              && best.pod.uid in soft && soft[best.pod.uid] == best && best.pod.uid !in force
              && validate(best.pod) && !AsksNotice(best.pod)
              && forall u <- soft :: u in force || !validate(soft[u].pod) || AsksNotice(soft[u].pod) ||
                                     !less(Candidate(best.pod, best.scope), Candidate(soft[u].pod, soft[u].scope))
  {
    forall pod: Pod ensures NotificationEnabled(pod) <==> AsksNotice(pod) { NoticeMeaning(pod); }
    hide NotificationEnabled, AsksNotice;
    forall u <- soft ensures EligibleFor(validate)(soft[u]) <==> validate(soft[u].pod) && !AsksNotice(soft[u].pod) {}
    if promoted.Some? {
      forall u <- soft | u !in force && validate(soft[u].pod) && !AsksNotice(soft[u].pod)
        ensures !less(Candidate(promoted.value.pod, promoted.value.scope), Candidate(soft[u].pod, soft[u].scope))
      {
        assert u in soft - force.Keys && (soft - force.Keys)[u] == soft[u];
        assert !ByCandidate(less)(promoted.value, soft[u]);
      }
    }
    hide LastInOrder;
    ListedExactly(list, promoted, soft, force, validate, less);
  }

  lemma ListedExactly(list: seq<Victim>, promoted: Option<Victim>, soft: Victims, force: Victims,
                      validate: Pod -> bool, less: (Candidate, Candidate) -> bool)
    requires ListsThose(list, WithPromoted(force, promoted), ValidFor(validate))
    requires promoted.Some? ==> LastInOrder(promoted.value, soft - force.Keys, validate, less)
    ensures forall v :: v in list <==>
              promoted == Some(v) || (v.pod.uid in force && force[v.pod.uid] == v && validate(v.pod))
  {
    var all := WithPromoted(force, promoted);
    if promoted.Some? { PromotedMeaning(promoted.value, soft, force.Keys, validate, less); }
    forall v ensures v in list <==> v.pod.uid in all && all[v.pod.uid] == v && validate(v.pod) {
      if v in list {
        var i :| 0 <= i < |list| && list[i] == v;
        assert ValidFor(validate)(list[i]);
      }
      if v.pod.uid in all && all[v.pod.uid] == v && validate(v.pod) { assert ValidFor(validate)(all[v.pod.uid]); }
    }
  }

  /** A pod asked for by force is evicted if every pod of its UID that was asked for so is valid. */
  lemma ForcedListed(list: seq<Victim>, promoted: Option<Victim>, soft: Victims, force: Victims, validate: Pod -> bool,
                     less: (Candidate, Candidate) -> bool, answers: map<string, Answers>, top: TopAnswers,
                     asked: set<string>, dryRun: seq<string>, w: Wish)
    requires FiledAs(force, true, answers, top, asked, dryRun)
    requires ListsThose(list, WithPromoted(force, promoted), ValidFor(validate))
    requires promoted.Some? ==> LastInOrder(promoted.value, soft - force.Keys, validate, less)
    requires Wanted(answers, top, asked, dryRun, w) && w.force
    requires forall o :: Wanted(answers, top, asked, dryRun, o) && o.force && o.pod.uid == w.pod.uid ==> validate(o.pod)
    ensures exists i :: 0 <= i < |list| && list[i].pod.uid == w.pod.uid && list[i].force
  {
    hide Wanted;
    var u := w.pod.uid;
    assert u in force && Wanted(answers, top, asked, dryRun, Wish(force[u].plugin, force[u].pod, true));
    assert WithPromoted(force, promoted)[u] == force[u] && ValidFor(validate)(force[u]);
    assert force[u] in list;
  }

  lemma PromotedMeaning(best: Victim, soft: Victims, forced: set<string>, validate: Pod -> bool,
                        less: (Candidate, Candidate) -> bool)
    requires LastInOrder(best, soft - forced, validate, less)
    ensures best.pod.uid in soft && soft[best.pod.uid] == best && best.pod.uid !in forced
    ensures validate(best.pod) && !NotificationEnabled(best.pod)
  {
  }

  ghost predicate AskedAndValid(v: Victim, answers: map<string, Answers>, top: TopAnswers, asked: set<string>,
                                dryRun: seq<string>, validate: Pod -> bool)
  {
    validate(v.pod) && Wanted(answers, top, asked, dryRun, Wish(v.plugin, v.pod, v.force))
  }
}
