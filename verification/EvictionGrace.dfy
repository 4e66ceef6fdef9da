/** Forced evictions of the top pods share one deletion-options object per response
    (pkg/agent/evictionmanager/eviction_resp_collector.go, lines 210-259). */
module EvictionGrace {
  import opened Keys
  import opened EvictionObservations
  import opened EvictionCollector

  type GraceMap = map<string, Option<int>>

  function Max(a: int, b: int): int {
    if a >= b then a else b
  }

  ghost function GraceOf(v: Victim): Option<int>
    reads if v.options == null then {} else {v.options}
  {
    if v.options == null then None else Some(v.options.grace)
  }

  /** The deletion grace periods the victims carry. */
  ghost function Graces(victims: Victims): GraceMap
    reads OptionsOf(victims)
  {
    map u <- victims :: if victims[u].options == null then None else Some(victims[u].options.grace)
  }

  function Lookup(graces: GraceMap, u: string): Option<int> {
    if u in graces then graces[u] else None
  }

  /** The shared grace period after the pods were visited: the largest one met so far. */
  function Shared(own: int, before: GraceMap, uids: seq<string>): (g: int)
    ensures g >= own
    ensures forall u <- uids :: Lookup(before, u).Some? ==> g >= Lookup(before, u).value
    ensures g == own || exists u <- uids :: Lookup(before, u) == Some(g)
  {
    if uids == [] then own
    else
      var init, last := uids[..|uids| - 1], Lookup(before, uids[|uids| - 1]);
      var rest := Shared(own, before, init);
      assert uids == init + [uids[|uids| - 1]];
      if last.Some? then Max(rest, last.value) else rest
  }

  /** A pod's grace period when the response has no options: the old one, at least zero. */
  function Kept(before: GraceMap, u: string): Option<int> {
    if Lookup(before, u).Some? then Some(Max(0, Lookup(before, u).value)) else None
  }

  /** A pod's grace period after a response with the given options listed these pods. */
  function TopGrace(before: GraceMap, own: Option<int>, uids: seq<string>, u: string): Option<int> {
    if u !in uids then Lookup(before, u)
    else if own.Some? then Some(Shared(own.value, before, uids))
    else Kept(before, u)
  }

  ghost function TopGraces(before: GraceMap, own: Option<int>, uids: seq<string>): GraceMap {
    map u | u in before.Keys + Elements(uids) :: TopGrace(before, own, uids, u)
  }

  /** Exactly the pods in `done` hold the shared options. */
  ghost predicate SharedBy(victims: Victims, shared: DeletionOptions?, done: set<string>) {
    shared != null ==> done <= victims.Keys && forall u <- victims :: victims[u].options == shared <==> u in done
  }

  function TopReason(plugin: string, threshold: Threshold, force: Victims, u: string): string {
    if u in force then Reason(plugin, threshold) + "; " + force[u].reason else Reason(plugin, threshold)
  }

  /** What one step does to the victims and their grace periods `g`; `own` is the shared one. */
  ghost predicate Stepped(was: Victims, now: Victims, g: GraceMap, g': GraceMap, shared: DeletionOptions?, own: int,
                          own': int,
                          u: string)
  {
    && g.Keys == was.Keys && g'.Keys == now.Keys == was.Keys + {u}
    && (forall k <- was :: k != u ==> now[k] == was[k])
    && (forall k <- was :: k != u ==> g'[k] == if shared != null && was[k].options == shared then Some(own') else g[k])
    && (forall k <- was :: shared != null && was[k].options == shared ==> g[k] == Some(own))
    && (shared != null ==> now[u].options == shared && g'[u] == Some(own') && own' == RaisedBy(own, Lookup(g, u)))
    && (shared == null ==> g'[u] == Kept(g, u))
  }

  function RaisedBy(own: int, g: Option<int>): int {
    if g.Some? then Max(own, g.value) else own
  }

  /** The options for a pod: the response's, raised to what the pod already had. */
  method RaiseOptions(shared: DeletionOptions?, had: DeletionOptions?) returns (options: DeletionOptions?)
    modifies if shared == null then {} else {shared}
    ensures shared != null ==>
              options == shared && shared.grace ==
                RaisedBy(old(shared.grace), if had == null then None else Some(old(had.grace)))
    ensures shared == null && had == null ==> options == null
    ensures shared == null && had != null ==> options != null && fresh(options) && options.grace == Max(0, had.grace)
  {
    options := shared;
    if had != null {
      if options == null { options := new DeletionOptions(0); }
      options.grace := if options.grace >= had.grace then options.grace else had.grace;
    }
  }

  /** Force the eviction of one pod. */
  method ForceTopPod(c: Collector, plugin: string, threshold: Threshold, pod: Pod, shared: DeletionOptions?)
    requires c.Valid() && !Enabled(plugin, c.dryRun)
    modifies c`force, c`wishes, if shared == null then {} else {shared}
    ensures c.Valid() && c.wishes == old(c.wishes) + {Wish(plugin, pod, true)}
    ensures pod.uid in c.force
    ensures c.force[pod.uid] ==
            Victim(pod, TopReason(plugin, threshold, old(c.force), pod.uid), c.force[pod.uid].options, true, plugin,
              threshold.scope)
    ensures Stepped(old(c.force), c.force, old(Graces(c.force)), Graces(c.force), shared,
                    if shared == null then 0 else old(shared.grace),
                    if shared == null then 0 else shared.grace, pod.uid)
  {
    hide c.Valid, Enabled, Stepped;
    ghost var was, g, own := c.force, Graces(c.force), if shared == null then 0 else shared.grace;
    var had: DeletionOptions? := null;
    var reason := Reason(plugin, threshold);
    if pod.uid in c.force {
      had := c.force[pod.uid].options;
      reason := reason + "; " + c.force[pod.uid].reason;
    }
    var options := RaiseOptions(shared, had);
    assert c.Valid();
    ghost var own', mid := if shared == null then 0 else shared.grace, Graces(was);
    assert forall k <- was :: mid[k] == if shared != null && was[k].options == shared then Some(own') else g[k];
    var victim := Victim(pod, reason, options, true, plugin, threshold.scope);
    ghost var grace := GraceOf(victim);
    label adding:
    c.AddForce(victim);
    assert forall o <- OptionsOf(was) :: unchanged@adding(o);
    assert Graces(was) == mid && GraceOf(victim) == grace;
    GracesUpdate(was, pod.uid, victim);
    MakeStepped(was, g, mid, shared, own, own', pod.uid, victim, grace);
  }

  lemma GracesUpdate(was: Victims, u: string, v: Victim)
    ensures Graces(was[u := v]) == Graces(was)[u := GraceOf(v)]
  {
  }

  lemma MakeStepped(was: Victims, g: GraceMap, mid: GraceMap, shared: DeletionOptions?, own: int, own': int, u: string,
                    v: Victim, grace: Option<int>)
    requires g.Keys == mid.Keys == was.Keys
    requires forall k <- was :: mid[k] == if shared != null && was[k].options == shared then Some(own') else g[k]
    requires forall k <- was :: shared != null && was[k].options == shared ==> g[k] == Some(own)
    requires shared != null ==> v.options == shared && grace == Some(own') && own' == RaisedBy(own, Lookup(g, u))
    requires shared == null ==> grace == Kept(g, u)
    ensures Stepped(was, was[u := v], g, mid[u := grace], shared, own, own', u)
  {
  }

  /** Entries with options keep them, and no grace period decreases. */
  ghost predicate GracesKept(before: GraceMap, after: GraceMap) {
    forall u <- before :: u in after && (before[u].Some? ==> after[u].Some? && after[u].value >= before[u].value)
  }

  /** How one step changes the grace periods. */
  ghost function Raised(graces: GraceMap, own: Option<int>, u: string, done: set<string>): GraceMap {
    if own.Some?
    then map k | k in graces.Keys + {u} :: if k == u || k in done then own else Lookup(graces, k)
    else graces[u := Kept(graces, u)]
  }

  lemma SteppedKept(was: Victims, now: Victims, g: GraceMap, g': GraceMap, shared: DeletionOptions?, own: int,
                    own': int, u: string)
    requires Stepped(was, now, g, g', shared, own, own', u)
    ensures GracesKept(g, g')
  {
  }

  lemma SteppedRaised(was: Victims, now: Victims, g: GraceMap, g': GraceMap, shared: DeletionOptions?, own: int,
                      own': int, u: string,
                      done: set<string>)
    requires Stepped(was, now, g, g', shared, own, own', u) && SharedBy(was, shared, done)
    ensures SharedBy(now, shared, done + {u})
    ensures g' == Raised(g, if shared == null then None else Some(own'), u, done)
  {
  }

  /** One step, with its effect on all grace periods. */
  method ForceNext(c: Collector, plugin: string, threshold: Threshold, pod: Pod, shared: DeletionOptions?,
                   ghost done: set<string>)
    requires c.Valid() && !Enabled(plugin, c.dryRun)
    modifies c`force, c`wishes, if shared == null then {} else {shared}
    ensures c.Valid() && c.wishes == old(c.wishes) + {Wish(plugin, pod, true)}
    ensures GracesKept(old(Graces(c.force)), Graces(c.force))
    ensures shared != null ==> shared.grace == RaisedBy(old(shared.grace), Lookup(old(Graces(c.force)), pod.uid))
    ensures SharedBy(old(c.force), shared, done) ==>
              && SharedBy(c.force, shared, done + {pod.uid})
              && Graces(c.force) ==
                 Raised(old(Graces(c.force)), if shared == null then None else Some(shared.grace), pod.uid, done)
  {
    hide c.Valid, Enabled, SharedBy, GracesKept, Raised, Graces;
    ghost var was, g, own := c.force, Graces(c.force), if shared == null then 0 else shared.grace;
    ForceTopPod(c, plugin, threshold, pod, shared);
    ghost var now, g', own' := c.force, Graces(c.force), if shared == null then 0 else shared.grace;
    SteppedKept(was, now, g, g', shared, own, own', pod.uid);
    if SharedBy(was, shared, done) { SteppedRaised(was, now, g, g', shared, own, own', pod.uid, done); }
  }

  function Uids(pods: seq<Pod>): seq<string> {
    seq(|pods|, i requires 0 <= i < |pods| => pods[i].uid)
  }

  lemma UidsStep(pods: seq<Pod>, i: nat)
    requires i < |pods|
    ensures Uids(pods[..i + 1]) == Uids(pods[..i]) + [pods[i].uid]
  {
    assert pods[..i + 1][i] == pods[i];
  }

  lemma SharedStep(own: int, before: GraceMap, uids: seq<string>, u: string)
    ensures Shared(own, before, uids + [u]) == RaisedBy(Shared(own, before, uids), Lookup(before, u))
    ensures u in uids ==> Shared(own, before, uids + [u]) == Shared(own, before, uids)
  {
    assert (uids + [u])[..|uids|] == uids;
  }

  lemma LookupTop(before: GraceMap, own: Option<int>, uids: seq<string>, u: string)
    ensures Lookup(TopGraces(before, own, uids), u) == TopGrace(before, own, uids, u)
  {
    hide Shared;
  }

  lemma TopGraceStep(before: GraceMap, own: Option<int>, uids: seq<string>, u: string, k: string)
    ensures
      TopGrace(before, own, uids + [u], k) ==
      if k != u && k !in uids then TopGrace(before, own, uids, k)
      else if own.Some? then Some(RaisedBy(Shared(own.value, before, uids), TopGrace(before, own, uids, u)))
      else Kept(before, k)
  {
    if own.Some? { SharedStep(own.value, before, uids, u); }
    hide Shared;
    assert k in uids + [u] <==> k in uids || k == u;
  }

  /** The loop step on grace periods agrees with the closed form. */
  lemma TopGracesStep(before: GraceMap, own: Option<int>, uids: seq<string>, u: string)
    ensures
      var now := TopGraces(before, own, uids);
      TopGraces(before, own, uids + [u]) ==
      Raised(now, if own.Some? then Some(RaisedBy(Shared(own.value, before, uids), Lookup(now, u))) else None,
             u, Elements(uids))
    ensures own.Some? ==>
              Shared(own.value, before, uids + [u]) ==
              RaisedBy(Shared(own.value, before, uids), Lookup(TopGraces(before, own, uids), u))
  {
    hide Shared, RaisedBy, TopGrace;
    LookupTop(before, own, uids, u);
    if own.Some? { SharedStep(own.value, before, uids, u); SharedIsTop(before, own.value, uids, u); }
    var l, r := TopGraces(before, own, uids + [u]), RaisedTop(before, own, uids, u);
    ElementsAppend(uids, u);
    assert l.Keys == r.Keys;
    forall k <- l ensures l[k] == r[k] { StepAt(before, own, uids, u, k); }
  }

  ghost function RaisedTop(before: GraceMap, own: Option<int>, uids: seq<string>, u: string): GraceMap {
    var grace := if own.Some? then Some(RaisedBy(Shared(own.value, before, uids), TopGrace(before, own, uids, u)))
      else None;
    Raised(TopGraces(before, own, uids), grace, u, Elements(uids))
  }

  lemma StepAt(before: GraceMap, own: Option<int>, uids: seq<string>, u: string, k: string)
    ensures TopGrace(before, own, uids + [u], k) == Lookup(RaisedTop(before, own, uids, u), k)
  {
    TopGraceStep(before, own, uids, u, k);
    LookupTop(before, own, uids, k);
    LookupTop(before, own, uids, u);
    hide Shared, RaisedBy;
  }

  lemma SharedIsTop(before: GraceMap, own: int, uids: seq<string>, u: string)
    ensures RaisedBy(Shared(own, before, uids), TopGrace(before, Some(own), uids, u)) == Shared(own, before, uids + [u])
  {
    SharedStep(own, before, uids, u);
  }

  lemma GracesKeptTransitive(a: GraceMap, b: GraceMap, c: GraceMap)
    requires GracesKept(a, b) && GracesKept(b, c)
    ensures GracesKept(a, c)
  {
  }

  /** The closed form holds after the listed pods, if no victim held the shared options before. */
  ghost predicate Exact(victims: Victims, shared: DeletionOptions?, before: GraceMap, own: Option<int>,
                        uids: seq<string>)
    reads OptionsOf(victims), if shared == null then {} else {shared}
  {
    && SharedBy(victims, shared, Elements(uids))
    && Graces(victims) == TopGraces(before, own, uids)
    && own.Some? == (shared != null)
    && (shared != null ==> shared.grace == Shared(own.value, before, uids))
  }

  lemma ExactAtStart(victims: Victims, shared: DeletionOptions?)
    requires shared == null || shared !in OptionsOf(victims)
    ensures Exact(victims, shared, Graces(victims), if shared == null then None else Some(shared.grace), [])
  {
  }

  /** One loop iteration: the closed form moves on by one pod. */
  method ForceTarget(c: Collector, plugin: string, threshold: Threshold, pod: Pod, shared: DeletionOptions?,
                     ghost before: GraceMap, ghost own: Option<int>, ghost uids: seq<string>)
    requires c.Valid() && !Enabled(plugin, c.dryRun) && GracesKept(before, Graces(c.force))
    modifies c`force, c`wishes, if shared == null then {} else {shared}
    ensures c.Valid() && c.wishes == old(c.wishes) + {Wish(plugin, pod, true)}
    ensures GracesKept(before, Graces(c.force))
    ensures old(Exact(c.force, shared, before, own, uids)) ==> Exact(c.force, shared, before, own, uids + [pod.uid])
  {
    hide c.Valid, Enabled, SharedBy, GracesKept, Raised, Graces, TopGraces, Shared, OptionsOf;
    ghost var was := Graces(c.force);
    TopGracesStep(before, own, uids, pod.uid);
    ElementsAppend(uids, pod.uid);
    ForceNext(c, plugin, threshold, pod, shared, Elements(uids));
    GracesKeptTransitive(before, was, Graces(c.force));
  }

  method ForceTargets(c: Collector, plugin: string, threshold: Threshold, targets: seq<Pod>, shared: DeletionOptions?)
    requires c.Valid() && (targets != [] ==> !Enabled(plugin, c.dryRun))
    modifies c`force, c`wishes, if shared == null then {} else {shared}
    ensures c.Valid() && c.wishes == old(c.wishes) + TargetWishes(plugin, targets, true)
    ensures GracesKept(old(Graces(c.force)), Graces(c.force))
    ensures targets == [] ==> Graces(c.force) == old(Graces(c.force))
    ensures shared == null || shared !in OptionsOf(old(c.force)) ==>
              Exact(c.force, shared, old(Graces(c.force)),
                    if shared == null then None else Some(old(shared.grace)), Uids(targets))
  {
    ghost var before, alone := Graces(c.force), shared == null || shared !in OptionsOf(c.force);
    ghost var own := if shared == null then None else Some(shared.grace);
    if alone { ExactAtStart(c.force, shared); }
    GracesKeptReflexive(before);
    assert TargetWishes(plugin, [], true) == {};
    hide c.Valid, Enabled, Exact, GracesKept, Graces, TargetWishes, OptionsOf;
    for i := 0 to |targets|
      invariant c.Valid() && c.wishes == old(c.wishes) + TargetWishes(plugin, targets[..i], true)
      invariant targets == [] ==> Graces(c.force) == before
      invariant GracesKept(before, Graces(c.force))
      invariant alone ==> Exact(c.force, shared, before, own, Uids(targets[..i]))
    {
      UidsStep(targets, i);
      TargetWishesStep(plugin, targets, i, true);
      ForceTarget(c, plugin, threshold, targets[i], shared, before, own, Uids(targets[..i]));
    }
    assert targets[..|targets|] == targets;
  }

  lemma GracesKeptReflexive(a: GraceMap)
    ensures GracesKept(a, a)
  {
  }

  /** Force the targets of a plugin whose hard threshold is met. Whoever else holds the response's
      options, no grace period decreases; if no victim held them before, the new grace periods are
      exactly the shared maximum. */
  method CollectTopEvictionPods(c: Collector, plugin: string, threshold: Threshold, resp: TopResponse)
    requires c.Valid()
    modifies c`force, c`wishes, if resp.options == null then {} else {resp.options}
    ensures c.Valid()
    ensures Enabled(plugin, c.dryRun) ==> c.wishes == old(c.wishes) && Graces(c.force) == old(Graces(c.force))
    ensures !Enabled(plugin, c.dryRun) ==> c.wishes == old(c.wishes) + TargetWishes(plugin, Present(resp.targets), true)
    ensures GracesKept(old(Graces(c.force)), Graces(c.force))
    ensures !Enabled(plugin, c.dryRun) && (resp.options == null || resp.options !in OptionsOf(old(c.force))) ==>
              Graces(c.force) ==
              TopGraces(old(Graces(c.force)), if resp.options == null then None else Some(old(resp.options.grace)),
                        Uids(Present(resp.targets)))
  {
    var dry := IsNameEnabled(plugin, {}, c.dryRun);
    var targets := ReadTargets(resp.targets, dry);
    assert TargetWishes(plugin, [], true) == {};
    assert forall o <- OptionsOf(c.force) :: unchanged(o);
    assert Graces(c.force) == old(Graces(c.force));
    hide c.Valid, Enabled, SharedBy, GracesKept, Raised, Graces, TargetWishes, TopGraces, Shared, OptionsOf;
    ForceTargets(c, plugin, threshold, targets, resp.options);
  }
}
