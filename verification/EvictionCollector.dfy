/** Collecting the answers of the eviction plugins in one sync
    (pkg/agent/evictionmanager/eviction_resp_collector.go, lines 86-259). */
module EvictionCollector {
  import opened Keys
  import opened EvictionObservations

  /** Shared by the victims of one response; later victims raise it. */
  class DeletionOptions {
    var grace: int

    constructor (grace: int)
      ensures this.grace == grace
    {
      this.grace := grace;
    }
  }

  datatype Pod = Pod(uid: string, namespace: string, name: string, notification: Option<string>)

  /** A plugin's wish to evict a pod. */
  datatype EvictRequest = EvictRequest(pod: Option<Pod>, reason: string, force: bool, grace: Option<int>)

  datatype EvictResponse = EvictResponse(pods: seq<Option<EvictRequest>>, condition: Option<Condition>)

  datatype ThresholdResponse = ThresholdResponse(
    threshold: Threshold, condition: Option<Condition>, candidates: seq<Option<Pod>>)

  datatype TopResponse = TopResponse(targets: seq<Option<Pod>>, options: DeletionOptions?)

  /** A pod to evict, with the plugin that asked for it. */
  datatype Victim = Victim(
    pod: Pod, reason: string, options: DeletionOptions?, force: bool, plugin: string, scope: string)

  // ---------------------------------------------------------------- dry run

  predicate NoMention(name: string, names: seq<string>) {
    forall j :: 0 <= j < |names| ==> names[j] != name && names[j] != "-" + name
  }

  /** The first mention of the name is not negated, or there is none but a star and the name is not
      disabled by default. */
  predicate NameEnabled(name: string, disabledByDefault: set<string>, names: seq<string>) {
    || (exists i :: 0 <= i < |names| && names[i] == name && NoMention(name, names[..i]))
    || (NoMention(name, names) && "*" in names && name !in disabledByDefault)
  }

  /** The plugin runs dry. */
  predicate Enabled(name: string, names: seq<string>) {
    NameEnabled(name, {}, names)
  }

  method IsNameEnabled(name: string, disabledByDefault: set<string>, names: seq<string>) returns (enabled: bool)
    ensures enabled == NameEnabled(name, disabledByDefault, names)
  {
    var hasStar := false;
    for i := 0 to |names|
      invariant NoMention(name, names[..i])
      invariant hasStar <==> "*" in names[..i]
    {
      assert names[..i + 1] == names[..i] + [names[i]];
      if names[i] == name { return true; }
      if names[i] == "-" + name {
        Negated(name, disabledByDefault, names, i);
        return false;
      }
      if names[i] == "*" { hasStar := true; }
    }
    assert names[..|names|] == names;
    return hasStar && name !in disabledByDefault;
  }

  lemma Negated(name: string, disabledByDefault: set<string>, names: seq<string>, i: nat)
    requires i < |names| && names[i] == "-" + name && NoMention(name, names[..i])
    ensures !NameEnabled(name, disabledByDefault, names)
  {
    assert names[i] != name;
    assert forall k :: 0 <= k < i ==> names[..i][k] == names[k];
    forall k | 0 <= k < |names| && names[k] == name ensures !NoMention(name, names[..k]) {
      if i < k { assert names[..k][i] == names[i]; }
    }
  }

  // ---------------------------------------------------------------- requests

  /** The well-formed requests of a response, in order. */
  function Requests(pods: seq<Option<EvictRequest>>): (r: seq<EvictRequest>)
    ensures forall i :: 0 <= i < |r| ==> r[i].pod.Some?
  {
    if pods == [] then []
    else
      var rest := Requests(pods[..|pods| - 1]);
      match pods[|pods| - 1]
      case Some(request) => if request.pod.Some? then rest + [request] else rest
      case None => rest
  }

  lemma {:induction false} RequestsMeaning(pods: seq<Option<EvictRequest>>)
    ensures forall r :: r in Requests(pods) <==> Some(r) in pods && r.pod.Some?
  {
    if pods == [] {
    } else {
      RequestsMeaning(pods[..|pods| - 1]);
      assert pods == pods[..|pods| - 1] + [pods[|pods| - 1]];
    }
  }

  lemma {:induction false} PresentMeaning(pods: seq<Option<Pod>>)
    ensures forall p :: p in Present(pods) <==> Some(p) in pods
  {
    if pods == [] {
    } else {
      PresentMeaning(pods[..|pods| - 1]);
      assert pods == pods[..|pods| - 1] + [pods[|pods| - 1]];
    }
  }

  /** The pods of a response, in order. */
  function Present(pods: seq<Option<Pod>>): seq<Pod> {
    if pods == [] then []
    else
      var rest := Present(pods[..|pods| - 1]);
      match pods[|pods| - 1]
      case Some(pod) => rest + [pod]
      case None => rest
  }

  function RequestUid(r: EvictRequest): string {
    if r.pod.Some? then r.pod.value.uid else ""
  }

  function Reason(plugin: string, threshold: Threshold): string {
    "plugin " + plugin + " met threshold in scope " + threshold.scope + ", " + threshold.text
  }

  /** A plugin, a pod it wants evicted, and whether by force or as a candidate. */
  datatype Wish = Wish(plugin: string, pod: Pod, force: bool)

  ghost function RequestWishes(plugin: string, requests: seq<EvictRequest>): set<Wish> {
    set i | 0 <= i < |requests| && requests[i].pod.Some? :: Wish(plugin, requests[i].pod.value, requests[i].force)
  }

  ghost function TargetWishes(plugin: string, pods: seq<Pod>, force: bool): set<Wish> {
    set i | 0 <= i < |pods| :: Wish(plugin, pods[i], force)
  }

  /** A condition and the plugin that reported it. */
  datatype Sight = Sight(plugin: string, condition: Condition)

  ghost function Sights(plugin: string, condition: Option<Condition>): set<Sight> {
    if condition.Some? && condition.value.met then {Sight(plugin, condition.value)} else {}
  }

  /** The requests to file: none for a plugin in dry run. */
  method ReadRequests(pods: seq<Option<EvictRequest>>, dry: bool) returns (requests: seq<EvictRequest>)
    ensures requests == if dry then [] else Requests(pods)
  {
    requests := [];
    for i := 0 to |pods|
      invariant requests == if dry then [] else Requests(pods[..i])
    {
      assert pods[..i + 1][..i] == pods[..i];
      if pods[i].None? || pods[i].value.pod.None? { continue; }
      if !dry { requests := requests + [pods[i].value]; }
    }
    assert pods[..|pods|] == pods;
  }

  method ReadTargets(pods: seq<Option<Pod>>, dry: bool) returns (targets: seq<Pod>)
    ensures targets == if dry then [] else Present(pods)
  {
    targets := [];
    for i := 0 to |pods|
      invariant targets == if dry then [] else Present(pods[..i])
    {
      assert pods[..i + 1][..i] == pods[..i];
      if pods[i].None? { continue; }
      if !dry { targets := targets + [pods[i].value]; }
    }
    assert pods[..|pods|] == pods;
  }

  /** Candidate pods by UID; a later pod replaces an earlier one. */
  function WithCandidates(candidates: map<string, Pod>, pods: seq<Pod>): map<string, Pod> {
    if pods == [] then candidates
    else WithCandidates(candidates, pods[..|pods| - 1])[pods[|pods| - 1].uid := pods[|pods| - 1]]
  }

  /** The last pod with the UID wins, and without one what was known stays. */
  lemma {:induction false} CandidatesMeaning(known: map<string, Pod>, pods: seq<Pod>, u: string)
    ensures
      var m := WithCandidates(known, pods);
      if forall i :: 0 <= i < |pods| ==> pods[i].uid != u
      then (u in m <==> u in known) && (u in m ==> m[u] == known[u])
      else u in m && exists i :: && 0 <= i < |pods| && pods[i] == m[u] && pods[i].uid == u
                                 && forall j :: i < j < |pods| ==> pods[j].uid != u
  {
    if pods == [] {
    } else {
      var init, last := pods[..|pods| - 1], |pods| - 1;
      CandidatesMeaning(known, init, u);
      var m := WithCandidates(known, pods);
      if pods[last].uid == u {
        assert pods[last] == m[u];
      } else if i :| 0 <= i < |init| && init[i].uid == u {
        var k :| && 0 <= k < |init| && init[k] == m[u] && init[k].uid == u
                 && forall j :: k < j < |init| ==> init[j].uid != u;
        assert pods[k] == m[u] && forall j :: k < j < |pods| ==> pods[j].uid != u;
      }
    }
  }

  method AddCandidates(known: map<string, Pod>, pods: seq<Option<Pod>>) returns (candidates: map<string, Pod>)
    ensures candidates == WithCandidates(known, Present(pods))
  {
    var present := ReadTargets(pods, false);
    candidates := known;
    for i := 0 to |present|
      invariant candidates == WithCandidates(known, present[..i])
    {
      assert present[..i + 1][..i] == present[..i];
      candidates := candidates[present[i].uid := present[i]];
    }
    assert present[..|present|] == present;
  }

  // ---------------------------------------------------------------- the collector

  type Victims = map<string, Victim>

  /** Victims are filed under their UID, for a plugin that wished for them in this way. */
  ghost predicate Filed(victims: Victims, force: bool, wishes: set<Wish>) {
    forall u <- victims ::
      victims[u].pod.uid == u && victims[u].force == force && Wish(victims[u].plugin, victims[u].pod, force) in wishes
  }

  /** No wish is lost, and none comes from a dry-run plugin. */
  ghost predicate Served(wishes: set<Wish>, force: Victims, soft: Victims, dryRun: seq<string>) {
    forall w <- wishes :: !Enabled(w.plugin, dryRun) && w.pod.uid in if w.force then force else soft
  }

  ghost predicate Reported(c: Condition, sights: set<Sight>) {
    exists s <- sights :: s.condition == c
  }

  /** Conditions are filed under their name as some plugin outside dry run reported them. */
  ghost predicate ConditionsFiled(conditions: Conditions, sights: set<Sight>, dryRun: seq<string>) {
    && (forall c <- conditions :: c == conditions[c].name && Reported(conditions[c], sights))
    && (forall s <- sights :: !Enabled(s.plugin, dryRun) && s.condition.met && s.condition.name in conditions)
  }

  lemma FileForce(force: Victims, soft: Victims, wishes: set<Wish>, dryRun: seq<string>, v: Victim)
    requires Filed(force, true, wishes) && Filed(soft, false, wishes) && Served(wishes, force, soft, dryRun)
    requires v.force && !Enabled(v.plugin, dryRun)
    ensures
      var force', wishes' := force[v.pod.uid := v], wishes + {Wish(v.plugin, v.pod, true)};
      Filed(force', true, wishes') && Filed(soft, false, wishes') && Served(wishes', force', soft, dryRun)
  {
  }

  lemma FileSoft(force: Victims, soft: Victims, wishes: set<Wish>, dryRun: seq<string>, v: Victim)
    requires Filed(force, true, wishes) && Filed(soft, false, wishes) && Served(wishes, force, soft, dryRun)
    requires !v.force && !Enabled(v.plugin, dryRun)
    ensures
      var soft', wishes' := soft[v.pod.uid := v], wishes + {Wish(v.plugin, v.pod, false)};
      Filed(force, true, wishes') && Filed(soft', false, wishes') && Served(wishes', force, soft', dryRun)
  {
  }

  lemma FileCondition(conditions: Conditions, sights: set<Sight>, dryRun: seq<string>, plugin: string, c: Condition)
    requires ConditionsFiled(conditions, sights, dryRun) && c.met && !Enabled(plugin, dryRun)
    ensures ConditionsFiled(conditions[c.name := c], sights + {Sight(plugin, c)}, dryRun)
  {
    var sights' := sights + {Sight(plugin, c)};
    var conditions' := conditions[c.name := c];
    forall n <- conditions' ensures Reported(conditions'[n], sights') {
      if n == c.name {
        assert Sight(plugin, c) in sights';
      } else {
        var s :| s in sights && s.condition == conditions[n];
        assert s in sights';
      }
    }
  }

  function SoftVictim(plugin: string, threshold: Threshold, pod: Pod): Victim {
    Victim(pod, Reason(plugin, threshold), null, false, plugin, threshold.scope)
  }

  /** The soft victims after the targets were filed in order. */
  function SoftAfter(soft: Victims, plugin: string, threshold: Threshold, pods: seq<Pod>): Victims {
    if pods == [] then soft
    else
      var init, pod := pods[..|pods| - 1], pods[|pods| - 1];
      SoftAfter(soft, plugin, threshold, init)[pod.uid := SoftVictim(plugin, threshold, pod)]
  }

  lemma SoftAfterStep(soft: Victims, plugin: string, threshold: Threshold, pods: seq<Pod>, i: nat)
    requires i < |pods|
    ensures SoftAfter(soft, plugin, threshold, pods[..i + 1]) ==
            SoftAfter(soft, plugin, threshold, pods[..i])[pods[i].uid := SoftVictim(plugin, threshold, pods[i])]
  {
    assert pods[..i + 1][..i] == pods[..i];
  }

  class Collector {
    const dryRun: seq<string>
    var met: Thresholds
    var candidates: map<string, Pod>
    var conditions: Conditions
    var soft: Victims
    var force: Victims
    ghost var wishes: set<Wish>
    ghost var sights: set<Sight>

    ghost predicate Valid()
      reads this
    {
      && Filed(force, true, wishes) && Filed(soft, false, wishes) && Served(wishes, force, soft, dryRun)
      && ConditionsFiled(conditions, sights, dryRun)
    }

    constructor (dryRun: seq<string>)
      ensures Valid() && this.dryRun == dryRun
      ensures met == map[] && candidates == map[] && conditions == map[] && soft == map[] && force == map[]
              && wishes == {} && sights == {}
    {
      this.dryRun := dryRun;
      met, candidates, conditions, soft, force, wishes, sights := map[], map[], map[], map[], map[], {}, {};
    }

    /** File a condition a plugin reports. */
    method SetCondition(plugin: string, condition: Option<Condition>, dry: bool)
      requires Valid() && dry == Enabled(plugin, dryRun)
      modifies this`conditions, this`sights
      ensures Valid()
      ensures sights == if dry then old(sights) else old(sights) + Sights(plugin, condition)
      ensures dry ==> conditions == old(conditions)
    {
      hide Filed, Served, ConditionsFiled, Enabled;
      if condition.Some? && condition.value.met && !dry {
        FileCondition(conditions, sights, dryRun, plugin, condition.value);
        conditions := conditions[condition.value.name := condition.value];
        sights := sights + {Sight(plugin, condition.value)};
      }
    }

    /** File one request under the pod's UID; the options are copied. */
    method FileRequest(plugin: string, r: EvictRequest)
      requires Valid() && !Enabled(plugin, dryRun) && r.pod.Some?
      modifies this`soft, this`force, this`wishes
      ensures Valid() && wishes == old(wishes) + {Wish(plugin, r.pod.value, r.force)}
      ensures Replaces(old(force), force, r.force, RequestUid(r)) && Replaces(old(soft), soft, !r.force, RequestUid(r))
      ensures FiledIn(if r.force then force else soft, plugin, r)
      ensures var v := (if r.force then force else soft)[RequestUid(r)]; v.options != null ==> fresh(v.options)
    {
      var options: DeletionOptions? := null;
      if r.grace.Some? { options := new DeletionOptions(r.grace.value); }
      hide Valid, Enabled;
      if r.force {
        AddForce(Victim(r.pod.value, r.reason, options, true, plugin, "force"));
      } else {
        AddSoft(Victim(r.pod.value, r.reason, options, false, plugin, "soft"));
      }
    }

    /** File the next request of a list. */
    method FileNext(plugin: string, requests: seq<EvictRequest>, i: nat)
      requires Valid() && i < |requests| && !Enabled(plugin, dryRun) && requests[i].pod.Some?
      requires LastFiled(force, soft, plugin, requests[..i])
      modifies this`soft, this`force, this`wishes
      ensures Valid() && wishes == old(wishes) + {Wish(plugin, requests[i].pod.value, requests[i].force)}
      ensures LastFiled(force, soft, plugin, requests[..i + 1])
    {
      hide Valid, Enabled, FiledIn, LastFiled, Replaces;
      ghost var wasForce, wasSoft := force, soft;
      FileRequest(plugin, requests[i]);
      assert forall o <- OptionsOf(wasForce) + OptionsOf(wasSoft) :: unchanged(o);
      LastFiledStep(wasForce, wasSoft, force, soft, plugin, requests, i);
    }

    method FileRequests(plugin: string, requests: seq<EvictRequest>)
      requires Valid() && (requests != [] ==> !Enabled(plugin, dryRun)) && forall r <- requests :: r.pod.Some?
      modifies this`soft, this`force, this`wishes
      ensures Valid() && wishes == old(wishes) + RequestWishes(plugin, requests)
      ensures LastFiled(force, soft, plugin, requests)
      ensures requests == [] ==> soft == old(soft) && force == old(force)
    {
      assert RequestWishes(plugin, []) == {} && LastFiled(force, soft, plugin, []);
      hide Valid, Enabled, LastFiled, RequestWishes, OptionsOf;
      for i := 0 to |requests|
        invariant Valid() && wishes == old(wishes) + RequestWishes(plugin, requests[..i])
        invariant LastFiled(force, soft, plugin, requests[..i])
        invariant requests == [] ==> soft == old(soft) && force == old(force)
      {
        RequestWishesStep(plugin, requests, i);
        FileNext(plugin, requests, i);
      }
      assert requests[..|requests|] == requests;
    }

    /** Force and soft requests of one plugin, and its condition. */
    method CollectEvictPods(plugin: string, resp: EvictResponse)
      requires Valid()
      modifies this`soft, this`force, this`conditions, this`wishes, this`sights
      ensures Valid()
      ensures Enabled(plugin, dryRun) ==>
                wishes == old(wishes) && sights == old(sights) && soft == old(soft) && force == old(force)
                && conditions == old(conditions)
      ensures !Enabled(plugin, dryRun) ==>
                && wishes == old(wishes) + RequestWishes(plugin, Requests(resp.pods))
                && sights == old(sights) + Sights(plugin, resp.condition)
                && LastFiled(force, soft, plugin, Requests(resp.pods))
    {
      var dry := IsNameEnabled(plugin, {}, dryRun);
      assert dry == Enabled(plugin, dryRun);
      hide *;
      FilePods(plugin, resp.pods, dry);
      ghost var options := OptionsOf(force) + OptionsOf(soft);
      label filed:
      SetCondition(plugin, resp.condition, dry);
      assert forall o <- options :: unchanged@filed(o);
    }

    /** The requests of a plugin, unless it runs dry. */
    method FilePods(plugin: string, pods: seq<Option<EvictRequest>>, dry: bool)
      requires Valid() && dry == Enabled(plugin, dryRun)
      modifies this`soft, this`force, this`wishes
      ensures Valid()
      ensures dry ==> wishes == old(wishes) && soft == old(soft) && force == old(force)
      ensures !dry ==> wishes == old(wishes) + RequestWishes(plugin, Requests(pods))
      ensures !dry ==> LastFiled(force, soft, plugin, Requests(pods))
    {
      var requests := ReadRequests(pods, dry);
      assert RequestWishes(plugin, []) == {};
      hide Valid, Enabled, RequestWishes, LastFiled;
      FileRequests(plugin, requests);
    }

    /** A met threshold and its candidate pods, kept also for dry-run plugins, and its condition. */
    method CollectMetThreshold(plugin: string, resp: ThresholdResponse)
      requires Valid()
      modifies this`met, this`candidates, this`conditions, this`sights
      ensures Valid()
      ensures met == if resp.threshold.metType == NotMet then old(met) else old(met)[plugin := resp.threshold]
      ensures candidates == if resp.threshold.metType == NotMet then old(candidates)
                            else WithCandidates(old(candidates), Present(resp.candidates))
      ensures sights == if resp.threshold.metType == NotMet || Enabled(plugin, dryRun) then old(sights)
                        else old(sights) + Sights(plugin, resp.condition)
      ensures Enabled(plugin, dryRun) ==> conditions == old(conditions)
    {
      var dry := IsNameEnabled(plugin, {}, dryRun);
      if resp.threshold.metType == NotMet { return; }
      met := met[plugin := resp.threshold];
      candidates := AddCandidates(candidates, resp.candidates);
      SetCondition(plugin, resp.condition, dry);
    }

    method AddSoft(v: Victim)
      requires Valid() && !v.force && !Enabled(v.plugin, dryRun)
      modifies this`soft, this`wishes
      ensures Valid() && soft == old(soft)[v.pod.uid := v] && wishes == old(wishes) + {Wish(v.plugin, v.pod, false)}
    {
      hide Filed, Served, ConditionsFiled, Enabled;
      FileSoft(force, soft, wishes, dryRun, v);
      soft := soft[v.pod.uid := v];
      wishes := wishes + {Wish(v.plugin, v.pod, false)};
    }

    method AddForce(v: Victim)
      requires Valid() && v.force && !Enabled(v.plugin, dryRun)
      modifies this`force, this`wishes
      ensures Valid() && force == old(force)[v.pod.uid := v] && wishes == old(wishes) + {Wish(v.plugin, v.pod, true)}
    {
      hide Filed, Served, ConditionsFiled, Enabled;
      FileForce(force, soft, wishes, dryRun, v);
      force := force[v.pod.uid := v];
      wishes := wishes + {Wish(v.plugin, v.pod, true)};
    }

    method AddSofts(plugin: string, threshold: Threshold, targets: seq<Pod>)
      requires Valid() && (targets != [] ==> !Enabled(plugin, dryRun))
      modifies this`soft, this`wishes
      ensures Valid() && wishes == old(wishes) + TargetWishes(plugin, targets, false)
      ensures soft == SoftAfter(old(soft), plugin, threshold, targets)
    {
      assert TargetWishes(plugin, [], false) == {} && SoftAfter(soft, plugin, threshold, []) == soft;
      hide Valid, Enabled, TargetWishes, SoftAfter;
      for i := 0 to |targets|
        invariant Valid() && wishes == old(wishes) + TargetWishes(plugin, targets[..i], false)
        invariant soft == SoftAfter(old(soft), plugin, threshold, targets[..i])
      {
        TargetWishesStep(plugin, targets, i, false);
        SoftAfterStep(old(soft), plugin, threshold, targets, i);
        AddSoft(SoftVictim(plugin, threshold, targets[i]));
      }
      assert targets[..|targets|] == targets;
    }

    /** Targets of a plugin whose soft threshold is met. */
    method CollectTopSoftEvictionPods(plugin: string, threshold: Threshold, resp: TopResponse)
      requires Valid()
      modifies this`soft, this`wishes
      ensures Valid()
      ensures Enabled(plugin, dryRun) ==> wishes == old(wishes) && soft == old(soft)
      ensures !Enabled(plugin, dryRun) ==>
                && wishes == old(wishes) + TargetWishes(plugin, Present(resp.targets), false)
                && soft == SoftAfter(old(soft), plugin, threshold, Present(resp.targets))
    {
      var dry := IsNameEnabled(plugin, {}, dryRun);
      var targets := ReadTargets(resp.targets, dry);
      assert TargetWishes(plugin, [], false) == {} && SoftAfter(soft, plugin, threshold, []) == soft;
      hide Valid, Enabled, TargetWishes, SoftAfter;
      AddSofts(plugin, threshold, targets);
    }
  }

  /** `after` has a victim filed under `u`, if `filed`, and is otherwise `before`. */
  ghost predicate Replaces(before: Victims, after: Victims, filed: bool, u: string) {
    if filed then u in after && after == before[u := after[u]] else after == before
  }

  /** The last request for the pod is the one that is filed, with its own copy of the options. */
  ghost predicate FiledIn(victims: Victims, plugin: string, r: EvictRequest)
    reads OptionsOf(victims)
  {
    && RequestUid(r) in victims
    && var v := victims[RequestUid(r)];
    && v.plugin == plugin && r.pod == Some(v.pod) && v.reason == r.reason && v.force == r.force
    && v.scope == (if r.force then "force" else "soft")
    && r.grace == if v.options == null then None else Some(v.options.grace)
  }

  /** No later request in the list files the same kind of victim for the same pod. */
  predicate LastOfKind(requests: seq<EvictRequest>, i: nat)
    requires i < |requests|
  {
    forall j :: i < j < |requests| && requests[j].force == requests[i].force ==>
      RequestUid(requests[j]) != RequestUid(requests[i])
  }

  ghost function OptionsOf(victims: Victims): set<DeletionOptions> {
    set u | u in victims && victims[u].options != null :: victims[u].options
  }

  ghost predicate LastFiled(force: Victims, soft: Victims, plugin: string, requests: seq<EvictRequest>)
    reads OptionsOf(force), OptionsOf(soft)
  {
    forall i :: 0 <= i < |requests| && LastOfKind(requests, i) ==>
      FiledIn(if requests[i].force then force else soft, plugin, requests[i])
  }

  lemma LastFiledStep(wasForce: Victims, wasSoft: Victims, force: Victims, soft: Victims, plugin: string,
                      requests: seq<EvictRequest>, i: nat)
    requires i < |requests| && LastFiled(wasForce, wasSoft, plugin, requests[..i])
    requires var r := requests[i];
             && Replaces(wasForce, force, r.force, RequestUid(r)) && Replaces(wasSoft, soft, !r.force, RequestUid(r))
             && FiledIn(if r.force then force else soft, plugin, r)
    ensures LastFiled(force, soft, plugin, requests[..i + 1])
  {
    var init, all := requests[..i], requests[..i + 1];
    forall j | 0 <= j < |all| && LastOfKind(all, j)
      ensures FiledIn(if all[j].force then force else soft, plugin, all[j])
    {
      if j < i {
        assert all[j] == init[j] && all[i] == requests[i];
        assert forall k :: 0 <= k < i ==> init[k] == all[k];
        assert LastOfKind(init, j);
        assert FiledIn(if init[j].force then wasForce else wasSoft, plugin, init[j]);
      }
    }
  }

  lemma RequestWishesStep(plugin: string, requests: seq<EvictRequest>, i: nat)
    requires i < |requests| && requests[i].pod.Some?
    ensures RequestWishes(plugin, requests[..i + 1]) ==
            RequestWishes(plugin, requests[..i]) + {Wish(plugin, requests[i].pod.value, requests[i].force)}
  {
    assert requests[..i + 1] == requests[..i] + [requests[i]];
    var a := requests[..i + 1];
    assert a[i] == requests[i] && forall j :: 0 <= j < i ==> a[j] == requests[..i][j];
  }

  lemma TargetWishesStep(plugin: string, pods: seq<Pod>, i: nat, force: bool)
    requires i < |pods|
    ensures TargetWishes(plugin, pods[..i + 1], force) ==
            TargetWishes(plugin, pods[..i], force) + {Wish(plugin, pods[i], force)}
  {
    var a := pods[..i + 1];
    assert a[i] == pods[i] && forall j :: 0 <= j < i ==> a[j] == pods[..i][j];
  }
}
