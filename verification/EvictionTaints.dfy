/** The node taints derived from the reported conditions
    (pkg/agent/evictionmanager/conditions.go, lines 71-105). */
module EvictionTaints {
  import opened Keys
  import opened EvictionObservations

  datatype NodeTaint = NodeTaint(key: string, effect: string)

  const PREFIX := "node.katalyst.kubewharf.io"

  predicate ValidEffect(effect: string) {
    effect == "NoSchedule" || effect == "PreferNoSchedule" || effect == "NoExecute"
  }

  function TaintKey(conditionName: string): string {
    PREFIX + "/" + conditionName
  }

  lemma TaintKeyInjective(a: string, b: string)
    requires TaintKey(a) == TaintKey(b)
    ensures a == b
  {
    assert TaintKey(a)[|PREFIX| + 1..] == a && TaintKey(b)[|PREFIX| + 1..] == b;
  }

  /** The condition asks for the taint. */
  predicate Asks(conditions: Conditions, name: string, effect: string) {
    name in conditions && conditions[name].kind == NodeCondition && effect in conditions[name].effects
      && ValidEffect(effect)
  }

  /** One of the named conditions asks for the taint. */
  ghost predicate AskedFor(conditions: Conditions, names: set<string>, t: NodeTaint) {
    exists name <- names :: t.key == TaintKey(name) && Asks(conditions, name, t.effect)
  }

  /** Exactly the asked-for taints of the named conditions, each once. */
  ghost predicate TaintsOf(conditions: Conditions, names: set<string>, taints: seq<NodeTaint>) {
    Distinct(taints) && forall t :: t in taints <==> AskedFor(conditions, names, t)
  }

  /** The valid effects of one condition, repetitions skipped. */
  method EffectTaints(key: string, effects: seq<string>) returns (taints: seq<NodeTaint>)
    ensures Distinct(taints)
    ensures forall t :: t in taints <==> t.key == key && t.effect in effects && ValidEffect(t.effect)
  {
    taints := [];
    var vis := {};
    for i := 0 to |effects|
      invariant Distinct(taints)
      invariant forall e :: e in vis <==> NodeTaint(key, e) in taints
      invariant forall t :: t in taints <==> t.key == key && t.effect in effects[..i] && ValidEffect(t.effect)
    {
      var e := effects[i];
      assert effects[..i + 1] == effects[..i] + [e];
      if ValidEffect(e) && e !in vis {
        vis := vis + {e};
        taints := taints + [NodeTaint(key, e)];
      }
    }
    assert effects[..|effects|] == effects;
  }

  lemma AskedForGrows(conditions: Conditions, names: set<string>, name: string, t: NodeTaint)
    ensures AskedFor(conditions, names + {name}, t)
            <==> AskedFor(conditions, names, t) || (t.key == TaintKey(name) && Asks(conditions, name, t.effect))
  {
  }

  lemma AddCondition(conditions: Conditions, names: set<string>, taints: seq<NodeTaint>, name: string,
                     added: seq<NodeTaint>)
    requires TaintsOf(conditions, names, taints) && name !in names && Distinct(added)
    requires forall t :: t in added <==> t.key == TaintKey(name) && Asks(conditions, name, t.effect)
    ensures TaintsOf(conditions, names + {name}, taints + added)
  {
    forall t ensures t in taints + added <==> AskedFor(conditions, names + {name}, t) {
      AskedForGrows(conditions, names, name, t);
    }
    forall t | t in taints && t in added ensures false {
      var other :| other in names && t.key == TaintKey(other) && Asks(conditions, other, t.effect);
      TaintKeyInjective(name, other);
    }
    assert forall i, j :: 0 <= i < |taints| && 0 <= j < |added| ==> taints[i] in taints && added[j] in added;
  }

  /** The taints of all node conditions, visited in any order. */
  method GetNodeTaintsFromConditions(conditions: Conditions) returns (taints: seq<NodeTaint>)
    ensures TaintsOf(conditions, conditions.Keys, taints)
  {
    hide TaintsOf, TaintKey, ValidEffect;
    taints := [];
    var todo := conditions.Keys;
    ghost var seen := {};
    NoTaints(conditions);
    while todo != {}
      invariant todo <= conditions.Keys && seen == conditions.Keys - todo
      invariant TaintsOf(conditions, seen, taints)
    {
      var name :| name in todo;
      todo := todo - {name};
      var added := [];
      if conditions[name].kind == NodeCondition {
        added := EffectTaints(TaintKey(name), conditions[name].effects);
      }
      AddCondition(conditions, seen, taints, name, added);
      seen := seen + {name};
      taints := taints + added;
    }
    assert seen == conditions.Keys;
  }

  lemma NoTaints(conditions: Conditions)
    ensures TaintsOf(conditions, {}, [])
  {
  }

  /** Whatever order the conditions are visited in, the result is the same up to order. */
  lemma TaintsOrderFree(conditions: Conditions, a: seq<NodeTaint>, b: seq<NodeTaint>)
    requires TaintsOf(conditions, conditions.Keys, a) && TaintsOf(conditions, conditions.Keys, b)
    ensures multiset(a) == multiset(b)
  {
    DistinctPermutation(a, b);
  }

  /** Over every run, the node is tainted exactly for the node conditions whose latest sight is
      younger than the transition period, with the valid effects of that sight. */
  lemma TaintedIffRecentlySeen(h: seq<Sync>, period: int, now: int, taints: seq<NodeTaint>, name: string,
                               effect: string)
    requires
      var reported := ObservedSince(After(h).conditions, period, now);
      TaintsOf(reported, reported.Keys, taints)
    ensures NodeTaint("node.katalyst.kubewharf.io/" + name, effect) in taints
            <==> exists j ::
                   && LatestSight(h, name, j) && now - h[j].now < period
                   && h[j].seen[name].kind == NodeCondition && effect in h[j].seen[name].effects
                   && effect in {"NoSchedule", "PreferNoSchedule", "NoExecute"}
  {
    var reported := ObservedSince(After(h).conditions, period, now);
    ReportedIffRecent(h, name, period, now);
    var t := NodeTaint(TaintKey(name), effect);
    assert PREFIX + "/" == "node.katalyst.kubewharf.io/";
    assert TaintKey(name) == "node.katalyst.kubewharf.io/" + name;
    forall other | t.key == TaintKey(other) ensures other == name { TaintKeyInjective(other, name); }
    assert t in taints <==> Asks(reported, name, effect);
    forall i, j | LatestSight(h, name, i) && LatestSight(h, name, j) ensures i == j { SameSight(h, name, i, j); }
  }
}
