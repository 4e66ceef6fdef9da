/** One balancing round of a tide pool (pkg/controller/tide/tide.go, lines 527-673): hand an offline
    tide node to pending online pods, or release the least used online tide node. The scheduler
    simulation and the usage order are parameters. */
module TideBalance {
  import opened Keys
  import opened Sorting
  import opened TidePool
  import opened TideRuns
  import opened TideReconcile

  // ---------------------------------------------------------------- switching one node

  function Replaced(pool: Pool, to: Taint, t: Taint): Taint {
    if OwnTaint(pool, t) then to else t
  }

  predicate HasOwnTaint(pool: Pool, taints: seq<Taint>) {
    exists i :: 0 <= i < |taints| && OwnTaint(pool, taints[i])
  }

  /** Every own taint becomes `to`; without one, `missing` is added. */
  function Retainted(pool: Pool, taints: seq<Taint>, to: Taint, missing: Taint): seq<Taint> {
    if HasOwnTaint(pool, taints)
    then seq(|taints|, i requires 0 <= i < |taints| => Replaced(pool, to, taints[i]))
    else taints + [missing]
  }

  /** The taint both switches add to a node that has none of the pool's taints. */
  function MissingTaint(pool: Pool): Taint {
    pool.EvictOnlineTaint().(key := pool.EvictOfflineTaint().key)
  }

  /** Rewrite the pool's taints of a node in place. */
  method SwitchTaints(pool: Pool, before: seq<Taint>, to: Taint) returns (taints: seq<Taint>)
    ensures taints == Retainted(pool, before, to, MissingTaint(pool))
  {
    taints := before;
    var found := false;
    for i := 0 to |before|
      invariant |taints| == |before|
      invariant found <==> exists j :: 0 <= j < i && OwnTaint(pool, before[j])
      invariant forall j :: 0 <= j < |before| ==>
                taints[j] == if j < i then Replaced(pool, to, before[j]) else before[j]
    {
      if OwnTaint(pool, taints[i]) {
        taints := taints[i := to];
        found := true;
      }
    }
    if !found {
      taints := taints + [MissingTaint(pool)];
    }
  }

  function SwitchedOnline(pool: Pool, node: Node): Node {
    Node(OnlineLabels(pool, node.labels),
         Retainted(pool, node.taints, pool.EvictOfflineTaint(), MissingTaint(pool)))
  }

  function SwitchedOffline(pool: Pool, node: Node): Node {
    Node(OfflineLabels(pool, node.labels),
         Retainted(pool, node.taints, pool.EvictOnlineTaint(), MissingTaint(pool)))
  }

  method ChangeNodeToOnline(pool: Pool, node: Node) returns (r: Node)
    ensures r == SwitchedOnline(pool, node)
  {
    var taints := SwitchTaints(pool, node.taints, pool.EvictOfflineTaint());
    var labels := node.labels - {pool.OfflineLabel().key};
    labels := labels[pool.OnlineLabel().key := pool.OnlineLabel().value];
    r := Node(labels, taints);
  }

  method ChangeNodeToOffline(pool: Pool, node: Node) returns (r: Node)
    ensures r == SwitchedOffline(pool, node)
  {
    var taints := SwitchTaints(pool, node.taints, pool.EvictOnlineTaint());
    var labels := node.labels - {pool.OnlineLabel().key};
    labels := labels[pool.OfflineLabel().key := pool.OfflineLabel().value];
    r := Node(labels, taints);
  }

  lemma {:induction false} ReplacedForeign(pool: Pool, taints: seq<Taint>, replaced: seq<Taint>, to: Taint)
    requires OwnTaint(pool, to) && |taints| == |replaced|
    requires forall i :: 0 <= i < |taints| ==> replaced[i] == Replaced(pool, to, taints[i])
    ensures ForeignTaints(pool, replaced) == ForeignTaints(pool, taints)
  {
    if taints == [] {
    } else {
      ReplacedForeign(pool, taints[..|taints| - 1], replaced[..|taints| - 1], to);
    }
  }

  /** Retainting touches only the pool's own taints. */
  lemma RetaintedForeign(pool: Pool, taints: seq<Taint>, to: Taint)
    requires OwnTaint(pool, to)
    ensures ForeignTaints(pool, Retainted(pool, taints, to, MissingTaint(pool))) == ForeignTaints(pool, taints)
  {
    if HasOwnTaint(pool, taints) {
      ReplacedForeign(pool, taints, Retainted(pool, taints, to, MissingTaint(pool)), to);
    } else {
      FilterConcat(taints, [MissingTaint(pool)], Foreign(pool));
    }
  }

  /** Switching a tide node sets the role it is named after and keeps everything the pool does not
      own; switching back restores the labels unless it drops a stale label of the other side. */
  lemma SwitchMeaning(pool: Pool, node: Node)
    requires pool.KeysApart() && IsTide(pool, node.labels)
    ensures Switches(pool, node, SwitchedOnline(pool, node)) && IsOnlineTide(pool, SwitchedOnline(pool, node).labels)
    ensures Switches(pool, node, SwitchedOffline(pool, node)) && IsOfflineTide(pool, SwitchedOffline(pool, node).labels)
    ensures IsOfflineTide(pool, node.labels) ==>
              (SwitchedOffline(pool, SwitchedOnline(pool, node)).labels == node.labels
               <==> pool.OnlineLabel().key == pool.OfflineLabel().key || pool.OnlineLabel().key !in node.labels)
    ensures IsOnlineTide(pool, node.labels) ==>
              (SwitchedOnline(pool, SwitchedOffline(pool, node)).labels == node.labels
               <==> pool.OnlineLabel().key == pool.OfflineLabel().key || pool.OfflineLabel().key !in node.labels)
  {
    hide Retainted, ForeignTaints;
    RetaintedForeign(pool, node.taints, pool.EvictOfflineTaint());
    RetaintedForeign(pool, node.taints, pool.EvictOnlineTaint());
  }

  /** A node switched to offline work repels online pods exactly if it already had one of the pool's
      taints or both taints share a key: otherwise the taint added carries the other key. */
  lemma OfflineSwitchRepelsOnline(pool: Pool, node: Node)
    ensures pool.EvictOnlineTaint() in SwitchedOffline(pool, node).taints
            <==> HasOwnTaint(pool, node.taints) || pool.EvictOnlineTaint().key == pool.EvictOfflineTaint().key
  {
    var taints := SwitchedOffline(pool, node).taints;
    if HasOwnTaint(pool, node.taints) {
      var i :| 0 <= i < |node.taints| && OwnTaint(pool, node.taints[i]);
      assert taints[i] == pool.EvictOnlineTaint();
    } else {
      assert taints[|node.taints|] == MissingTaint(pool);
      assert forall i :: 0 <= i < |node.taints| ==> taints[i] == node.taints[i];
    }
  }

  /** A node switched to online work repels offline pods exactly if it already had one of the pool's
      taints or both taints share value and effect. */
  lemma OnlineSwitchRepelsOffline(pool: Pool, node: Node)
    ensures pool.EvictOfflineTaint() in SwitchedOnline(pool, node).taints
            <==> || HasOwnTaint(pool, node.taints)
                 || (&& pool.EvictOnlineTaint().value == pool.EvictOfflineTaint().value
                     && pool.EvictOnlineTaint().effect == pool.EvictOfflineTaint().effect)
  {
    var taints := SwitchedOnline(pool, node).taints;
    if HasOwnTaint(pool, node.taints) {
      var i :| 0 <= i < |node.taints| && OwnTaint(pool, node.taints[i]);
      assert taints[i] == pool.EvictOfflineTaint();
    } else {
      assert taints[|node.taints|] == MissingTaint(pool);
      assert forall i :: 0 <= i < |node.taints| ==> taints[i] == node.taints[i];
    }
  }

  // ---------------------------------------------------------------- the round

  /** The simulated cluster differs from the real one at most in the pool's own taints. */
  ghost predicate Mirrors(pool: Pool, snapshot: Nodes, nodes: Nodes) {
    && snapshot.Keys == nodes.Keys
    && forall n <- nodes ::
        && snapshot[n].labels == nodes[n].labels
        && ForeignTaints(pool, snapshot[n].taints) == ForeignTaints(pool, nodes[n].taints)
  }

  function OfflineIn(pool: Pool, nodes: Nodes): string -> bool {
    n => n in nodes && IsOfflineTide(pool, nodes[n].labels)
  }

  function OnlineIn(pool: Pool, nodes: Nodes): string -> bool {
    n => n in nodes && IsOnlineTide(pool, nodes[n].labels)
  }

  /** `after` is the cluster after one tide node changed sides: an offline node joined the online
      side because pods were pending, or an online node left it while another stayed. */
  ghost predicate OneSwitch(pool: Pool, before: Nodes, after: Nodes, n: string, pending: nat) {
    && n in before && n in after && after == before[n := after[n]]
    && Switches(pool, before[n], after[n])
    && (|| (pending > 0 && IsOfflineTide(pool, before[n].labels) && IsOnlineTide(pool, after[n].labels))
        || (IsOnlineTide(pool, before[n].labels) && IsOfflineTide(pool, after[n].labels)
          && AnotherOnline(pool, before, n)))
  }

  /** The first of the next `n` answers that is positive. */
  function FirstFit(fits: nat -> bool, n: nat, asked: nat): (k: Option<nat>)
    ensures k.Some? ==> k.value < n && fits(asked + k.value)
  {
    if n == 0 then None
    else if fits(asked) then Some(0)
    else
      var rest := FirstFit(fits, n - 1, asked + 1);
      if rest.Some? then Some(rest.value + 1) else None
  }

  /** The offline node, out of `n`, that helps the first pending pod that fits nowhere and is helped
      by one of them. */
  function Rescue(fits: nat -> bool, n: nat, pending: nat, asked: nat): (k: Option<nat>)
    ensures k.Some? ==> k.value < n
    decreases pending
  {
    if pending == 0 then None
    else if fits(asked) then Rescue(fits, n, pending - 1, asked + 1)
    else if FirstFit(fits, n, asked + 1).Some? then FirstFit(fits, n, asked + 1)
    else Rescue(fits, n, pending - 1, asked + 1 + n)
  }

  /** How many answers are used up when no offline node helps any pending pod. */
  function Spent(fits: nat -> bool, n: nat, pending: nat, asked: nat): nat
    decreases pending
  {
    if pending == 0 then asked
    else if fits(asked) then Spent(fits, n, pending - 1, asked + 1)
    else Spent(fits, n, pending - 1, asked + 1 + n)
  }

  /** Try offline nodes one by one as online nodes; a node that does not help is rolled back. */
  method TryOffline(pool: Pool, ghost nodes: Nodes, simulated: Nodes, offline: seq<string>, fits: nat -> bool,
                    asked: nat)
    returns (snapshot: Nodes, chosen: Option<string>, answered: nat)
    requires pool.WellFormed() && Mirrors(pool, simulated, nodes)
    requires forall i :: 0 <= i < |offline| ==> OfflineIn(pool, nodes)(offline[i])
    ensures chosen.None? ==> Mirrors(pool, snapshot, nodes) && answered == asked + |offline|
    ensures var k := FirstFit(fits, |offline|, asked); chosen == if k.Some? then Some(offline[k.value]) else None
    ensures chosen.Some? ==>
              && OfflineIn(pool, nodes)(chosen.value) && chosen.value in snapshot
              && Switches(pool, nodes[chosen.value], snapshot[chosen.value])
              && IsOnlineTide(pool, snapshot[chosen.value].labels)
  {
    hide Mirrors, Switches, IsOnlineTide, IsOfflineTide, FirstFit;
    snapshot, answered := simulated, asked;
    for j := 0 to |offline|
      invariant Mirrors(pool, snapshot, nodes) && answered == asked + j
      invariant var rest, all := FirstFit(fits, |offline| - j, answered), FirstFit(fits, |offline|, asked);
                if rest.Some? then all == Some(rest.value + j) else all.None?
    {
      var n := offline[j];
      assert OfflineIn(pool, nodes)(n);
      FirstFitStep(fits, |offline| - j, answered);
      var fit := fits(answered);
      snapshot := TryNode(pool, nodes, snapshot, n, fit);
      answered := answered + 1;
      if fit { return snapshot, Some(n), answered; }
    }
    FirstFitStep(fits, 0, answered);
    return snapshot, None, answered;
  }

  lemma FirstFitStep(fits: nat -> bool, n: nat, asked: nat)
    ensures FirstFit(fits, 0, asked) == None
    ensures n > 0 && fits(asked) ==> FirstFit(fits, n, asked) == Some(0)
    ensures n > 0 && !fits(asked) ==>
              var rest := FirstFit(fits, n - 1, asked + 1);
              FirstFit(fits, n, asked) == if rest.Some? then Some(rest.value + 1) else None
  {
  }

  /** Put the node online in the simulation and ask; a negative answer puts it back. */
  method TryNode(pool: Pool, ghost nodes: Nodes, simulated: Nodes, n: string, fit: bool) returns (snapshot: Nodes)
    requires pool.WellFormed() && Mirrors(pool, simulated, nodes) && OfflineIn(pool, nodes)(n)
    ensures !fit ==> Mirrors(pool, snapshot, nodes)
    ensures fit ==> n in snapshot && Switches(pool, nodes[n], snapshot[n]) && IsOnlineTide(pool, snapshot[n].labels)
  {
    hide SwitchedOnline, SwitchedOffline, ForeignTaints, Switches, IsOnlineTide, IsOfflineTide;
    var node := simulated[n];
    SwitchBack(pool, nodes[n], node);
    node := ChangeNodeToOnline(pool, node);
    snapshot := (simulated - {n})[n := node];
    if !fit {
      node := ChangeNodeToOffline(pool, node);
      snapshot := (snapshot - {n})[n := node];
    }
  }

  lemma SwitchBack(pool: Pool, actual: Node, node: Node)
    requires pool.WellFormed() && IsOfflineTide(pool, actual.labels)
    requires node.labels == actual.labels && ForeignTaints(pool, node.taints) == ForeignTaints(pool, actual.taints)
    ensures
      var online := SwitchedOnline(pool, node);
      var back := SwitchedOffline(pool, online);
      && Switches(pool, actual, online) && IsOnlineTide(pool, online.labels)
      && back.labels == actual.labels && ForeignTaints(pool, back.taints) == ForeignTaints(pool, actual.taints)
  {
    SwitchMeaning(pool, node);
    SwitchMeaning(pool, SwitchedOnline(pool, node));
  }

  /** An accepted write switched the node; a refused one changed nothing. */
  ghost predicate Switched(pool: Pool, before: Nodes, after: Nodes, log: seq<Write>, log': seq<Write>, n: string,
                           pending: nat, accepted: bool)
  {
    if accepted then OneSwitch(pool, before, after, n, pending) && |log'| == |log| + 1
      else after == before && log' == log
  }

  /** Give an offline tide node to the first pending pod that needs one. */
  method ReleaseOffline(cluster: Cluster, pool: Pool, offline: seq<string>, pending: nat, fits: nat -> bool,
                        accepted: bool)
    returns (snapshot: Nodes, done: bool, asked: nat)
    requires cluster.Valid() && pool.WellFormed() && pending > 0
    requires forall i :: 0 <= i < |offline| ==> OfflineIn(pool, cluster.nodes)(offline[i])
    modifies cluster
    ensures cluster.Valid() && WrittenBy(old(cluster.log), cluster.log, pool, Balancing)
    ensures |cluster.log| <= |old(cluster.log)| + 1
    ensures cluster.nodes == old(cluster.nodes)
            || exists n :: OneSwitch(pool, old(cluster.nodes), cluster.nodes, n, pending)
    ensures !done ==>
              && cluster.nodes == old(cluster.nodes) && cluster.log == old(cluster.log)
              && Mirrors(pool, snapshot, cluster.nodes)
    ensures done <==> Rescue(fits, |offline|, pending, 0).Some?
    ensures done ==>
              Switched(pool, old(cluster.nodes), cluster.nodes, old(cluster.log), cluster.log,
                       offline[Rescue(fits, |offline|, pending, 0).value], pending, accepted)
    ensures !done ==> asked == Spent(fits, |offline|, pending, 0)
  {
    hide RunPermitted, Run, Switches, ForeignTaints;
    snapshot, asked := cluster.nodes, 0;
    for i := 0 to pending
      invariant cluster.nodes == old(cluster.nodes) && cluster.log == old(cluster.log) && cluster.Valid()
      invariant Mirrors(pool, snapshot, cluster.nodes)
      invariant Rescue(fits, |offline|, pending - i, asked) == Rescue(fits, |offline|, pending, 0)
      invariant Rescue(fits, |offline|, pending - i, asked).None? ==>
                  Spent(fits, |offline|, pending - i, asked) == Spent(fits, |offline|, pending, 0)
    {
      var fit := fits(asked);
      asked := asked + 1;
      if !fit {
        var chosen;
        snapshot, chosen, asked := TryOffline(pool, cluster.nodes, snapshot, offline, fits, asked);
        if chosen.Some? {
          cluster.Update(pool, Balancing, chosen.value, snapshot[chosen.value], accepted);
          assert accepted ==> OneSwitch(pool, old(cluster.nodes), cluster.nodes, chosen.value, pending);
          return snapshot, true, asked;
        }
      }
    }
    return snapshot, false, asked;
  }

  /** The next `n` answers of the scheduler simulation are positive. */
  ghost predicate AllFit(fits: nat -> bool, asked: nat, n: nat) {
    forall k: nat :: asked <= k < asked + n ==> fits(k)
  }

  /** Release the first of at least two online tide nodes if its online pods fit elsewhere. */
  method ReleaseOnline(cluster: Cluster, pool: Pool, snapshot: Nodes, online: seq<string>, podsOn: string -> nat,
                       fits: nat -> bool, asked: nat, accepted: bool) returns (ok: bool)
    requires cluster.Valid() && pool.WellFormed() && Mirrors(pool, snapshot, cluster.nodes)
    requires Distinct(online) && forall i :: 0 <= i < |online| ==> OnlineIn(pool, snapshot)(online[i])
    modifies cluster
    ensures cluster.Valid() && WrittenBy(old(cluster.log), cluster.log, pool, Balancing)
    ensures |cluster.log| <= |old(cluster.log)| + 1
    ensures cluster.nodes == old(cluster.nodes) || exists n :: OneSwitch(pool, old(cluster.nodes), cluster.nodes, n, 0)
    ensures if |online| > 1 && AllFit(fits, asked, podsOn(online[0]))
            then ok == accepted
                 && Switched(pool, old(cluster.nodes), cluster.nodes, old(cluster.log), cluster.log, online[0], 0,
                   accepted)
            else ok && cluster.nodes == old(cluster.nodes) && cluster.log == old(cluster.log)
  {
    hide RunPermitted, Run, ForeignTaints, SwitchedOnline, SwitchedOffline;
    if |online| <= 1 { return true; }
    var n := online[0];
    for i := 0 to podsOn(n)
      invariant AllFit(fits, asked, i)
    {
      if !fits(asked + i) { return true; }
    }
    assert OnlineIn(pool, snapshot)(n) && OnlineIn(pool, snapshot)(online[1]);
    assert IsOnlineTide(pool, cluster.nodes[online[1]].labels);
    SwitchMeaning(pool, snapshot[n]);
    var node := ChangeNodeToOffline(pool, snapshot[n]);
    cluster.Update(pool, Balancing, n, node, accepted);
    assert accepted ==> OneSwitch(pool, old(cluster.nodes), cluster.nodes, n, 0);
    return accepted;
  }

  /** One round. `order` and `later` are the nodes by usage at the two times usage is read. */
  method RunOnce(cluster: Cluster, pool: Pool, order: seq<string>, later: seq<string>, pending: nat,
                 podsOn: string -> nat,
                 fits: nat -> bool, accepted: bool) returns (ok: bool)
    requires cluster.Valid() && pool.WellFormed()
    requires Distinct(order) && Elements(order) == cluster.nodes.Keys
    requires Distinct(later) && Elements(later) == cluster.nodes.Keys
    modifies cluster
    ensures cluster.Valid() && WrittenBy(old(cluster.log), cluster.log, pool, Balancing)
    ensures |cluster.log| <= |old(cluster.log)| + 1
    ensures cluster.nodes == old(cluster.nodes)
            || exists n :: OneSwitch(pool, old(cluster.nodes), cluster.nodes, n, pending)
    ensures match Decision(pool, old(cluster.nodes), order, later, pending, podsOn, fits)
            case None => ok && cluster.nodes == old(cluster.nodes) && cluster.log == old(cluster.log)
            case Some(n) =>
              ok == accepted
              && Switched(pool, old(cluster.nodes), cluster.nodes, old(cluster.log), cluster.log, n, pending, accepted)
  {
    hide RunPermitted, Run, Switches, ForeignTaints, OneSwitch, Mirrors, Filter, Rescue, Spent, AllFit, Distinct,
      Elements;
    ghost var before := cluster.nodes;
    var snapshot, asked := cluster.nodes, 0;
    NothingTried(pool, before, fits, |Filter(order, OfflineIn(pool, before))|);
    if pending != 0 {
      var offline := Filter(order, OfflineIn(pool, snapshot));
      FilterEntries(order, OfflineIn(pool, snapshot));
      if offline == [] { return true; }
      var done;
      snapshot, done, asked := ReleaseOffline(cluster, pool, offline, pending, fits, accepted);
      if done { return accepted; }
    }
    SameOnline(pool, snapshot, before, later);
    var online := Filter(later, OnlineIn(pool, snapshot));
    FilterEntries(later, OnlineIn(pool, snapshot));
    DistinctFilter(later, OnlineIn(pool, snapshot));
    ok := ReleaseOnline(cluster, pool, snapshot, online, podsOn, fits, asked, accepted);
    if |online| > 1 && OneSwitch(pool, before, cluster.nodes, online[0], 0) {
      PendingIrrelevant(pool, before, cluster.nodes, online[0], pending);
    }
  }

  lemma NothingTried(pool: Pool, nodes: Nodes, fits: nat -> bool, n: nat)
    ensures Mirrors(pool, nodes, nodes) && Rescue(fits, n, 0, 0) == None && Spent(fits, n, 0, 0) == 0
  {
  }

  /** The node a round switches: the offline node that helps a pending pod; without one, the least
      used of at least two online nodes if all its online pods fit elsewhere. Pending pods without
      any offline node end the round. */
  ghost function Decision(pool: Pool, nodes: Nodes, order: seq<string>, later: seq<string>, pending: nat,
                          podsOn: string -> nat, fits: nat -> bool): Option<string>
  {
    var offline, online := Filter(order, OfflineIn(pool, nodes)), Filter(later, OnlineIn(pool, nodes));
    var helper := Rescue(fits, |offline|, pending, 0);
    if helper.Some? then Some(offline[helper.value])
    else if pending > 0 && offline == [] then None
    else if |online| > 1 && AllFit(fits, Spent(fits, |offline|, pending, 0), podsOn(online[0])) then Some(online[0])
    else None
  }

  // ---------------------------------------------------------------- the decision, question by question

  /** Where the questions about each pending pod begin: one about the cluster as it is, and one per
      offline node if the answer to that is no. */
  ghost predicate Transcript(fits: nat -> bool, n: nat, at: seq<nat>) {
    forall j :: 0 <= j < |at| - 1 ==> at[j + 1] == at[j] + 1 + if fits(at[j]) then 0 else n
  }

  /** The pod fits already, or no offline node helps it. */
  ghost predicate Unhelped(fits: nat -> bool, n: nat, a: nat) {
    fits(a) || forall q: nat :: a < q <= a + n ==> !fits(q)
  }

  /** The pod fits nowhere, and the first offline node that helps it is the `k`th. */
  ghost predicate HelpedBy(fits: nat -> bool, n: nat, a: nat, k: nat) {
    !fits(a) && k < n && fits(a + 1 + k) && forall q: nat :: a < q <= a + k ==> !fits(q)
  }

  lemma {:induction false} FirstFitMeaning(fits: nat -> bool, n: nat, a: nat)
    ensures FirstFit(fits, n, a).None? <==> forall q: nat :: a <= q < a + n ==> !fits(q)
    ensures FirstFit(fits, n, a).Some? ==> forall q: nat :: a <= q < a + FirstFit(fits, n, a).value ==> !fits(q)
  {
    if n == 0 {
    } else {
      FirstFitMeaning(fits, n - 1, a + 1);
    }
  }

  lemma RescueStep(fits: nat -> bool, n: nat, pending: nat, a: nat, next: nat)
    requires pending > 0 && next == a + 1 + if fits(a) then 0 else n
    ensures Unhelped(fits, n, a) ==> Rescue(fits, n, pending, a) == Rescue(fits, n, pending - 1, next)
    ensures !Unhelped(fits, n, a) ==>
              Rescue(fits, n, pending, a).Some? && HelpedBy(fits, n, a, Rescue(fits, n, pending, a).value)
    ensures Spent(fits, n, pending, a) == Spent(fits, n, pending - 1, next)
  {
    FirstFitMeaning(fits, n, a + 1);
  }

  /** The `k`th offline node is the first to help the first pod that is helped at all. */
  ghost predicate Rescued(fits: nat -> bool, n: nat, at: seq<nat>, j: nat, k: nat)
    requires j < |at|
  {
    HelpedBy(fits, n, at[j], k) && forall i :: 0 <= i < j ==> Unhelped(fits, n, at[i])
  }

  lemma {:induction false} RescueMeaning(fits: nat -> bool, n: nat, pending: nat, at: seq<nat>)
    requires |at| == pending + 1 && Transcript(fits, n, at)
    ensures
      match Rescue(fits, n, pending, at[0])
      case None => forall j :: 0 <= j < pending ==> Unhelped(fits, n, at[j])
      case Some(k) => exists j: nat :: j < pending && Rescued(fits, n, at, j, k)
    ensures Spent(fits, n, pending, at[0]) == at[pending]
    decreases pending
  {
    if pending == 0 {
    } else {
      var rest := at[1..];
      RescueMeaning(fits, n, pending - 1, rest);
      RescueStep(fits, n, pending, at[0], at[1]);
      hide Unhelped, HelpedBy, Rescue, Spent;
      var r := Rescue(fits, n, pending, at[0]);
      if Unhelped(fits, n, at[0]) {
        if r.Some? {
          var j: nat :| j < pending - 1 && Rescued(fits, n, rest, j, r.value);
          assert Rescued(fits, n, at, j + 1, r.value) by {
            forall i | 0 <= i < j + 1 ensures Unhelped(fits, n, at[i]) {
              if i > 0 { assert Unhelped(fits, n, rest[i - 1]); }
            }
          }
        } else {
          forall j | 0 <= j < pending ensures Unhelped(fits, n, at[j]) {
            if j > 0 { assert Unhelped(fits, n, rest[j - 1]); }
          }
        }
      } else {
        assert Rescued(fits, n, at, 0, r.value);
      }
    }
  }

  /** What a round decides, in terms of the answers: the first pending pod that fits nowhere and is
      helped by an offline node makes the round switch the first such node. Without one, and unless
      pods are pending and there is no offline node, the least used of at least two online nodes is
      switched if all its online pods fit elsewhere, and otherwise nothing. */
  lemma DecisionMeaning(pool: Pool, nodes: Nodes, order: seq<string>, later: seq<string>, pending: nat,
                        podsOn: string -> nat, fits: nat -> bool, at: seq<nat>)
    requires |at| == pending + 1 && at[0] == 0 && Transcript(fits, |Filter(order, OfflineIn(pool, nodes))|, at)
    ensures
      var offline, online := Filter(order, OfflineIn(pool, nodes)), Filter(later, OnlineIn(pool, nodes));
      var n := |offline|;
      var release := |online| > 1 && forall q :: at[pending] <= q < at[pending] + podsOn(online[0]) ==> fits(q);
      match Decision(pool, nodes, order, later, pending, podsOn, fits)
      case Some(name) =>
        || (exists j: nat, k: nat :: j < pending && k < n && offline[k] == name && Rescued(fits, n, at, j, k))
        || (&& (forall j :: 0 <= j < pending ==> Unhelped(fits, n, at[j]))
            && (pending == 0 || n > 0) && release && online[0] == name)
      case None =>
        && (forall j :: 0 <= j < pending ==> Unhelped(fits, n, at[j]))
        && ((pending > 0 && n == 0) || !release)
  {
    var offline := Filter(order, OfflineIn(pool, nodes));
    hide Filter, Unhelped, Rescued, Rescue, Spent;
    RescueMeaning(fits, |offline|, pending, at);
  }

  lemma SameOnline(pool: Pool, snapshot: Nodes, nodes: Nodes, order: seq<string>)
    requires Mirrors(pool, snapshot, nodes)
    ensures Filter(order, OnlineIn(pool, snapshot)) == Filter(order, OnlineIn(pool, nodes))
  {
    SameFilter(order, OnlineIn(pool, snapshot), OnlineIn(pool, nodes));
  }

  lemma PendingIrrelevant(pool: Pool, before: Nodes, after: Nodes, n: string, pending: nat)
    requires OneSwitch(pool, before, after, n, 0)
    ensures OneSwitch(pool, before, after, n, pending)
  {
  }

  /** A round changes neither a node of another pool nor a reserve node; a node labelled both reserve
      and tide would be the one exception, and no run makes one. */
  lemma ReservesUntouched(pool: Pool, before: Nodes, after: Nodes, n: string, pending: nat)
    requires OneSwitch(pool, before, after, n, pending)
    ensures after.Keys == before.Keys
    ensures forall m <- before :: !IsTide(pool, before[m].labels) || !InPool(pool, before[m].labels) ==>
            after[m] == before[m]
    ensures RolesApart(pool, before) ==> forall m <- before :: IsReserve(before[m].labels) ==> after[m] == before[m]
  {
  }
}
