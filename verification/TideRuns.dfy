/** Every write of the tide controller to a node, and what holds over any interleaving of writes of
    several pools (pkg/controller/tide/tide.go, lines 291-412 and 527-673). A write is accepted by
    the API server only if the node has not changed since it was read, so each write sees the node
    as it is. */
module TideRuns {
  import opened Keys
  import opened Sorting
  import opened TidePool

  type Nodes = map<string, Node>

  /** What the controller was doing for the pool. */
  datatype Op = Reconciling | Deleting | Balancing

  datatype Write = Write(pool: Pool, op: Op, node: string, after: Node)

  // ---------------------------------------------------------------- permitted writes

  predicate OwnTaint(pool: Pool, t: Taint) {
    t.key == pool.EvictOnlineTaint().key || t.key == pool.EvictOfflineTaint().key
  }

  function Foreign(pool: Pool): Taint -> bool {
    t => !OwnTaint(pool, t)
  }

  function ForeignTaints(pool: Pool, taints: seq<Taint>): seq<Taint> {
    Filter(taints, Foreign(pool))
  }

  /** The node without the pool's taints and labels. */
  function Cleaned(pool: Pool, node: Node): Node {
    Node(node.labels - pool.OwnKeys(), ForeignTaints(pool, node.taints))
  }

  /** Reconciling claims a node without a pool, or turns a surplus reserve into a tide node. */
  ghost predicate Reconciles(pool: Pool, before: Node, after: Node) {
    && after.taints == before.taints
    && if POOL_KEY !in before.labels
       then || after.labels == ToOnlineReserve(pool, before.labels)
            || after.labels == ToOfflineReserve(pool, before.labels)
            || after.labels == ToTideOnline(pool, before.labels)
       else && (IsOnlineReserve(pool, before.labels) || IsOfflineReserve(pool, before.labels))
            && after.labels == ToTide(pool, before.labels)
  }

  /** Balancing switches a tide node of the pool between online and offline. */
  ghost predicate Switches(pool: Pool, before: Node, after: Node) {
    && IsTide(pool, before.labels)
    && (|| after.labels == OnlineLabels(pool, before.labels)
        || after.labels == OfflineLabels(pool, before.labels))
    && ForeignTaints(pool, after.taints) == ForeignTaints(pool, before.taints)
  }

  ghost predicate AnotherOnline(pool: Pool, nodes: Nodes, n: string) {
    exists m <- nodes :: m != n && IsOnlineTide(pool, nodes[m].labels)
  }

  ghost predicate Permitted(nodes: Nodes, w: Write) {
    && (w.op != Deleting ==> w.pool.KeepsOwner())
    && w.node in nodes
    && match w.op
       case Reconciling => Reconciles(w.pool, nodes[w.node], w.after)
       case Deleting => InPool(w.pool, nodes[w.node].labels) && w.after == Cleaned(w.pool, nodes[w.node])
       case Balancing =>
         && Switches(w.pool, nodes[w.node], w.after)
         && (IsOnlineTide(w.pool, w.after.labels) || AnotherOnline(w.pool, nodes, w.node))
  }

  ghost function Run(nodes: Nodes, ws: seq<Write>): Nodes {
    if ws == [] then nodes
    else
      var w := ws[|ws| - 1];
      Run(nodes, ws[..|ws| - 1])[w.node := w.after]
  }

  ghost predicate RunPermitted(nodes: Nodes, ws: seq<Write>) {
    ws == [] || (RunPermitted(nodes, ws[..|ws| - 1]) && Permitted(Run(nodes, ws[..|ws| - 1]), ws[|ws| - 1]))
  }

  lemma RunAppend(nodes: Nodes, ws: seq<Write>, w: Write)
    requires RunPermitted(nodes, ws) && Permitted(Run(nodes, ws), w)
    ensures RunPermitted(nodes, ws + [w]) && Run(nodes, ws + [w]) == Run(nodes, ws)[w.node := w.after]
  {
    assert (ws + [w])[..|ws|] == ws;
  }

  // ---------------------------------------------------------------- ownership

  /** The pool a node carries the label of. */
  function OwnerOf(node: Node): Option<string> {
    if POOL_KEY in node.labels then Some(node.labels[POOL_KEY]) else None
  }

  /** A node's pool label changes only from absent to the writing pool while it reconciles, or from
      the writing pool to absent while it is deleted; no pool writes to another pool's node. */
  lemma OwnerChanges(nodes: Nodes, w: Write)
    requires Permitted(nodes, w)
    ensures
      var was, now := OwnerOf(nodes[w.node]), OwnerOf(w.after);
      && (was == None || was == Some(w.pool.name))
      && (now == None || now == Some(w.pool.name))
      && (was == None ==> w.op == Reconciling && now == Some(w.pool.name))
      && (now == None ==> w.op == Deleting && was == Some(w.pool.name))
  {
  }

  /** Cleaning removes exactly the pool's taints and labels and leaves the node unclassified for
      every pool. */
  lemma CleanedMeaning(pool: Pool, node: Node)
    ensures forall t :: t in Cleaned(pool, node).taints <==> t in node.taints && !OwnTaint(pool, t)
    ensures SameForeignLabels(pool, node.labels, Cleaned(pool, node).labels)
    ensures forall k <- pool.OwnKeys() :: k !in Cleaned(pool, node).labels
    ensures forall p: Pool :: RoleOf(p, Cleaned(pool, node).labels) == Unknown
  {
    FilterEntries(node.taints, Foreign(pool));
  }

  /** No write of the pool releases a node. */
  ghost predicate NeverDeletes(q: string, ws: seq<Write>) {
    forall w <- ws :: w.op == Deleting ==> w.pool.name != q
  }

  lemma OwnedStep(nodes: Nodes, w: Write, n: string, q: string)
    requires Permitted(nodes, w) && n in nodes && OwnerOf(nodes[n]) == Some(q)
    requires w.op == Deleting ==> w.pool.name != q
    ensures OwnerOf(nodes[w.node := w.after][n]) == Some(q)
    ensures w.node == n ==> w.pool.name == q
  {
    OwnerChanges(nodes, w);
  }

  /** As long as its pool is not deleted, a claimed node stays with the pool and only that pool
      writes to it, whatever other pools do in between. */
  lemma {:induction false} OwnedUntilDeleted(nodes: Nodes, ws: seq<Write>, n: string, q: string)
    requires RunPermitted(nodes, ws) && n in nodes && OwnerOf(nodes[n]) == Some(q) && NeverDeletes(q, ws)
    ensures n in Run(nodes, ws) && OwnerOf(Run(nodes, ws)[n]) == Some(q)
    ensures forall w <- ws :: w.node == n ==> w.pool.name == q
  {
    hide Permitted, OwnerOf;
    if ws == [] {
    } else {
      var init, w := ws[..|ws| - 1], ws[|ws| - 1];
      assert ws == init + [w];
      OwnedUntilDeleted(nodes, init, n, q);
      OwnedStep(Run(nodes, init), w, n, q);
    }
  }

  // ---------------------------------------------------------------- online tide nodes

  ghost predicate SomeOnline(pool: Pool, nodes: Nodes) {
    exists n <- nodes :: IsOnlineTide(pool, nodes[n].labels)
  }

  /** Writes under the pool's name come from the pool itself and never delete it. */
  ghost predicate Respects(pool: Pool, ws: seq<Write>) {
    forall w <- ws :: w.pool.name == pool.name ==> w.pool == pool && w.op != Deleting
  }

  lemma OnlineStep(pool: Pool, nodes: Nodes, w: Write)
    requires pool.KeysApart() && Permitted(nodes, w) && SomeOnline(pool, nodes)
    requires w.pool.name == pool.name ==> w.pool == pool && w.op != Deleting
    ensures SomeOnline(pool, nodes[w.node := w.after])
  {
    var nodes' := nodes[w.node := w.after];
    var n :| n in nodes && IsOnlineTide(pool, nodes[n].labels);
    if n != w.node {
      assert IsOnlineTide(pool, nodes'[n].labels);
    } else {
      OwnerChanges(nodes, w);
      assert w.pool == pool;
      if w.op == Balancing && !IsOnlineTide(pool, w.after.labels) {
        var m :| m in nodes && m != w.node && IsOnlineTide(pool, nodes[m].labels);
        assert IsOnlineTide(pool, nodes'[m].labels);
      } else {
        assert IsOnlineTide(pool, nodes'[n].labels);
      }
    }
  }

  /** What balancing has read of other nodes stays good enough until it writes: only the pool's own
      balancing or its deletion can take away the other online node. */
  lemma AnotherOnlineKept(pool: Pool, nodes: Nodes, w: Write, n: string)
    requires pool.KeysApart() && Permitted(nodes, w) && AnotherOnline(pool, nodes, n)
    requires w.pool.name == pool.name ==> w.pool == pool && w.op == Reconciling
    ensures AnotherOnline(pool, nodes[w.node := w.after], n)
  {
    var nodes' := nodes[w.node := w.after];
    var m :| m in nodes && m != n && IsOnlineTide(pool, nodes[m].labels);
    if m == w.node { OwnerChanges(nodes, w); }
    assert IsOnlineTide(pool, nodes'[m].labels);
  }

  /** Once a pool has an online tide node it always has one, over any run of reconciles and
      balancing of all pools and deletions of other pools. */
  lemma {:induction false} OnlineTideSurvives(pool: Pool, nodes: Nodes, ws: seq<Write>)
    requires pool.KeysApart() && RunPermitted(nodes, ws) && Respects(pool, ws) && SomeOnline(pool, nodes)
    ensures SomeOnline(pool, Run(nodes, ws))
  {
    if ws == [] {
    } else {
      var init, w := ws[..|ws| - 1], ws[|ws| - 1];
      assert forall x <- init :: x in ws;
      assert w in ws;
      OnlineTideSurvives(pool, nodes, init);
      OnlineStep(pool, Run(nodes, init), w);
    }
  }

  // ---------------------------------------------------------------- reserve nodes

  /** No node is both a reserve and a tide node of the pool. */
  ghost predicate RolesApart(pool: Pool, nodes: Nodes) {
    forall n <- nodes :: !(IsTide(pool, nodes[n].labels) && IsReserve(nodes[n].labels))
  }

  lemma {:induction false} RolesStayApart(pool: Pool, nodes: Nodes, ws: seq<Write>)
    requires pool.KeysApart() && RunPermitted(nodes, ws) && RolesApart(pool, nodes)
    requires forall w <- ws :: w.pool.name == pool.name ==> w.pool == pool
    ensures RolesApart(pool, Run(nodes, ws))
  {
    if ws == [] {
    } else {
      var init, w := ws[..|ws| - 1], ws[|ws| - 1];
      assert forall x <- init :: x in ws;
      assert w in ws;
      RolesStayApart(pool, nodes, init);
      RolesApartStep(pool, Run(nodes, init), w);
    }
  }

  lemma RolesApartStep(pool: Pool, nodes: Nodes, w: Write)
    requires pool.KeysApart() && Permitted(nodes, w) && RolesApart(pool, nodes)
    requires w.pool.name == pool.name ==> w.pool == pool
    ensures RolesApart(pool, nodes[w.node := w.after])
  {
    OwnerChanges(nodes, w);
    if w.pool == pool && w.op == Reconciling { SettersMeaning(pool, nodes[w.node].labels); }
  }
}
