/** Releasing the nodes of a deleted tide pool (pkg/controller/tide/tide.go, lines 291-332). */
module TideRelease {
  import opened Keys
  import opened Sorting
  import opened TidePool
  import opened TideRuns
  import opened TideReconcile

  function Owned(pool: Pool): Taint -> bool {
    t => OwnTaint(pool, t)
  }

  /** Dropping an own taint that is followed by foreign taints up to `b`. */
  lemma DropOwn(pool: Pool, taints: seq<Taint>, s: nat, b: nat)
    requires s < b <= |taints| && OwnTaint(pool, taints[s])
    requires forall j :: s < j < b ==> !OwnTaint(pool, taints[j])
    ensures Filter(taints[s..], Foreign(pool)) == taints[s + 1..b] + Filter(taints[b..], Foreign(pool))
  {
    var mid := taints[s + 1..b];
    assert taints[s..] == [taints[s]] + (mid + taints[b..]);
    FilterConcat([taints[s]], mid + taints[b..], Foreign(pool));
    FilterConcat(mid, taints[b..], Foreign(pool));
    FilterAll(mid, Foreign(pool));
    assert [taints[s]][..0] == [];
  }

  lemma Between(found: seq<int>, i: nat, j: int)
    requires Increasing(found) && i < |found| && found[i] < j && (i + 1 < |found| ==> j < found[i + 1])
    ensures j !in found
  {
    forall k | 0 <= k < |found| ensures found[k] != j {}
  }

  lemma CutOut<T>(all: seq<T>, s: nat, b: nat, rest: seq<T>)
    requires s < b <= |all|
    ensures (all[..b] + rest)[..s] + (all[..b] + rest)[s + 1..] == all[..s] + (all[s + 1..b] + rest)
  {
  }

  /** Remove the entries at `found`, the positions of the pool's taints, from the back. */
  method RemoveAt(pool: Pool, all: seq<Taint>, found: seq<int>) returns (taints: seq<Taint>)
    requires found == Positions(all, Owned(pool))
    ensures taints == ForeignTaints(pool, all)
  {
    PositionsMeaning(all, Owned(pool));
    assert Filter(all[|all|..], Foreign(pool)) == [];
    hide Positions, Filter, OwnTaint, Owned;
    taints := all;
    ghost var b := |all|;
    for i := |found| downto 0
      invariant b == (if i == |found| then |all| else found[i])
      invariant taints == all[..b] + Filter(all[b..], Foreign(pool))
    {
      var s := found[i];
      NoneBetween(pool, all, found, i, b);
      DropOwn(pool, all, s, b);
      CutOut(all, s, b, Filter(all[b..], Foreign(pool)));
      taints := taints[..s] + taints[s + 1..];
      b := s;
    }
    NoneBefore(pool, all, found, b);
  }

  lemma NoneBetween(pool: Pool, all: seq<Taint>, found: seq<int>, i: nat, b: nat)
    requires Increasing(found) && InRange(found, |all|) && i < |found|
    requires forall j :: j in found <==> 0 <= j < |all| && Owned(pool)(all[j])
    requires b == if i + 1 < |found| then found[i + 1] else |all|
    ensures found[i] < b && OwnTaint(pool, all[found[i]])
    ensures forall j :: found[i] < j < b ==> !OwnTaint(pool, all[j])
  {
    assert found[i] in found;
    forall j | found[i] < j < b ensures !OwnTaint(pool, all[j]) {
      Between(found, i, j);
      assert !Owned(pool)(all[j]);
    }
  }

  lemma NoneBefore(pool: Pool, all: seq<Taint>, found: seq<int>, b: nat)
    requires Increasing(found) && InRange(found, |all|)
    requires forall j :: j in found <==> 0 <= j < |all| && Owned(pool)(all[j])
    requires b == if found == [] then |all| else found[0]
    ensures ForeignTaints(pool, all) == all[..b] + Filter(all[b..], Foreign(pool))
  {
    forall j | 0 <= j < b ensures Foreign(pool)(all[j]) {
      assert j !in found;
      assert !Owned(pool)(all[j]);
    }
    FilterAll(all[..b], Foreign(pool));
    FilterConcat(all[..b], all[b..], Foreign(pool));
    assert all == all[..b] + all[b..];
  }

  /** Find the pool's taints, remove them from the back to the front, and delete the pool's labels. */
  method CleanNode(pool: Pool, node: Node) returns (cleaned: Node)
    ensures cleaned == Cleaned(pool, node)
  {
    var found: seq<int> := [];
    for i := 0 to |node.taints|
      invariant found == Positions(node.taints[..i], Owned(pool))
    {
      assert node.taints[..i + 1][..i] == node.taints[..i];
      if OwnTaint(pool, node.taints[i]) {
        found := found + [i];
      }
    }
    assert node.taints[..|node.taints|] == node.taints;
    PositionsMeaning(node.taints, Owned(pool));
    var taints := RemoveAt(pool, node.taints, found);
    var labels := node.labels - {pool.OnlineLabel().key} - {pool.OfflineLabel().key} - {pool.TideLabel().key}
    - {RESERVE_KEY} - {TYPE_KEY} - {POOL_KEY};
    assert labels == node.labels - pool.OwnKeys();
    return Node(labels, taints);
  }

  /** The cluster after the nodes in `done` were cleaned. */
  ghost function Released(pool: Pool, nodes: Nodes, done: set<string>): Nodes {
    map n <- nodes :: if n in done then Cleaned(pool, nodes[n]) else nodes[n]
  }

  ghost function PoolNodes(pool: Pool, nodes: Nodes): set<string> {
    set n | n in nodes && InPool(pool, nodes[n].labels)
  }

  lemma ReleaseOne(pool: Pool, nodes: Nodes, done: set<string>, n: string)
    requires n in nodes && n !in done
    ensures Released(pool, nodes, done)[n] == nodes[n]
    ensures Released(pool, nodes, done)[n := Cleaned(pool, nodes[n])] == Released(pool, nodes, done + {n})
  {
  }

  /** Clean every node of the pool; a refused write stops the release. */
  method ReconcileDelete(cluster: Cluster, pool: Pool, listing: seq<string>, accept: nat -> bool) returns (ok: bool)
    requires cluster.Valid() && Distinct(listing) && Elements(listing) == PoolNodes(pool, cluster.nodes)
    modifies cluster
    ensures cluster.Valid() && WrittenBy(old(cluster.log), cluster.log, pool, Deleting)
    ensures exists done ::
              done <= PoolNodes(pool, old(cluster.nodes)) && cluster.nodes == Released(pool, old(cluster.nodes), done)
    ensures ok ==> cluster.nodes == Released(pool, old(cluster.nodes), PoolNodes(pool, old(cluster.nodes)))
    ensures (forall i :: 0 <= i < |listing| ==> accept(i)) ==> ok
  {
    ghost var start, all := cluster.nodes, PoolNodes(pool, cluster.nodes);
    ghost var done := {};
    assert cluster.nodes == Released(pool, start, {});
    hide RunPermitted, Run, Cleaned, InPool, Released;
    for i := 0 to |listing|
      invariant cluster.Valid() && WrittenBy(old(cluster.log), cluster.log, pool, Deleting)
      invariant done == Elements(listing[..i]) && done <= all
      invariant cluster.nodes == Released(pool, start, done)
    {
      var n := listing[i];
      assert n in Elements(listing) && n !in done;
      ReleaseOne(pool, start, done, n);
      assert listing[..i + 1] == listing[..i] + [n];
      ElementsAppend(listing[..i], n);
      var cleaned := CleanNode(pool, cluster.nodes[n]);
      cluster.Update(pool, Deleting, n, cleaned, accept(i));
      if !accept(i) { return false; }
      done := done + {n};
    }
    assert listing[..|listing|] == listing;
    return true;
  }

  /** After a complete release the pool has no nodes, its labels and taints are gone from the nodes
      it had, and no other node changed. */
  lemma ReleasedMeaning(pool: Pool, nodes: Nodes)
    ensures
      var after := Released(pool, nodes, PoolNodes(pool, nodes));
      && after.Keys == nodes.Keys && PoolNodes(pool, after) == {}
      && forall n <- nodes ::
          if InPool(pool, nodes[n].labels)
          then (forall p: Pool :: RoleOf(p, after[n].labels) == Unknown)
            && (forall t <- after[n].taints :: !OwnTaint(pool, t))
          else after[n] == nodes[n]
  {
    forall n <- nodes { CleanedMeaning(pool, nodes[n]); }
  }
}
