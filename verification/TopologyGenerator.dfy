/** The zone tree builder (pkg/util/cnr_topology.go, lines 53-115). The tree is made of objects that
    hold their children; a cache maps every zone node to the very object that hangs under it. */
module TopologyGenerator {
  import opened Keys
  import opened KeyedLists

  /** The parent of every node; None for a root. */
  type Parents = map<Key, Option<Key>>

  class ZoneTopology {
    var children: map<Key, ZoneTopology>
    ghost const place: Option<Key>  // the node this object hangs under; None for the root object
    ghost const born: nat           // how many objects were there before it

    constructor (ghost place: Option<Key>, ghost born: nat)
      ensures children == map[] && this.place == place && this.born == born
    {
      children := map[];
      this.place, this.born := place, born;
    }
  }

  type Entries = map<Key, ZoneTopology>

  // ---------------------------------------------------------------- the shape of the tree

  /** A node hangs one level below its parent. */
  ghost predicate Hangs(parents: Parents, depth: map<Key, nat>, n: Key)
    requires n in parents && depth.Keys == parents.Keys
  {
    if parents[n].None? then depth[n] == 0
    else parents[n].value in parents && depth[n] == depth[parents[n].value] + 1
  }

  /** Every node hangs below its parent, so the parents form a forest. */
  ghost predicate Forest(parents: Parents, depth: map<Key, nat>) {
    && depth.Keys == parents.Keys
    && forall n {:trigger Hangs(parents, depth, n)} :: n in parents ==> Hangs(parents, depth, n)
  }

  /** The entries under one place of the tree are the cached objects of exactly its children. */
  ghost predicate Mirrors(entries: Entries, parents: Parents, sub: Entries, place: Option<Key>)
    requires parents.Keys == sub.Keys
  {
    && (forall n :: n in entries <==> n in parents && parents[n] == place)
    && (forall n <- entries :: n in sub && entries[n] == sub[n])
  }

  /** A node is added once; a nested node needs its parent to be there already. */
  ghost function Added(parents: Parents, parent: Option<Key>, n: Key): Parents {
    if n in parents || (parent.Some? && parent.value !in parents) then parents else parents[n := parent]
  }

  /** The node is in the tree, but not as a root. */
  ghost predicate Nested(parents: Parents, n: Key) {
    n in parents && parents[n].Some?
  }

  ghost function GrownDepth(depth: map<Key, nat>, parent: Option<Key>, n: Key): map<Key, nat> {
    depth[n := if parent.Some? && parent.value in depth then depth[parent.value] + 1 else 0]
  }

  lemma ForestGrows(parents: Parents, depth: map<Key, nat>, parent: Option<Key>, n: Key)
    requires Forest(parents, depth) && n !in parents && (parent.Some? ==> parent.value in parents)
    ensures Forest(parents[n := parent], GrownDepth(depth, parent, n))
  {
    var parents', depth' := parents[n := parent], GrownDepth(depth, parent, n);
    forall m | m in parents' ensures Hangs(parents', depth', m) {
      if m != n { assert Hangs(parents, depth, m); }
    }
  }

  /** The entries at the root and under every node mirror the parents. */
  ghost predicate ShapeOk(rootKids: Entries, kids: map<Key, Entries>, sub: Entries, parents: Parents,
                          depth: map<Key, nat>) {
    && parents.Keys == sub.Keys == kids.Keys
    && Forest(parents, depth)
    && Mirrors(rootKids, parents, sub, None)
    && forall p <- kids :: Mirrors(kids[p], parents, sub, Some(p))
  }

  ghost function EntriesWith(entries: Entries, here: bool, n: Key, o: ZoneTopology): Entries {
    if here then entries[n := o] else entries
  }

  /** A new node changes the entries of its own place only. */
  lemma MirrorsGrows(entries: Entries, parents: Parents, sub: Entries, place: Option<Key>,
                     parent: Option<Key>, n: Key, o: ZoneTopology)
    requires parents.Keys == sub.Keys && n !in sub && Mirrors(entries, parents, sub, place)
    ensures Mirrors(EntriesWith(entries, place == parent, n, o), parents[n := parent], sub[n := o], place)
  {
  }

  lemma NoChildYet(parents: Parents, depth: map<Key, nat>, parent: Option<Key>, n: Key, sub: Entries, o: ZoneTopology)
    requires Forest(parents, depth) && parents.Keys == sub.Keys && n !in parents && parent != Some(n)
    ensures Mirrors(map[], parents[n := parent], sub[n := o], Some(n))
  {
    var parents' := parents[n := parent];
    forall m | m in parents' ensures parents'[m] != Some(n) {
      if m != n { assert Hangs(parents, depth, m); }
    }
  }

  /** The entries after a node was attached. */
  ghost function KidsWith(kids: map<Key, Entries>, parent: Option<Key>, n: Key, o: ZoneTopology): map<Key, Entries> {
    map p | p in kids.Keys + {n} ::
      if p == n then map[] else EntriesWith(kids[p], Some(p) == parent, n, o)
  }

  lemma KidsWithMeaning(kids: map<Key, Entries>, kids': map<Key, Entries>, parent: Option<Key>, n: Key, o: ZoneTopology)
    requires kids'.Keys == kids.Keys + {n} && n !in kids && kids'[n] == map[]
    requires forall p | p in kids :: kids'[p] == EntriesWith(kids[p], Some(p) == parent, n, o)
    ensures kids' == KidsWith(kids, parent, n, o)
  {
  }

  lemma ShapeGrows(rootKids: Entries, kids: map<Key, Entries>, sub: Entries, parents: Parents, depth: map<Key, nat>,
                   parent: Option<Key>, n: Key, o: ZoneTopology)
    requires ShapeOk(rootKids, kids, sub, parents, depth) && n !in sub && (parent.Some? ==> parent.value in sub)
    ensures ShapeOk(EntriesWith(rootKids, parent.None?, n, o), KidsWith(kids, parent, n, o), sub[n := o],
                    parents[n := parent], GrownDepth(depth, parent, n))
  {
    hide Mirrors, Forest;
    ForestGrows(parents, depth, parent, n);
    MirrorsGrows(rootKids, parents, sub, None, parent, n, o);
    var kids' := KidsWith(kids, parent, n, o);
    forall p | p in kids' ensures Mirrors(kids'[p], parents[n := parent], sub[n := o], Some(p)) {
      if p == n {
        NoChildYet(parents, depth, parent, n, sub, o);
      } else {
        MirrorsGrows(kids[p], parents, sub, Some(p), parent, n, o);
      }
    }
  }

  class Generator {
    const root: ZoneTopology
    var sub: Entries
    ghost var parents: Parents
    ghost var depth: map<Key, nat>
    ghost var objects: set<ZoneTopology>  // every object that was ever hung, cached or not
    ghost var clock: nat                  // how many there are

    /** The cache never shares an object between nodes. */
    ghost predicate Placed()
      reads this
    {
      root.place == None && forall p <- sub :: sub[p].place == Some(p)
    }

    /** The entries under every node. */
    ghost function Kids(): map<Key, Entries>
      reads this, sub.Values
    {
      map p | p in sub :: sub[p].children
    }

    /** Every child entry is the object the cache has for that node. */
    ghost predicate Linked()
      reads this, root, sub.Values
    {
      && (forall n <- root.children :: n in sub && root.children[n] == sub[n])
      && (forall p <- sub :: forall n <- sub[p].children :: n in sub && sub[p].children[n] == sub[n])
    }

    /** The objects are distinct, form a forest with every node once, and the cache mirrors it. */
    ghost predicate Valid()
      reads this, root, sub.Values
    {
      Placed() && ShapeOk(root.children, Kids(), sub, parents, depth)
    }

    constructor ()
      ensures Valid() && Built() && sub == map[] && parents == map[]
      ensures fresh(root)
    {
      var top := new ZoneTopology(None, 0);
      root := top;
      sub := map[];
      parents := map[];
      depth := map[];
      objects, clock := {top}, 1;
    }

    /** What holds however the tree was built, a valid one or not: the cache knows every root and has
        no object of its own, and every object hangs under an older one. */
    ghost predicate Built()
      reads this, root, objects
    {
      && root.children.Keys <= sub.Keys
      && root in objects && sub.Values <= objects
      && forall o <- objects :: o.born < clock && HangsBelow(o)
    }

    ghost predicate HangsBelow(o: ZoneTopology)
      reads this, o
    {
      forall n <- o.children :: o.children[n] in objects && o.born < o.children[n].born
    }

    /** `b` hangs at two places: under the root and, as another object, under the root `c`. */
    ghost predicate Doubled(c: Key, b: Key)
      reads this, root, root.children.Values
    {
      && c in root.children && b in root.children
      && b in root.children[c].children && root.children[c].children[b] != root.children[b]
    }

    /** A fresh object for `current` under `top`. */
    method Hang(top: ZoneTopology, ghost parent: Option<Key>, current: Key) returns (o: ZoneTopology)
      requires Built() && top in objects
      modifies this, top
      ensures Built() && fresh(o) && o.place == Some(current) && o.children == map[]
      ensures top.children == old(top.children)[current := o] && sub == old(sub)[current := o]
      ensures depth == GrownDepth(old(depth), parent, current) && parents == old(parents)[current := parent]
    {
      o := new ZoneTopology(Some(current), clock);
      top.children := top.children[current := o];
      sub := sub[current := o];
      depth, parents := GrownDepth(depth, parent, current), parents[current := parent];
      objects, clock := objects + {o}, clock + 1;
    }

    /** Hang a fresh object for `current` under `top`, the object of `parent` or the root. */
    method Attach(top: ZoneTopology, parent: Option<Key>, current: Key)
      requires Built()
      requires parent.None? ==> top == root && current !in root.children
      requires parent.Some? ==> parent.value in sub && top == sub[parent.value] && current !in sub
      modifies this, top
      ensures Built()
      ensures current in sub && fresh(sub[current]) && sub == old(sub)[current := sub[current]]
      ensures top.children == old(top.children)[current := sub[current]]
      ensures old(Valid()) && current !in old(sub) ==> Valid() && parents == old(parents)[current := parent]
    {
      hide ShapeOk, GrownDepth;
      ghost var grows := Valid() && current !in sub;
      ghost var rootKids, kids := root.children, Kids();
      assert top in objects by { if parent.Some? { assert parent.value in sub; } }
      hide Built;
      var o := Hang(top, parent, current);
      if grows {
        forall p | p in kids ensures sub[p].children == EntriesWith(kids[p], Some(p) == parent, current, o) {
          assert sub[p].place == Some(p);
        }
        Grown(rootKids, kids, old(sub), old(parents), old(depth), parent, current, o);
      }
    }

    /** The tree after a node was attached, in terms of the entries before. */
    lemma Grown(rootKids: Entries, kids: map<Key, Entries>, sub0: Entries, parents0: Parents, depth0: map<Key, nat>,
                parent: Option<Key>, current: Key, o: ZoneTopology)
      requires ShapeOk(rootKids, kids, sub0, parents0, depth0) && current !in sub0
      requires parent.Some? ==> parent.value in sub0
      requires Placed() && sub == sub0[current := o] && o.children == map[]
      requires parents == parents0[current := parent] && depth == GrownDepth(depth0, parent, current)
      requires root.children == EntriesWith(rootKids, parent.None?, current, o)
      requires forall p | p in kids :: sub[p].children == EntriesWith(kids[p], Some(p) == parent, current, o)
      ensures Valid()
    {
      hide Mirrors, Forest, GrownDepth, KidsWith, EntriesWith;
      ShapeGrows(rootKids, kids, sub0, parents0, depth0, parent, current, o);
      assert kids.Keys == sub0.Keys;
      hide ShapeOk;
      KidsWithMeaning(kids, Kids(), parent, current, o);
    }

    /** Valid trees link every entry to the cached object. */
    lemma ValidLinked()
      requires Valid()
      ensures Linked()
    {
      forall p, n | p in sub && n in sub[p].children ensures n in sub && sub[p].children[n] == sub[n] {
        assert Mirrors(Kids()[p], parents, sub, Some(p));
      }
    }

    /** The entry that keeps a nested node's object alive when the cache forgets it. */
    lemma NestedEntry(n: Key)
      requires Valid() && Nested(parents, n)
      ensures parents[n].value in sub && parents[n].value != n
      ensures n in sub && n in sub[parents[n].value].children && sub[parents[n].value].children[n] == sub[n]
    {
      var p := parents[n].value;
      assert Hangs(parents, depth, n);
      assert p in Kids() && Mirrors(Kids()[p], parents, sub, Some(p));
    }

    /** Only the root's own children are checked. */
    method AddRoot(current: Key)
      requires Built()
      modifies this, root
      ensures Built() && sub.Keys == old(sub).Keys + {current}
      ensures forall n <- sub :: fresh(sub[n]) || (n in old(sub) && sub[n] == old(sub)[n])
      ensures old(Valid()) && !Nested(old(parents), current) ==>
              Valid() && parents == Added(old(parents), None, current)
      ensures old(Valid()) && Nested(old(parents), current) ==>
                && !Linked()
                && forall p :: old(parents)[current] == Some(p) && p in old(root.children) ==> Doubled(p, current)
      ensures forall c, b :: old(Doubled(c, b)) ==> Doubled(c, b)
    {
      hide ShapeOk;
      ghost var valid := Valid();
      if valid {
        Places(current);
        if Nested(parents, current) { NestedEntry(current); ValidLinked(); }
      }
      if current in root.children { return; }
      Attach(root, None, current);
      if valid && Nested(old(parents), current) {
        ghost var p := old(parents)[current].value;
        assert p in sub && sub[p].place == Some(p) && sub[p] != root;
        assert sub[p].children[current] == old(sub)[current] != sub[current];
      }
    }

    /** A known node is skipped, and a new one hangs under the object the cache has for its parent. */
    method AddUnder(parent: Key, current: Key) returns (ok: bool)
      requires Built()
      modifies this, sub.Values
      ensures Built()
      ensures ok <==> current in old(sub) || parent in old(sub)
      ensures sub.Keys == if ok then old(sub).Keys + {current} else old(sub).Keys
      ensures forall n <- sub :: fresh(sub[n]) || (n in old(sub) && sub[n] == old(sub)[n])
      ensures old(Valid()) ==> Valid() && parents == Added(old(parents), Some(parent), current)
      ensures forall c, b :: old(Doubled(c, b)) ==> Doubled(c, b)
    {
      hide ShapeOk;
      if Valid() {
        Places(current);
        Places(parent);
      }
      if current in sub { return true; }
      if parent !in sub { return false; }
      assert forall c <- root.children :: c in sub && c != current;
      Attach(sub[parent], Some(parent), current);
      ok := true;
    }

    /** Add a node. The tree stays a valid forest, with `current` added once under its parent, unless
        a nested node is added as a root: only the root's own children are checked then, the node
        ends up in the tree twice, and the cache loses the object hanging under it. A node that hangs
        at two places does so for good. */
    method AddNode(parent: Option<Key>, current: Key) returns (ok: bool)
      requires Built()
      modifies this, root, sub.Values
      ensures Built()
      ensures ok <==> parent.None? || current in old(sub) || parent.value in old(sub)
      ensures sub.Keys == if ok then old(sub).Keys + {current} else old(sub).Keys
      ensures forall n <- sub :: fresh(sub[n]) || (n in old(sub) && sub[n] == old(sub)[n])
      ensures old(Valid()) ==> (Valid() <==> !(parent.None? && Nested(old(parents), current)))
      ensures old(Valid()) && Valid() ==> parents == Added(old(parents), parent, current)
      ensures old(Valid()) && parent.None? && Nested(old(parents), current) ==> !Linked()
      ensures old(Valid()) && parent.None? && Nested(old(parents), current) ==>
                forall p :: old(parents)[current] == Some(p) && p in old(root.children) ==> Doubled(p, current)
      ensures forall c, b :: old(Doubled(c, b)) ==> Doubled(c, b)
    {
      hide Built, Valid, Linked, Doubled;
      if parent.None? {
        AddRoot(current);
        ok := true;
        if !Linked() { BrokenInvalid(); }
      } else {
        ok := AddUnder(parent.value, current);
      }
    }

    lemma Places(n: Key)
      requires Valid()
      ensures n in sub <==> n in parents
      ensures n in root.children <==> n in parents && parents[n].None?
    {
    }

    lemma BrokenInvalid()
      requires !Linked()
      ensures !Valid()
    {
      if Valid() { ValidLinked(); }
    }
  }

  // ---------------------------------------------------------------- NUMA nodes and sockets

  /** A socket that is also listed as a NUMA node sits on itself. Maps from NUMA nodes to sockets
      never mix the two, so they satisfy this trivially. */
  predicate Consistent(sockets: map<Key, Key>) {
    forall n <- sockets :: sockets[n] in sockets ==> sockets[sockets[n]] == sockets[n]
  }

  /** One order in which the map may be walked. */
  ghost predicate Walk(sockets: map<Key, Key>, order: seq<Key>) {
    Distinct(order) && forall n :: n in order <==> n in sockets
  }

  ghost function Sockets(sockets: map<Key, Key>, done: set<Key>): set<Key>
    requires done <= sockets.Keys
  {
    set n <- done :: sockets[n]
  }

  /** Sockets are roots, and every other NUMA node hangs under its socket. */
  ghost function SocketTree(sockets: map<Key, Key>, done: set<Key>): Parents
    requires done <= sockets.Keys
  {
    map n | n in done + Sockets(sockets, done) :: if n in Sockets(sockets, done) then None else Some(sockets[n])
  }

  /** The socket of the next node was walked as a NUMA node before any node was seen on it. */
  ghost predicate Buried(sockets: map<Key, Key>, done: set<Key>, n: Key)
    requires done <= sockets.Keys && n in sockets
  {
    sockets[n] in done && sockets[n] !in Sockets(sockets, done)
  }

  /** No step of the walk finds a buried socket. */
  ghost predicate Sound(sockets: map<Key, Key>, order: seq<Key>)
    requires forall n <- order :: n in sockets
  {
    forall i :: 0 <= i < |order| ==> !Buried(sockets, Elements(order[..i]), order[i])
  }

  /** A step that finds no buried socket. */
  lemma SocketStep(sockets: map<Key, Key>, done: set<Key>, n: Key)
    requires done <= sockets.Keys && n in sockets && n !in done && !Buried(sockets, done, n)
    ensures !Nested(SocketTree(sockets, done), sockets[n])
    ensures Added(Added(SocketTree(sockets, done), None, sockets[n]), Some(sockets[n]), n) ==
            SocketTree(sockets, done + {n})
  {
    var s, tree := sockets[n], SocketTree(sockets, done);
    assert Sockets(sockets, done + {n}) == Sockets(sockets, done) + {s};
    var withSocket := Added(tree, None, s);
    var withNuma := Added(withSocket, Some(s), n);
    assert withNuma.Keys == SocketTree(sockets, done + {n}).Keys;
    forall k | k in withNuma ensures withNuma[k] == SocketTree(sockets, done + {n})[k] {
    }
  }

  /** A buried socket is nested under a root. */
  lemma BuriedNested(sockets: map<Key, Key>, done: set<Key>, n: Key)
    requires done <= sockets.Keys && n in sockets && Buried(sockets, done, n)
    ensures
      var s, tree := sockets[n], SocketTree(sockets, done);
      && s in sockets && Nested(tree, s) && s in tree && tree[s] == Some(sockets[s])
      && sockets[s] in tree && tree[sockets[s]] == None
  {
  }

  /** Whatever is still to come, some node hangs at two places. */
  ghost predicate Broken(g: Generator)
    reads g, g.root, g.root.children.Values
  {
    exists c, b :: g.Doubled(c, b)
  }

  lemma DoubledInvalid(g: Generator, c: Key, b: Key)
    requires g.Doubled(c, b)
    ensures !g.Linked() && !g.Valid()
  {
    g.BrokenInvalid();
  }

  /** Add one NUMA node and its socket. */
  method AddNuma(g: Generator, socket: Key, numa: Key, ghost sockets: map<Key, Key>, ghost done: set<Key>)
    returns (ok: bool)
    requires g.Built() && done <= sockets.Keys && numa in sockets && numa !in done && socket == sockets[numa]
    modifies g, g.root, g.sub.Values
    ensures ok && g.Built()
    ensures forall n <- g.sub :: fresh(g.sub[n]) || (n in old(g.sub) && g.sub[n] == old(g.sub)[n])
    ensures old(Broken(g)) ==> Broken(g)
    ensures old(g.Valid() && g.parents == SocketTree(sockets, done)) ==>
              if Buried(sockets, done, numa) then Broken(g)
              else g.Valid() && g.parents == SocketTree(sockets, done + {numa})
  {
    hide ShapeOk, Generator.Linked, Generator.Doubled, Generator.Built, SocketTree, Nested, Added, Buried;
    ghost var clean := g.Valid() && g.parents == SocketTree(sockets, done);
    if clean {
      if Buried(sockets, done, numa) {
        BuriedNested(sockets, done, numa);
        g.Places(sockets[socket]);
      } else {
        SocketStep(sockets, done, numa);
      }
    }
    ok := g.AddNode(None, socket);
    if ok { ok := g.AddNode(Some(socket), numa); }
  }

  /** Walk the map in the given order. There is never an error. The result is a valid tree with the
      sockets as roots exactly if the walk finds no buried socket; otherwise a node hangs at two
      places. */
  method NewNumaSocketTopologyZoneGenerator(sockets: map<Key, Key>, order: seq<Key>)
    returns (g: Generator, failed: bool)
    requires Walk(sockets, order)
    ensures fresh(g) && g.Built() && !failed
    ensures g.Valid() <==> Sound(sockets, order)
    ensures Sound(sockets, order) ==> g.parents == SocketTree(sockets, sockets.Keys)
    ensures !Sound(sockets, order) ==> Broken(g)
  {
    hide ShapeOk, Generator.Linked, Generator.Doubled, Generator.Built, SocketTree, Buried;
    g := new Generator();
    failed := false;
    ghost var done := {};
    EmptyTree(sockets);
    for i := 0 to |order|
      invariant done == Elements(order[..i]) && !failed
      invariant fresh(g) && fresh(g.root) && g.Built() && forall n <- g.sub :: fresh(g.sub[n])
      invariant Sound(sockets, order[..i]) ==> g.Valid() && g.parents == SocketTree(sockets, done)
      invariant !Sound(sockets, order[..i]) ==> Broken(g)
    {
      var numa := order[i];
      assert numa in order && numa !in done;
      SoundStep(sockets, order, i);
      var ok := AddNuma(g, sockets[numa], numa, sockets, done);
      failed := failed || !ok;
      done := done + {numa};
    }
    assert order[..|order|] == order && done == sockets.Keys;
    if Broken(g) {
      ghost var c, b :| g.Doubled(c, b);
      DoubledInvalid(g, c, b);
    }
  }

  lemma EmptyTree(sockets: map<Key, Key>)
    ensures SocketTree(sockets, {}) == map[]
  {
  }

  lemma SoundStep(sockets: map<Key, Key>, order: seq<Key>, i: nat)
    requires i < |order| && forall n <- order :: n in sockets
    ensures Elements(order[..i + 1]) == Elements(order[..i]) + {order[i]}
    ensures Sound(sockets, order[..i + 1]) <==>
            Sound(sockets, order[..i]) && !Buried(sockets, Elements(order[..i]), order[i])
  {
    hide Buried;
    var a, b := order[..i], order[..i + 1];
    assert b == a + [order[i]];
    assert forall j :: 0 <= j <= i ==> b[..j] == a[..j];
    assert b[i] == order[i] && a[..i] == a;
    if Sound(sockets, b) {
      forall j | 0 <= j < |a| ensures !Buried(sockets, Elements(a[..j]), a[j]) { assert b[j] == a[j]; }
    }
  }

  /** Every walk gives a valid tree exactly if the map is consistent. */
  lemma ConsistentIffEveryWalkSound(sockets: map<Key, Key>)
    ensures Consistent(sockets) <==> forall order | Walk(sockets, order) :: Sound(sockets, order)
  {
    if Consistent(sockets) {
      forall order | Walk(sockets, order) ensures Sound(sockets, order) { ConsistentSound(sockets, order); }
    } else {
      var a :| a in sockets && sockets[a] in sockets && sockets[sockets[a]] != sockets[a];
      var order := UnsoundWalk(sockets, a);
    }
  }

  lemma ConsistentSound(sockets: map<Key, Key>, order: seq<Key>)
    requires Consistent(sockets) && Walk(sockets, order)
    ensures Sound(sockets, order)
  {
  }

  /** Walking a socket right before a node on it buries the socket. */
  lemma UnsoundWalk(sockets: map<Key, Key>, a: Key) returns (order: seq<Key>)
    requires a in sockets && sockets[a] in sockets && sockets[sockets[a]] != sockets[a]
    ensures Walk(sockets, order) && !Sound(sockets, order)
  {
    var b := sockets[a];
    var rest := SortedKeys(sockets.Keys - {a, b});
    LessIsTotalOrder();
    order := [b, a] + rest;
    assert order[0] == b && order[1] == a && order[..1] == [b];
    assert forall n <- rest :: n in sockets && n != a && n != b;
    forall n ensures n in order <==> n in sockets {}
    assert Buried(sockets, Elements(order[..1]), order[1]);
  }
}
