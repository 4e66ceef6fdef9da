/** The agent's store of resource allocations and its checkpoint
    (pkg/agent/orm/pod_resource.go, lines 96-248). The JSON encoding is a parameter. */
module AllocationStore {
  import opened Keys

  type Resources<A> = map<string, map<string, map<string, A>>>

  datatype Slot = Slot(pod: string, container: string, resource: string)

  datatype Entry = Entry(slot: Slot, text: string)

  // ---------------------------------------------------------------- lookups and updates

  function Lookup<A>(res: Resources<A>, s: Slot): Option<A> {
    if s.pod in res && s.container in res[s.pod] && s.resource in res[s.pod][s.container]
    then Some(res[s.pod][s.container][s.resource])
    else None
  }

  function Inserted<A>(res: Resources<A>, s: Slot, a: A): Resources<A> {
    var pod := if s.pod in res then res[s.pod] else map[];
    var container := if s.container in pod then pod[s.container] else map[];
    res[s.pod := pod[s.container := container[s.resource := a]]]
  }

  function Removed<A>(res: Resources<A>, s: Slot): Resources<A> {
    if s.pod in res && s.container in res[s.pod]
    then res[s.pod := res[s.pod][s.container := res[s.pod][s.container] - {s.resource}]]
    else res
  }

  /** An insertion changes one lookup. */
  lemma InsertedLookup<A>(res: Resources<A>, s: Slot, a: A, t: Slot)
    ensures Lookup(Inserted(res, s, a), t) == if t == s then Some(a) else Lookup(res, t)
  {
  }

  /** A removal clears one lookup. */
  lemma RemovedLookup<A>(res: Resources<A>, s: Slot, t: Slot)
    ensures Lookup(Removed(res, s), t) == if t == s then None else Lookup(res, t)
  {
  }

  // ---------------------------------------------------------------- shells

  /** No pod or container without allocations. */
  ghost predicate NoShells<A>(res: Resources<A>) {
    forall p <- res :: res[p] != map[] && forall c <- res[p] :: res[p][c] != map[]
  }

  function FullContainers<A>(pod: map<string, map<string, A>>): map<string, map<string, A>> {
    map c <- pod | pod[c] != map[] :: pod[c]
  }

  /** The store without its empty shells. */
  function Pruned<A>(res: Resources<A>): Resources<A> {
    map p <- res | FullContainers(res[p]) != map[] :: FullContainers(res[p])
  }

  lemma PrunedMeaning<A>(res: Resources<A>)
    ensures NoShells(Pruned(res))
    ensures forall t :: Lookup(Pruned(res), t) == Lookup(res, t)
  {
    forall t ensures Lookup(Pruned(res), t) == Lookup(res, t) { PrunedLookup(res, t); }
  }

  lemma PrunedLookup<A>(res: Resources<A>, t: Slot)
    ensures Lookup(Pruned(res), t) == Lookup(res, t)
  {
    if Lookup(res, t).Some? {
      assert t.resource in res[t.pod][t.container];
      assert t.container in FullContainers(res[t.pod]);
      assert t.pod in Pruned(res);
    }
  }

  lemma InsertedNoShells<A>(res: Resources<A>, s: Slot, a: A)
    requires NoShells(res)
    ensures NoShells(Inserted(res, s, a))
  {
    var res' := Inserted(res, s, a);
    assert s.container in res'[s.pod] && s.resource in res'[s.pod][s.container];
    forall p <- res' ensures res'[p] != map[] && forall c <- res'[p] :: res'[p][c] != map[] {
      if p == s.pod {
        forall c <- res'[p] ensures res'[p][c] != map[] {
          if c != s.container { assert res'[p][c] == res[p][c]; }
        }
      } else {
        assert res'[p] == res[p];
      }
    }
  }

  lemma SomeSlot<A>(res: Resources<A>, p: string) returns (t: Slot)
    requires NoShells(res) && p in res
    ensures t.pod == p && Lookup(res, t).Some?
  {
    var c :| c in res[p];
    var r :| r in res[p][c];
    t := Slot(p, c, r);
  }

  lemma SameContainer<A>(x: Resources<A>, y: Resources<A>, p: string, c: string)
    requires NoShells(x) && (forall t :: Lookup(x, t) == Lookup(y, t)) && p in x && c in x[p]
    ensures p in y && c in y[p] && x[p][c] == y[p][c]
  {
    var r :| r in x[p][c];
    assert Lookup(x, Slot(p, c, r)).Some?;
    forall k ensures k in x[p][c] <==> k in y[p][c] {
      assert Lookup(x, Slot(p, c, k)) == Lookup(y, Slot(p, c, k));
    }
    forall k <- x[p][c] ensures x[p][c][k] == y[p][c][k] {
      assert Lookup(x, Slot(p, c, k)) == Lookup(y, Slot(p, c, k));
    }
  }

  /** Lookups determine a store up to its empty shells. */
  lemma LookupsDetermine<A>(x: Resources<A>, y: Resources<A>)
    requires NoShells(x) && NoShells(y) && forall t :: Lookup(x, t) == Lookup(y, t)
    ensures x == y
  {
    forall p ensures p in x <==> p in y {
      if p in x { var t := SomeSlot(x, p); assert Lookup(y, t).Some?; }
      if p in y { var t := SomeSlot(y, p); assert Lookup(x, t).Some?; }
    }
    forall p <- x ensures x[p] == y[p] { SamePod(x, y, p); }
  }

  lemma SamePod<A>(x: Resources<A>, y: Resources<A>, p: string)
    requires NoShells(x) && NoShells(y) && (forall t :: Lookup(x, t) == Lookup(y, t)) && p in x && p in y
    ensures x[p] == y[p]
  {
    forall c ensures c in x[p] <==> c in y[p] {
      if c in x[p] { SameContainer(x, y, p, c); }
      if c in y[p] { SameContainer(y, x, p, c); }
    }
    forall c <- x[p] ensures x[p][c] == y[p][c] { SameContainer(x, y, p, c); }
  }

  // ---------------------------------------------------------------- the checkpoint

  /** What JSON promises: decoding gives back what was encoded. */
  ghost predicate Codec<A(!new)>(encode: A -> Option<string>, decode: string -> Option<A>) {
    forall a :: encode(a).Some? ==> decode(encode(a).value) == Some(a)
  }

  ghost predicate DistinctSlots(data: seq<Entry>) {
    forall i, j :: 0 <= i < j < |data| ==> data[i].slot != data[j].slot
  }

  ghost predicate Holds<A>(f: Slot -> Option<A>, e: Entry, encode: A -> Option<string>) {
    f(e.slot).Some? && encode(f(e.slot).value) == Some(e.text)
  }

  /** The entries are the encodable allocations of `f`, each slot once. */
  ghost predicate Lists<A>(data: seq<Entry>, f: Slot -> Option<A>, encode: A -> Option<string>) {
    DistinctSlots(data) && forall e :: e in data <==> Holds(f, e, encode)
  }

  function LookupIn<A>(res: Resources<A>): Slot -> Option<A> {
    s => Lookup(res, s)
  }

  /** Restore the entries one after the other; undecodable ones are skipped. */
  function Restored<A>(res: Resources<A>, data: seq<Entry>, decode: string -> Option<A>): Resources<A> {
    if data == [] then res
    else
      var rest, e := Restored(res, data[..|data| - 1], decode), data[|data| - 1];
      if decode(e.text).Some? then Inserted(rest, e.slot, decode(e.text).value) else rest
  }

  lemma {:induction false} RestoredMeaning<A>(data: seq<Entry>, decode: string -> Option<A>)
    requires DistinctSlots(data)
    ensures NoShells(Restored(map[], data, decode))
    ensures forall e <- data :: Lookup(Restored(map[], data, decode), e.slot) == decode(e.text)
    ensures forall t :: (forall e <- data :: e.slot != t) ==> Lookup(Restored(map[], data, decode), t) == None
  {
    if data == [] {
    } else {
      var init, e := data[..|data| - 1], data[|data| - 1];
      RestoredMeaning(init, decode);
      var rest := Restored(map[], init, decode);
      assert data == init + [e];
      hide Inserted, NoShells, Lookup;
      if decode(e.text).Some? {
        forall t { InsertedLookup(rest, e.slot, decode(e.text).value, t); }
        InsertedNoShells(rest, e.slot, decode(e.text).value);
      }
    }
  }

  /** Restoring a checkpoint, in any order of its entries, gives back every encodable allocation and
      nothing else. */
  lemma RestoreKeepsLookups<A(!new)>(res: Resources<A>, data: seq<Entry>, encode: A -> Option<string>,
                                     decode: string -> Option<A>, t: Slot)
    requires Codec(encode, decode) && Lists(data, LookupIn(res), encode)
    ensures Lookup(Restored(map[], data, decode), t) ==
            if Lookup(res, t).Some? && encode(Lookup(res, t).value).Some? then Lookup(res, t) else None
  {
    RestoredMeaning(data, decode);
    if Lookup(res, t).Some? && encode(Lookup(res, t).value).Some? {
      var e := Entry(t, encode(Lookup(res, t).value).value);
      assert Holds(LookupIn(res), e, encode) && e in data;
    } else {
      forall e <- data ensures e.slot != t { assert Holds(LookupIn(res), e, encode); }
    }
  }

  /** If every allocation can be encoded, a restart loses only the empty shells. */
  lemma RestoreLosesOnlyShells<A(!new)>(res: Resources<A>, data: seq<Entry>, encode: A -> Option<string>,
                                        decode: string -> Option<A>)
    requires Codec(encode, decode) && Lists(data, LookupIn(res), encode)
    requires forall t :: Lookup(res, t).Some? ==> encode(Lookup(res, t).value).Some?
    ensures Restored(map[], data, decode) == Pruned(res)
  {
    var restored := Restored(map[], data, decode);
    RestoredMeaning(data, decode);
    PrunedMeaning(res);
    forall t ensures Lookup(restored, t) == Lookup(Pruned(res), t) {
      RestoreKeepsLookups(res, data, encode, decode, t);
    }
    LookupsDetermine(restored, Pruned(res));
  }

  // ---------------------------------------------------------------- writing the checkpoint

  /** The allocations of the visited resources of one container. */
  function ContainerPart<A>(pod: string, container: string, m: map<string, A>, seen: set<string>): Slot -> Option<A> {
    (s: Slot) => if s.pod == pod && s.container == container && s.resource in m && s.resource in seen
                 then Some(m[s.resource]) else None
  }

  /** The allocations of the visited containers of one pod. */
  function PodPart<A>(pod: string, m: map<string, map<string, A>>, seen: set<string>): Slot -> Option<A> {
    (s: Slot) => if s.pod == pod && s.container in m && s.container in seen && s.resource in m[s.container]
                 then Some(m[s.container][s.resource]) else None
  }

  /** The allocations of the visited pods. */
  function StorePart<A>(res: Resources<A>, seen: set<string>): Slot -> Option<A> {
    (s: Slot) => if s.pod in seen then Lookup(res, s) else None
  }

  /** Lists of separate parts make up a list of the whole. */
  lemma ListsConcat<A>(d1: seq<Entry>, f1: Slot -> Option<A>, d2: seq<Entry>, f2: Slot -> Option<A>,
                       f: Slot -> Option<A>,
                       encode: A -> Option<string>)
    requires Lists(d1, f1, encode) && Lists(d2, f2, encode)
    requires forall s :: f1(s).None? || f2(s).None?
    requires forall s :: f(s) == if f1(s).Some? then f1(s) else f2(s)
    ensures Lists(d1 + d2, f, encode)
  {
    forall e ensures e in d1 + d2 <==> Holds(f, e, encode) {
      assert Holds(f, e, encode) <==> Holds(f1, e, encode) || Holds(f2, e, encode);
    }
    forall i, j | 0 <= i < |d1| && 0 <= j < |d2| ensures d1[i].slot != d2[j].slot {
      assert d1[i] in d1 && d2[j] in d2;
      assert Holds(f1, d1[i], encode) && Holds(f2, d2[j], encode);
    }
  }

  lemma ListsSame<A>(d: seq<Entry>, f: Slot -> Option<A>, g: Slot -> Option<A>, encode: A -> Option<string>)
    requires Lists(d, f, encode) && forall s :: f(s) == g(s)
    ensures Lists(d, g, encode)
  {
    forall e ensures e in d <==> Holds(g, e, encode) { assert Holds(f, e, encode) <==> Holds(g, e, encode); }
  }

  lemma ListsNothing<A>(f: Slot -> Option<A>, encode: A -> Option<string>)
    requires forall s :: f(s).None?
    ensures Lists([], f, encode)
  {
  }

  method ContainerEntries<A>(pod: string, container: string, m: map<string, A>,
                             encode: A -> Option<string>) returns (data: seq<Entry>)
    ensures Lists(data, ContainerPart(pod, container, m, m.Keys), encode)
  {
    data := [];
    var todo := m.Keys;
    ListsNothing(ContainerPart(pod, container, m, {}), encode);
    while todo != {}
      invariant todo <= m.Keys
      invariant Lists(data, ContainerPart(pod, container, m, m.Keys - todo), encode)
    {
      var r :| r in todo;
      ghost var seen := m.Keys - todo;
      todo := todo - {r};
      assert m.Keys - todo == seen + {r};
      var text := encode(m[r]);
      var added := if text.Some? then [Entry(Slot(pod, container, r), text.value)] else [];
      OneEntry(pod, container, m, r, added, encode);
      ListsConcat(data, ContainerPart(pod, container, m, seen), added, ContainerPart(pod, container, m, {r}),
                  ContainerPart(pod, container, m, seen + {r}), encode);
      data := data + added;
    }
    assert m.Keys - {} == m.Keys;
  }

  lemma OneEntry<A>(pod: string, container: string, m: map<string, A>, r: string, added: seq<Entry>,
                    encode: A -> Option<string>)
    requires r in m
    requires added == if encode(m[r]).Some? then [Entry(Slot(pod, container, r), encode(m[r]).value)] else []
    ensures Lists(added, ContainerPart(pod, container, m, {r}), encode)
  {
    var f := ContainerPart(pod, container, m, {r});
    forall e ensures e in added <==> Holds(f, e, encode) {}
  }

  method PodEntries<A>(pod: string, m: map<string, map<string, A>>,
                       encode: A -> Option<string>) returns (data: seq<Entry>)
    ensures Lists(data, PodPart(pod, m, m.Keys), encode)
  {
    data := [];
    var todo := m.Keys;
    ListsNothing(PodPart(pod, m, {}), encode);
    while todo != {}
      invariant todo <= m.Keys
      invariant Lists(data, PodPart(pod, m, m.Keys - todo), encode)
    {
      var c :| c in todo;
      ghost var seen := m.Keys - todo;
      todo := todo - {c};
      assert m.Keys - todo == seen + {c};
      var added := ContainerEntries(pod, c, m[c], encode);
      ListsConcat(data, PodPart(pod, m, seen), added, ContainerPart(pod, c, m[c], m[c].Keys),
                  PodPart(pod, m, seen + {c}), encode);
      data := data + added;
    }
    assert m.Keys - {} == m.Keys;
  }

  // ---------------------------------------------------------------- the store

  class Store<A(!new)> {
    var resources: Resources<A>

    constructor ()
      ensures resources == map[]
    {
      resources := map[];
    }

    /** A missing allocation is ignored. */
    method Insert(pod: string, container: string, resource: string, info: Option<A>)
      modifies this
      ensures resources == if info.Some? then Inserted(old(resources), Slot(pod, container, resource), info.value)
              else old(resources)
    {
      if info.None? { return; }
      if pod !in resources { resources := resources[pod := map[]]; }
      if container !in resources[pod] { resources := resources[pod := resources[pod][container := map[]]]; }
      resources := resources[pod := resources[pod][container := resources[pod][container][resource := info.value]]];
      ghost var want := Inserted(old(resources), Slot(pod, container, resource), info.value);
      assert resources[pod][container] == want[pod][container];
      assert resources[pod] == want[pod];
    }

    method DeleteResourceAllocationInfo(pod: string, container: string, resource: string)
      modifies this
      ensures resources == Removed(old(resources), Slot(pod, container, resource))
    {
      if pod in resources && container in resources[pod] {
        resources := resources[pod := resources[pod][container := resources[pod][container] - {resource}]];
      }
    }

    method DeletePod(pod: string)
      modifies this
      ensures resources == old(resources) - {pod}
    {
      resources := resources - {pod};
    }

    method Delete(pods: seq<string>)
      modifies this
      ensures resources == old(resources) - Elements(pods)
    {
      for i := 0 to |pods|
        invariant resources == old(resources) - Elements(pods[..i])
      {
        assert pods[..i + 1] == pods[..i] + [pods[i]];
        ElementsAppend(pods[..i], pods[i]);
        resources := resources - {pods[i]};
      }
      assert pods[..|pods|] == pods;
    }

    method ContainerResource(pod: string, container: string, resource: string) returns (info: Option<A>)
      ensures info == Lookup(resources, Slot(pod, container, resource))
    {
      if pod !in resources { return None; }
      if container !in resources[pod] { return None; }
      if resource !in resources[pod][container] { return None; }
      return Some(resources[pod][container][resource]);
    }

    /** The checkpoint entries, in whatever order the maps are walked. */
    method ToCheckpointData(encode: A -> Option<string>) returns (data: seq<Entry>)
      ensures Lists(data, LookupIn(resources), encode)
    {
      data := [];
      var todo := resources.Keys;
      ListsNothing(StorePart(resources, {}), encode);
      while todo != {}
        invariant todo <= resources.Keys
        invariant Lists(data, StorePart(resources, resources.Keys - todo), encode)
      {
        var p :| p in todo;
        ghost var seen := resources.Keys - todo;
        todo := todo - {p};
        assert resources.Keys - todo == seen + {p};
        var added := PodEntries(p, resources[p], encode);
        ListsConcat(data, StorePart(resources, seen), added, PodPart(p, resources[p], resources[p].Keys),
                    StorePart(resources, seen + {p}), encode);
        data := data + added;
      }
      assert resources.Keys - {} == resources.Keys;
      ListsSame(data, StorePart(resources, resources.Keys), LookupIn(resources), encode);
    }

    method FromCheckpointData(data: seq<Entry>, decode: string -> Option<A>)
      modifies this
      ensures resources == Restored(old(resources), data, decode)
    {
      for i := 0 to |data|
        invariant resources == Restored(old(resources), data[..i], decode)
      {
        assert data[..i + 1][..i] == data[..i];
        var info := decode(data[i].text);
        if info.None? { continue; }
        Insert(data[i].slot.pod, data[i].slot.container, data[i].slot.resource, info);
      }
      assert data[..|data|] == data;
    }

    method AllAllocatedResourceNames() returns (names: set<string>)
      ensures names == Names(resources)
    {
      names := {};
      var todo := resources.Keys;
      while todo != {}
        invariant todo <= resources.Keys
        invariant names == set p, c, r | p in resources && p !in todo && c in resources[p] && r in resources[p][c] :: r
      {
        var p :| p in todo;
        todo := todo - {p};
        var added := PodNames(resources[p]);
        names := names + added;
      }
    }
  }

  method PodNames<A>(m: map<string, map<string, A>>) returns (names: set<string>)
    ensures names == set c, r | c in m && r in m[c] :: r
  {
    names := {};
    var todo := m.Keys;
    while todo != {}
      invariant todo <= m.Keys
      invariant names == set c, r | c in m && c !in todo && r in m[c] :: r
    {
      var c :| c in todo;
      todo := todo - {c};
      names := names + m[c].Keys;
    }
  }

  /** The resource names that are allocated anywhere. */
  function Names<A>(res: Resources<A>): set<string> {
    set p, c, r | p in res && c in res[p] && r in res[p][c] :: r
  }

  lemma NamesByLookup<A>(res: Resources<A>, name: string)
    ensures name in Names(res) <==> exists t: Slot :: t.resource == name && Lookup(res, t).Some?
  {
    if name in Names(res) {
      var p, c :| p in res && c in res[p] && name in res[p][c];
      assert Lookup(res, Slot(p, c, name)).Some?;
    }
  }

  /** A restart keeps the allocated resource names. */
  lemma RestoreKeepsNames<A(!new)>(res: Resources<A>, data: seq<Entry>, encode: A -> Option<string>,
                                   decode: string -> Option<A>)
    requires Codec(encode, decode) && Lists(data, LookupIn(res), encode)
    requires forall t :: Lookup(res, t).Some? ==> encode(Lookup(res, t).value).Some?
    ensures Names(Restored(map[], data, decode)) == Names(res)
  {
    var restored := Restored(map[], data, decode);
    forall name ensures name in Names(restored) <==> name in Names(res) {
      NamesByLookup(restored, name);
      NamesByLookup(res, name);
      forall t ensures Lookup(restored, t) == Lookup(res, t) { RestoreKeepsLookups(res, data, encode, decode, t); }
    }
  }

  /** Any order of the entries lists the same allocations. */
  lemma ListsPermute<A>(data: seq<Entry>, data': seq<Entry>, f: Slot -> Option<A>, encode: A -> Option<string>)
    requires Lists(data, f, encode) && multiset(data) == multiset(data')
    ensures Lists(data', f, encode)
  {
    forall e ensures e in data <==> e in data' { assert e in multiset(data) <==> e in multiset(data'); }
    assert Distinct(data);
    forall i, j | 0 <= i < j < |data'| ensures data'[i].slot != data'[j].slot {
      if data'[i] == data'[j] {
        assert data' == data'[..j] + data'[j..];
        assert data'[i] in data'[..j] && data'[i] in data'[j..];
        assert multiset(data')[data'[i]] >= 2;
        DistinctMultiplicity(data, data'[i]);
      } else {
        assert data'[i] in data' && data'[j] in data';
        assert Holds(f, data'[i], encode) && Holds(f, data'[j], encode);
      }
    }
  }
}
