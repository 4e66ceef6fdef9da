/** What the status reports about a node, in terms of the lists the reporter gave
    (pkg/util/cnr_topology.go, lines 146-176): nothing given is lost, and the first given value wins. */
module StatusFacts {
  import opened Keys
  import opened Sorting
  import opened KeyedLists
  import opened KeyedMerge
  import opened InOrderMerge
  import opened ZonePayload
  import opened PayloadLaws
  import opened ZoneFacts
  import opened TopologyStatus

  // ---------------------------------------------------------------- attributes

  /** The value of the first attribute with the name. */
  function FirstValue(xs: seq<Attribute>, name: string): Option<string> {
    if xs == [] then None else if xs[0].name == name then Some(xs[0].value) else FirstValue(xs[1..], name)
  }

  lemma {:induction false} FirstValueAppend(xs: seq<Attribute>, x: Attribute, name: string)
    ensures FirstValue(xs + [x], name) ==
            if FirstValue(xs, name).Some? then FirstValue(xs, name) else if x.name == name then Some(x.value) else None
  {
    if xs == [] {
    } else {
      assert (xs + [x])[1..] == xs[1..] + [x];
      FirstValueAppend(xs[1..], x, name);
    }
  }

  lemma {:induction false} AttributesFolded(xs: seq<Attribute>, name: string)
    ensures
      var m, v := FoldInto(map[], xs, AttributeKey, FirstAttribute), FirstValue(xs, name);
      && (Key("", name) in m <==> v.Some?)
      && (v.Some? ==> m[Key("", name)] == Attribute(name, v.value))
  {
    if xs == [] {
    } else {
      var init, x := xs[..|xs| - 1], xs[|xs| - 1];
      AttributesFolded(init, name);
      assert xs == init + [x];
      FirstValueAppend(init, x, name);
    }
  }

  lemma AttributesReported(xs: seq<Attribute>, name: string)
    ensures
      var v := FirstValue(xs, name);
      ReadAttribute(MergedAttributes([], xs), name) == if v.Some? then Some(Text(v.value)) else None
  {
    FilterAll(xs, AnyAttribute);
    AttributesFolded(xs, name);
    FoldKeyed(map[], xs, AttributeKey, FirstAttribute);
    MapListMap(FoldInto(map[], xs, AttributeKey, FirstAttribute), AttributeKey);
  }

  // ---------------------------------------------------------------- allocations

  predicate Consumes(a: Allocation, consumer: string) {
    a.Allocation? && a.consumer == consumer
  }

  /** What the first allocation of the consumer that can answer says. */
  function FirstRequest(xs: seq<Allocation>, consumer: string, q: Option<ListQuestion>): Option<Answer> {
    if xs == [] then None
    else
      var here := if Consumes(xs[0], consumer) then ReadRequest(xs[0], q) else None;
      if here.Some? then here else FirstRequest(xs[1..], consumer, q)
  }

  function ReadRequest(a: Allocation, q: Option<ListQuestion>): Option<Answer>
    requires a.Allocation?
  {
    if q.None? then Some(Yes) else ReadList(a.requests, q.value)
  }

  lemma {:induction false} FirstRequestAppend(xs: seq<Allocation>, x: Allocation, consumer: string,
                                              q: Option<ListQuestion>)
    ensures FirstRequest(xs + [x], consumer, q) ==
            if FirstRequest(xs, consumer, q).Some? then FirstRequest(xs, consumer, q)
            else if Consumes(x, consumer) then ReadRequest(x, q) else None
  {
    if xs == [] {
    } else {
      assert (xs + [x])[1..] == xs[1..] + [x];
      FirstRequestAppend(xs[1..], x, consumer, q);
    }
  }

  lemma {:induction false} AllocationsFolded(xs: seq<Allocation>, consumer: string, q: Option<ListQuestion>)
    ensures
      var m, k := FoldInto(map[], Filter(xs, LiveAllocation), AllocationKey, CombinedAllocation), Key("", consumer);
      && (k in m <==> exists x <- xs :: Consumes(x, consumer))
      && (k in m ==> m[k].Allocation? && m[k].consumer == consumer)
      && (k in m ==> ReadRequest(m[k], q) == FirstRequest(xs, consumer, q))
      && (k !in m ==> FirstRequest(xs, consumer, q) == None)
  {
    if xs == [] {
    } else {
      var init, x := xs[..|xs| - 1], xs[|xs| - 1];
      AllocationsFolded(init, consumer, q);
      assert xs == init + [x];
      FirstRequestAppend(init, x, consumer, q);
      FoldStep(map[], xs, |init|, AllocationKey, LiveAllocation, CombinedAllocation);
      assert xs[..|init| + 1] == xs && xs[..|init|] == init;
      hide FirstRequest, Filter, FoldInto;
      AllocationStep(FoldInto(map[], Filter(init, LiveAllocation), AllocationKey, CombinedAllocation), x, consumer, q);
    }
  }

  /** One more allocation changes the answer for its own consumer only, and only if there was none. */
  lemma AllocationStep(m: map<Key, Allocation>, x: Allocation, consumer: string, q: Option<ListQuestion>)
    requires var k := Key("", consumer); k in m ==> m[k].Allocation? && m[k].consumer == consumer
    ensures
      var k, key := Key("", consumer), AllocationKey(x);
      var m' := if x.NilAllocation? then m else m[key := if key in m then CombinedAllocation(m[key], x) else x];
      && (k in m' <==> k in m || Consumes(x, consumer))
      && (k in m' ==> m'[k].Allocation? && m'[k].consumer == consumer)
      && (k in m && Consumes(x, consumer) ==>
            ReadRequest(m'[k], q) == First(ReadRequest(m[k], q), ReadRequest(x, q)))
      && (k in m && !Consumes(x, consumer) ==> m'[k] == m[k])
      && (k !in m && Consumes(x, consumer) ==> m'[k] == x)
  {
  }

  lemma AllocationsReported(xs: seq<Allocation>, consumer: string, q: Option<ListQuestion>)
    ensures Then(Find(MergedAllocations([], xs), AllocationKey, Key("", consumer)), AllocationReader(q)) ==
            FirstRequest(xs, consumer, q)
  {
    var m := FoldInto(map[], Filter(xs, LiveAllocation), AllocationKey, CombinedAllocation);
    AllocationsFolded(xs, consumer, q);
    FoldKeyed(map[], Filter(xs, LiveAllocation), AllocationKey, CombinedAllocation);
    MapListMap(m, AllocationKey);
    assert MergedAllocations([], xs) == ToList(m);
    hide FirstRequest, FoldInto, MergedAllocations;
  }

  // ---------------------------------------------------------------- pools, packages and siblings

  ghost predicate HasKey<T>(xs: seq<T>, key: T -> Key, k: Key) {
    exists x <- xs :: key(x) == k
  }

  lemma {:induction false} InOrderHasKeys<T(!new)>(d: seq<T>, s: seq<T>, key: T -> Key, combine: (T, T) -> T, k: Key)
    requires KeepsKey(key, combine)
    ensures HasKey(MergeInOrder(d, s, key, combine), key, k) <==> HasKey(d, key, k) || HasKey(s, key, k)
  {
    if s == [] {
    } else {
      var init, x := s[..|s| - 1], s[|s| - 1];
      InOrderHasKeys(d, init, key, combine, k);
      assert s == init + [x];
      PutHasKeys(MergeInOrder(d, init, key, combine), x, key, combine, k);
    }
  }

  lemma PutHasKeys<T(!new)>(xs: seq<T>, x: T, key: T -> Key, combine: (T, T) -> T, k: Key)
    requires KeepsKey(key, combine)
    ensures HasKey(PutInOrder(xs, x, key, combine), key, k) <==> HasKey(xs, key, k) || key(x) == k
  {
    var i, r := LastIndex(xs, key, key(x)), PutInOrder(xs, x, key, combine);
    if i >= 0 {
      assert forall j :: 0 <= j < |xs| ==> key(r[j]) == key(xs[j]);
      if HasKey(xs, key, k) {
        var j :| 0 <= j < |xs| && key(xs[j]) == k;
        assert r[j] in r;
      }
      if HasKey(r, key, k) {
        var j :| 0 <= j < |r| && key(r[j]) == k;
        assert xs[j] in xs;
      }
    }
  }

  lemma SiblingsHaveKeys(xs: seq<Sibling>, k: Key)
    ensures HasKey(MergedSiblings([], xs), SiblingKey, k) <==> HasKey(xs, SiblingKey, k)
  {
    var m := FoldInto(map[], xs, SiblingKey, CombinedSibling);
    FilterAll(xs, AnySibling);
    FoldKeyed(map[], xs, SiblingKey, CombinedSibling);
    ToListEntries(m, SiblingKey);
    FoldHasKeys(xs, SiblingKey, CombinedSibling, k);
    if k in m { assert m[k] in ToList(m); }
  }

  lemma {:induction false} FoldHasKeys<T>(xs: seq<T>, key: T -> Key, combine: (T, T) -> T, k: Key)
    ensures k in FoldInto(map[], xs, key, combine) <==> HasKey(xs, key, k)
  {
    if xs == [] {
    } else {
      FoldHasKeys(xs[..|xs| - 1], key, combine, k);
      assert xs == xs[..|xs| - 1] + [xs[|xs| - 1]];
    }
  }

  // ---------------------------------------------------------------- the whole report of a node

  /** Capacity and allocatable are the given ones. Every attribute and every consumer that was given
      is reported, with the first given value and the first given quantity of each resource. Every
      pool, package and sibling that was given is reported, and no other. */
  lemma NodeReport(info: ZoneInfo, n: Key)
    ensures
      var p := PayloadOf(info, n);
      && p.resources.capacity == (if n in info.resources then info.resources[n].capacity else None)
      && p.resources.allocatable == (if n in info.resources then info.resources[n].allocatable else None)
    ensures forall name ::
              var v := FirstValue(Given(info.attributes, n), name);
              Read(PayloadOf(info, n), OfAttribute(name)) == if v.Some? then Some(Text(v.value)) else None
    ensures forall consumer, q ::
              Read(PayloadOf(info, n), OfConsumer(consumer, q)) == FirstRequest(Given(info.allocations, n), consumer, q)
    ensures forall k :: HasKey(PayloadOf(info, n).siblings, SiblingKey, k) <==>
                        HasKey(Given(info.siblings, n), SiblingKey, k)
    ensures forall k :: HasKey(PayloadOf(info, n).resources.pools, PoolKey, k) <==>
                        || HasKey(Given(info.pools, n), PoolKey, k)
                        || (n in info.resources && HasKey(info.resources[n].pools, PoolKey, k))
    ensures forall k :: HasKey(PayloadOf(info, n).resources.packages, PackageKey, k) <==>
                        || HasKey(Given(info.packages, n), PackageKey, k)
                        || (n in info.resources && HasKey(info.resources[n].packages, PackageKey, k))
  {
    var p, base := PayloadOf(info, n), BaseOf(info, n);
    NothingMerged();
    assert p.attributes == MergedAttributes([], Given(info.attributes, n));
    assert p.allocations == MergedAllocations([], Given(info.allocations, n));
    assert p.siblings == MergedSiblings([], Given(info.siblings, n));
    assert p.resources.pools == MergedPools(base.pools, Given(info.pools, n));
    assert p.resources.packages == MergedPackages(base.packages, Given(info.packages, n));
    hide PayloadOf, MergedAttributes, MergedAllocations, MergedSiblings, FirstValue, FirstRequest, Find, ReadAttribute,
      HasKey;
    forall name
      ensures
        var v := FirstValue(Given(info.attributes, n), name);
        Read(p, OfAttribute(name)) == if v.Some? then Some(Text(v.value)) else None
    {
      AttributesReported(Given(info.attributes, n), name);
    }
    forall consumer, q
      ensures Read(p, OfConsumer(consumer, q)) == FirstRequest(Given(info.allocations, n), consumer, q)
    {
      AllocationsReported(Given(info.allocations, n), consumer, q);
    }
    forall k ensures HasKey(p.siblings, SiblingKey, k) <==> HasKey(Given(info.siblings, n), SiblingKey, k) {
      SiblingsHaveKeys(Given(info.siblings, n), k);
    }
    NoKey(PoolKey);
    NoKey(PackageKey);
    forall k ensures HasKey(p.resources.pools, PoolKey, k) <==>
                     HasKey(base.pools, PoolKey, k) || HasKey(Given(info.pools, n), PoolKey, k)
    {
      InOrderHasKeys(base.pools, Given(info.pools, n), PoolKey, CombinedPool, k);
    }
    forall k ensures HasKey(p.resources.packages, PackageKey, k) <==>
                     HasKey(base.packages, PackageKey, k) || HasKey(Given(info.packages, n), PackageKey, k)
    {
      InOrderHasKeys(base.packages, Given(info.packages, n), PackageKey, CombinedPackage, k);
    }
  }

  lemma NothingMerged()
    ensures MergedAttributes([], []) == [] && MergedAllocations([], []) == [] && MergedSiblings([], []) == []
  {
    assert MergedMap([], [], AttributeKey, AnyAttribute, FirstAttribute) == map[];
    assert MergedMap([], [], AllocationKey, LiveAllocation, CombinedAllocation) == map[];
    NoSiblings();
  }

  lemma NoKey<T>(key: T -> Key)
    ensures forall k :: !HasKey([], key, k)
  {
  }
}
