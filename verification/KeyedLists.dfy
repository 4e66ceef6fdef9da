/** Lists whose entries carry a key. The source keeps many of them: it fills a Go map from a
    list, walks the map in whatever order the runtime picks, and sorts the result by key. This
    module gives the value such a walk always ends in and proves the walk reaches it. */
module KeyedLists {
  import opened Keys
  import opened Sorting

  ghost predicate DistinctKeys<T>(xs: seq<T>, key: T -> Key) {
    forall i, j :: 0 <= i < j < |xs| ==> key(xs[i]) != key(xs[j])
  }

  /** Strictly increasing keys: sorted, and no key twice. */
  ghost predicate Sorted<T>(xs: seq<T>, key: T -> Key) {
    forall i, j :: 0 <= i < j < |xs| ==> Less(key(xs[i]), key(xs[j]))
  }

  /** What `sort.SliceStable` guarantees of the order when keys may repeat. */
  ghost predicate WeaklySorted<T>(xs: seq<T>, key: T -> Key) {
    forall i, j :: 0 <= i < j < |xs| ==> !Less(key(xs[j]), key(xs[i]))
  }

  ghost predicate KeyedBy<T>(m: map<Key, T>, key: T -> Key) {
    forall k <- m :: key(m[k]) == k
  }

  /** The map a loop `m[key(x)] = x` builds: a later entry overwrites an earlier one. */
  function ToMap<T>(xs: seq<T>, key: T -> Key): map<Key, T> {
    if xs == [] then map[]
    else ToMap(xs[..|xs| - 1], key)[key(xs[|xs| - 1]) := xs[|xs| - 1]]
  }

  lemma {:induction false} ToMapEntries<T>(xs: seq<T>, key: T -> Key)
    ensures KeyedBy(ToMap(xs, key), key)
    ensures forall k <- ToMap(xs, key) :: ToMap(xs, key)[k] in xs
    ensures forall x <- xs :: key(x) in ToMap(xs, key)
  {
    if xs == [] {
    } else {
      ToMapEntries(xs[..|xs| - 1], key);
    }
  }

  /** Without repeated keys the map holds every entry. */
  lemma {:induction false} ToMapLookup<T>(xs: seq<T>, key: T -> Key)
    requires DistinctKeys(xs, key)
    ensures forall x <- xs :: key(x) in ToMap(xs, key) && ToMap(xs, key)[key(x)] == x
  {
    if xs == [] {
    } else {
      ToMapLookup(xs[..|xs| - 1], key);
    }
  }

  /** The keys of a set in increasing order. */
  function SortedKeys(s: set<Key>): (ks: seq<Key>)
    ensures forall k :: k in ks <==> k in s
    ensures forall i, j :: 0 <= i < j < |ks| ==> Less(ks[i], ks[j])
    decreases s
  {
    if s == {} then [] else
      var k := Least(s);
      var rest := SortedKeys(s - {k});
      assert forall x <- rest :: x in s - {k};
      [k] + rest
  }

  function Least(s: set<Key>): (k: Key)
    requires s != {}
    ensures k in s && forall x <- s :: x == k || Less(k, x)
  {
    LeastExists(s);
    LessIsTotalOrder();
    var k :| k in s && forall x <- s :: x == k || Less(k, x);
    k
  }

  lemma {:induction false} LeastExists(s: set<Key>)
    requires s != {}
    ensures exists k <- s :: forall x <- s :: x == k || Less(k, x)
    decreases s
  {
    LessIsTotalOrder();
    var y :| y in s;
    var rest := s - {y};
    if rest == {} {
      assert s == {y};
    } else {
      LeastExists(rest);
      var k :| k in rest && forall x <- rest :: x == k || Less(k, x);
      var least := if Less(y, k) then y else k;
      assert forall x <- s :: x == y || x in rest;
      assert least in s && forall x <- s :: x == least || Less(least, x);
    }
  }

  /** The values of a map in the order of their keys. */
  function ToList<T>(m: map<Key, T>): seq<T> {
    var ks := SortedKeys(m.Keys);
    seq(|ks|, i requires 0 <= i < |ks| => m[ks[i]])
  }

  lemma ToListSorted<T>(m: map<Key, T>, key: T -> Key)
    requires KeyedBy(m, key)
    ensures Sorted(ToList(m), key)
  {
    var ks := SortedKeys(m.Keys);
    assert forall i :: 0 <= i < |ks| ==> ks[i] in m;
  }

  lemma ToListEntries<T>(m: map<Key, T>, key: T -> Key)
    requires KeyedBy(m, key)
    ensures Sorted(ToList(m), key)
    ensures forall x :: x in ToList(m) <==> key(x) in m && m[key(x)] == x
  {
    ToListSorted(m, key);
    var ks, xs := SortedKeys(m.Keys), ToList(m);
    forall x | key(x) in m && m[key(x)] == x ensures x in xs {
      assert key(x) in ks;
      var i :| 0 <= i < |ks| && ks[i] == key(x);
      assert xs[i] == x;
    }
    forall x | x in xs ensures key(x) in m && m[key(x)] == x {
      var i :| 0 <= i < |xs| && xs[i] == x;
      assert ks[i] in m && x == m[ks[i]];
    }
  }

  lemma SortedDistinct<T>(xs: seq<T>, key: T -> Key)
    requires Sorted(xs, key)
    ensures DistinctKeys(xs, key)
  {
    LessIsTotalOrder();
  }

  /** A map survives the trip through its sorted list. */
  lemma MapListMap<T>(m: map<Key, T>, key: T -> Key)
    requires KeyedBy(m, key)
    ensures ToMap(ToList(m), key) == m
  {
    var xs := ToList(m);
    ToListEntries(m, key);
    SortedDistinct(xs, key);
    ToMapLookup(xs, key);
    ToMapEntries(xs, key);
    forall k ensures k in ToMap(xs, key) <==> k in m {
      if k in m { assert m[k] in xs; }
    }
  }

  /** A sorted list is the only sorted list with its entries. */
  lemma {:induction false} SortedUnique<T>(xs: seq<T>, ys: seq<T>, key: T -> Key)
    requires Sorted(xs, key) && Sorted(ys, key)
    requires forall x :: x in xs <==> x in ys
    ensures xs == ys
  {
    LessIsTotalOrder();
    if xs != [] { assert xs[0] in ys; }
    if ys != [] { assert ys[0] in xs; }
    if xs == [] {
    } else {
      assert xs[0] == ys[0];
      forall x ensures x in xs[1..] <==> x in ys[1..] {
        if x in xs[1..] { assert x in ys && x != ys[0]; }
        if x in ys[1..] { assert x in xs && x != xs[0]; }
      }
      SortedUnique(xs[1..], ys[1..], key);
      assert xs == [xs[0]] + xs[1..] && ys == [ys[0]] + ys[1..];
    }
  }

  /** A sorted list survives the trip through its map. */
  lemma ListMapList<T>(xs: seq<T>, key: T -> Key)
    requires Sorted(xs, key)
    ensures ToList(ToMap(xs, key)) == xs
  {
    SortedDistinct(xs, key);
    ToMapEntries(xs, key);
    ToMapLookup(xs, key);
    ToListEntries(ToMap(xs, key), key);
    SortedUnique(ToList(ToMap(xs, key)), xs, key);
  }

  function ByKey<T>(key: T -> Key): (T, T) -> bool {
    (a, b) => Less(key(a), key(b))
  }

  lemma ByKeyIsOrder<T(!new)>(key: T -> Key)
    ensures StrictWeakOrder(ByKey(key))
  {
    LessIsTotalOrder();
  }

  /** `sort.SliceStable` by key. */
  function SortByKey<T(!new)>(xs: seq<T>, key: T -> Key): (ys: seq<T>)
    ensures multiset(ys) == multiset(xs)
    ensures WeaklySorted(ys, key)
  {
    ByKeyIsOrder(key);
    StableSortSorted(xs, ByKey(key));
    var ys := StableSort(xs, ByKey(key));
    assert forall i, j :: 0 <= i < j < |ys| ==> !ByKey(key)(ys[j], ys[i]);
    ys
  }

  function WithKey<T>(key: T -> Key, k: Key): T -> bool {
    x => key(x) == k
  }

  lemma WithKeyMeaning<T>(key: T -> Key, k: Key, x: T)
    ensures WithKey(key, k)(x) <==> key(x) == k
  {
  }

  /** The entries of one key, in their order. */
  function PerKey<T>(xs: seq<T>, key: T -> Key, k: Key): seq<T> {
    Filter(xs, WithKey(key, k))
  }

  lemma {:induction false} InsertPerKey<T>(ys: seq<T>, x: T, key: T -> Key, k: Key)
    ensures PerKey(Insert(ys, x, ByKey(key)), key, k) == PerKey(ys, key, k) + if key(x) == k then [x] else []
  {
    if ys == [] {
      assert [x][..0] == [];
    } else if ByKey(key)(x, ys[|ys| - 1]) {
      LessIsTotalOrder();
      var init, last := ys[..|ys| - 1], ys[|ys| - 1];
      InsertPerKey(init, x, key, k);
      var front := Insert(init, x, ByKey(key));
      assert (front + [last])[..|front|] == front;
    } else {
      assert (ys + [x])[..|ys|] == ys;
    }
  }

  /** Stable sorting keeps the entries of each key in their order. */
  lemma {:induction false} SortPerKey<T>(xs: seq<T>, key: T -> Key, k: Key)
    ensures PerKey(StableSort(xs, ByKey(key)), key, k) == PerKey(xs, key, k)
  {
    if xs == [] {
    } else {
      SortPerKey(xs[..|xs| - 1], key, k);
      InsertPerKey(StableSort(xs[..|xs| - 1], ByKey(key)), xs[|xs| - 1], key, k);
    }
  }

  lemma LastPerKey<T>(xs: seq<T>, key: T -> Key)
    requires xs != []
    ensures
      var init, x := xs[..|xs| - 1], xs[|xs| - 1];
      forall k :: PerKey(xs, key, k) == PerKey(init, key, k) + if key(x) == k then [x] else []
  {
  }

  lemma LastHasItsKey<T>(xs: seq<T>, key: T -> Key)
    requires xs != []
    ensures PerKey(xs, key, key(xs[|xs| - 1])) != []
  {
  }

  /** In a sorted list no key comes after the last entry's. */
  lemma LastIsHighest<T>(xs: seq<T>, key: T -> Key, k: Key)
    requires WeaklySorted(xs, key) && PerKey(xs, key, k) != []
    ensures xs != [] && !Less(key(xs[|xs| - 1]), k)
  {
    LessIsTotalOrder();
    var pos := FilterPositions(xs, WithKey(key, k));
    FilterEntries(xs, WithKey(key, k));
    assert PerKey(xs, key, k)[0] in PerKey(xs, key, k);
    assert WithKey(key, k)(xs[pos[0]]);
  }

  /** A sorted list is determined by the entries of each key. */
  lemma {:induction false} PerKeyDetermines<T>(xs: seq<T>, ys: seq<T>, key: T -> Key)
    requires WeaklySorted(xs, key) && WeaklySorted(ys, key)
    requires forall k :: PerKey(xs, key, k) == PerKey(ys, key, k)
    ensures xs == ys
    decreases |xs|
  {
    if xs == [] {
      if ys != [] { LastHasItsKey(ys, key); }
    } else {
      LessIsTotalOrder();
      LastPerKey(xs, key);
      var x := xs[|xs| - 1];
      LastIsHighest(ys, key, key(x));
      LastPerKey(ys, key);
      var y := ys[|ys| - 1];
      LastIsHighest(xs, key, key(y));
      assert key(x) == key(y);
      var a, b := PerKey(xs, key, key(x)), PerKey(ys, key, key(x));
      assert a[|a| - 1] == x && b[|b| - 1] == y;
      var init, jnit := xs[..|xs| - 1], ys[..|ys| - 1];
      forall k ensures PerKey(init, key, k) == PerKey(jnit, key, k) {
        var p, q := PerKey(xs, key, k), PerKey(ys, key, k);
        assert PerKey(init, key, k) == p[..|p| - if key(x) == k then 1 else 0];
        assert PerKey(jnit, key, k) == q[..|q| - if key(x) == k then 1 else 0];
      }
      PerKeyDetermines(init, jnit, key);
      assert xs == init + [x] && ys == jnit + [y];
    }
  }

  /** Distinct keys are a property of the multiset of entries. */
  lemma DistinctKeysPermute<T>(xs: seq<T>, ys: seq<T>, key: T -> Key)
    requires DistinctKeys(xs, key) && multiset(xs) == multiset(ys)
    ensures DistinctKeys(ys, key)
    ensures forall x :: x in xs <==> x in ys
  {
    forall x ensures x in xs <==> x in ys { assert x in multiset(xs) <==> x in multiset(ys); }
    forall i, j | 0 <= i < j < |ys| ensures key(ys[i]) != key(ys[j]) {
      if key(ys[i]) == key(ys[j]) {
        assert ys[i] in xs && ys[j] in xs;
        var a :| 0 <= a < |xs| && xs[a] == ys[i];
        var b :| 0 <= b < |xs| && xs[b] == ys[j];
        assert a == b;
        assert ys == ys[..j] + ys[j..];
        assert ys[i] in ys[..j] && ys[i] in ys[j..];
        assert multiset(ys)[ys[i]] >= 2;
        DistinctMultiplicity(xs, ys[i]);
      }
    }
  }

  /** Sorting a list with distinct keys puts it in its one sorted form. */
  lemma SortedForm<T>(xs: seq<T>, ys: seq<T>, key: T -> Key)
    requires DistinctKeys(xs, key) && multiset(xs) == multiset(ys) && WeaklySorted(ys, key)
    ensures ys == ToList(ToMap(xs, key))
  {
    LessIsTotalOrder();
    DistinctKeysPermute(xs, ys, key);
    assert Sorted(ys, key);
    ToMapEntries(xs, key);
    ToMapLookup(xs, key);
    ToListEntries(ToMap(xs, key), key);
    SortedUnique(ys, ToList(ToMap(xs, key)), key);
  }

  /** The list holds the values of the given keys, each once. */
  ghost predicate Collects<T(!new)>(xs: seq<T>, m: map<Key, T>, keys: set<Key>, key: T -> Key)
    requires keys <= m.Keys
  {
    DistinctKeys(xs, key) && forall x :: x in xs <==> key(x) in keys && m[key(x)] == x
  }

  lemma CollectsStep<T(!new)>(xs: seq<T>, m: map<Key, T>, keys: set<Key>, key: T -> Key, k: Key)
    requires KeyedBy(m, key) && keys <= m.Keys && Collects(xs, m, keys, key) && k in m && k !in keys
    ensures Collects(xs + [m[k]], m, keys + {k}, key)
  {
  }

  lemma CollectsAll<T(!new)>(xs: seq<T>, m: map<Key, T>, key: T -> Key)
    requires KeyedBy(m, key) && Collects(xs, m, m.Keys, key)
    ensures ToMap(xs, key) == m
  {
    ToMapLookup(xs, key);
    ToMapEntries(xs, key);
    forall k ensures k in ToMap(xs, key) <==> k in m {
      if k in m { assert m[k] in xs; }
    }
  }

  /** Walk a map in any order, collect its values and sort them by key. */
  method ListOfMap<T(!new)>(m: map<Key, T>, key: T -> Key) returns (xs: seq<T>)
    requires KeyedBy(m, key)
    ensures xs == ToList(m)
  {
    var todo := m.Keys;
    var unsorted: seq<T> := [];
    while todo != {}
      invariant todo <= m.Keys
      invariant Collects(unsorted, m, m.Keys - todo, key)
    {
      var k :| k in todo;
      todo := todo - {k};
      unsorted := unsorted + [m[k]];
    }
    assert m.Keys - todo == m.Keys;
    CollectsAll(unsorted, m, key);
    xs := SortByKey(unsorted, key);
    SortedForm(unsorted, xs, key);
  }
}
