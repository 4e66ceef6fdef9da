/** Merging keyed lists in place (pkg/util/cnr.go, lines 229-266): entries of the first list keep
    their positions, entries with new keys are appended in their order. */
module InOrderMerge {
  import opened Keys
  import opened Sorting
  import opened KeyedLists
  import opened KeyedMerge

  /** The last position with a key, or -1: what the source's index map holds. */
  function LastIndex<T>(xs: seq<T>, key: T -> Key, k: Key): (i: int)
    ensures -1 <= i < |xs|
    ensures i >= 0 ==> key(xs[i]) == k
    ensures i < 0 ==> forall x <- xs :: key(x) != k
  {
    if xs == [] then -1
    else if key(xs[|xs| - 1]) == k then |xs| - 1
    else LastIndex(xs[..|xs| - 1], key, k)
  }

  function PutInOrder<T>(xs: seq<T>, x: T, key: T -> Key, combine: (T, T) -> T): seq<T> {
    var i := LastIndex(xs, key, key(x));
    if i >= 0 then xs[i := combine(xs[i], x)] else xs + [x]
  }

  function MergeInOrder<T>(dst: seq<T>, src: seq<T>, key: T -> Key, combine: (T, T) -> T): seq<T> {
    if src == [] then dst
    else PutInOrder(MergeInOrder(dst, src[..|src| - 1], key, combine), src[|src| - 1], key, combine)
  }

  /** The index map agrees with the list. */
  ghost predicate Indexes<T>(index: map<Key, int>, xs: seq<T>, key: T -> Key) {
    forall k :: if k in index then index[k] >= 0 && index[k] == LastIndex(xs, key, k) else LastIndex(xs, key, k) < 0
  }

  lemma {:induction false} LastIndexUpdate<T>(xs: seq<T>, i: nat, x: T, key: T -> Key, k: Key)
    requires i < |xs| && key(x) == key(xs[i])
    ensures LastIndex(xs[i := x], key, k) == LastIndex(xs, key, k)
  {
    if i < |xs| - 1 && key(xs[|xs| - 1]) != k {
      LastIndexUpdate(xs[..|xs| - 1], i, x, key, k);
      assert xs[i := x][..|xs| - 1] == xs[..|xs| - 1][i := x];
    } else if i == |xs| - 1 {
      assert xs[i := x][..|xs| - 1] == xs[..|xs| - 1];
    }
  }

  lemma IndexesAppend<T>(index: map<Key, int>, xs: seq<T>, x: T, key: T -> Key)
    requires Indexes(index, xs, key)
    ensures Indexes(index[key(x) := |xs|], xs + [x], key)
  {
    assert (xs + [x])[..|xs|] == xs;
  }

  lemma IndexesUpdate<T>(index: map<Key, int>, xs: seq<T>, i: nat, x: T, key: T -> Key)
    requires Indexes(index, xs, key) && i < |xs| && key(x) == key(xs[i])
    ensures Indexes(index, xs[i := x], key)
  {
    forall k ensures LastIndex(xs[i := x], key, k) == LastIndex(xs, key, k) { LastIndexUpdate(xs, i, x, key, k); }
  }

  method MergeInPlace<T(!new)>(dst: seq<T>, src: seq<T>, key: T -> Key, combine: (T, T) -> T) returns (result: seq<T>)
    requires KeepsKey(key, combine)
    ensures result == MergeInOrder(dst, src, key, combine)
  {
    var index: map<Key, int> := map[];
    for i := 0 to |dst|
      invariant Indexes(index, dst[..i], key)
    {
      assert dst[..i + 1] == dst[..i] + [dst[i]];
      IndexesAppend(index, dst[..i], dst[i], key);
      index := index[key(dst[i]) := i];
    }
    assert dst[..|dst|] == dst;
    result := dst;
    for i := 0 to |src|
      invariant Indexes(index, result, key)
      invariant result == MergeInOrder(dst, src[..i], key, combine)
    {
      var x := src[i];
      assert src[..i + 1][..i] == src[..i];
      if key(x) in index {
        var at := index[key(x)];
        IndexesUpdate(index, result, at, combine(result[at], x), key);
        result := result[at := combine(result[at], x)];
      } else {
        IndexesAppend(index, result, x, key);
        result := result + [x];
        index := index[key(x) := |result| - 1];
      }
    }
    assert src[..|src|] == src;
  }

  // ---------------------------------------------------------------- the laws of in-order merges

  function KeySeq<T>(xs: seq<T>, key: T -> Key): seq<Key> {
    seq(|xs|, i requires 0 <= i < |xs| => key(xs[i]))
  }

  /** A list without repeated keys is determined by the order of its keys and its entries. */
  lemma DeterminedByKeys<T>(xs: seq<T>, ys: seq<T>, key: T -> Key)
    requires DistinctKeys(xs, key) && DistinctKeys(ys, key)
    requires KeySeq(xs, key) == KeySeq(ys, key) && ToMap(xs, key) == ToMap(ys, key)
    ensures xs == ys
  {
    ToMapLookup(xs, key);
    ToMapLookup(ys, key);
    assert |xs| == |KeySeq(xs, key)| == |ys|;
    forall i | 0 <= i < |xs| ensures xs[i] == ys[i] {
      assert KeySeq(xs, key)[i] == KeySeq(ys, key)[i];
      assert xs[i] in xs && ys[i] in ys;
    }
  }

  ghost function MissingFrom<T>(m: map<Key, T>): Key -> bool {
    k => k !in m
  }

  lemma {:induction false} ToMapUpdate<T>(xs: seq<T>, i: nat, x: T, key: T -> Key)
    requires DistinctKeys(xs, key) && i < |xs| && key(x) == key(xs[i])
    ensures DistinctKeys(xs[i := x], key)
    ensures ToMap(xs[i := x], key) == ToMap(xs, key)[key(x) := x]
    ensures KeySeq(xs[i := x], key) == KeySeq(xs, key)
  {
    var n := |xs| - 1;
    if i < n {
      ToMapUpdate(xs[..n], i, x, key);
      assert xs[i := x][..n] == xs[..n][i := x];
    } else {
      assert xs[i := x][..n] == xs[..n];
    }
  }

  lemma AppendNew<T>(xs: seq<T>, x: T, key: T -> Key)
    requires DistinctKeys(xs, key) && forall y <- xs :: key(y) != key(x)
    ensures DistinctKeys(xs + [x], key)
    ensures ToMap(xs + [x], key) == ToMap(xs, key)[key(x) := x]
    ensures KeySeq(xs + [x], key) == KeySeq(xs, key) + [key(x)]
  {
    assert (xs + [x])[..|xs|] == xs;
  }

  /** Putting one entry combines it with the one that has its key, or appends it. */
  lemma PutMeaning<T(!new)>(xs: seq<T>, x: T, key: T -> Key, combine: (T, T) -> T)
    requires DistinctKeys(xs, key) && KeepsKey(key, combine)
    ensures
      var m, r := ToMap(xs, key), PutInOrder(xs, x, key, combine);
      && DistinctKeys(r, key)
      && ToMap(r, key) == m[key(x) := if key(x) in m then combine(m[key(x)], x) else x]
      && KeySeq(r, key) == KeySeq(xs, key) + (if key(x) in m then [] else [key(x)])
  {
    var i := LastIndex(xs, key, key(x));
    ToMapEntries(xs, key);
    ToMapLookup(xs, key);
    if i >= 0 {
      assert xs[i] in xs;
      ToMapUpdate(xs, i, combine(xs[i], x), key);
      assert KeySeq(xs, key) + [] == KeySeq(xs, key);
    } else {
      assert key(x) !in ToMap(xs, key);
      AppendNew(xs, x, key);
    }
  }

  lemma {:induction false} InOrderUnion<T(!new)>(d: seq<T>, s: seq<T>, key: T -> Key, combine: (T, T) -> T)
    requires DistinctKeys(d, key) && DistinctKeys(s, key) && KeepsKey(key, combine)
    ensures DistinctKeys(MergeInOrder(d, s, key, combine), key)
    ensures ToMap(MergeInOrder(d, s, key, combine), key) == Union(ToMap(d, key), ToMap(s, key), combine)
  {
    if s == [] {
    } else {
      var init, x := s[..|s| - 1], s[|s| - 1];
      InOrderUnion(d, init, key, combine);
      PutMeaning(MergeInOrder(d, init, key, combine), x, key, combine);
      ToMapEntries(init, key);
      assert forall y <- init :: key(y) != key(x);
      UnionStep(ToMap(d, key), ToMap(init, key), key(x), x, combine);
    }
  }

  lemma {:induction false} InOrderKeys<T(!new)>(d: seq<T>, s: seq<T>, key: T -> Key, combine: (T, T) -> T)
    requires DistinctKeys(d, key) && DistinctKeys(s, key) && KeepsKey(key, combine)
    ensures KeySeq(MergeInOrder(d, s, key, combine), key) ==
            KeySeq(d, key) + Filter(KeySeq(s, key), MissingFrom(ToMap(d, key)))
  {
    if s == [] {
    } else {
      var init, x := s[..|s| - 1], s[|s| - 1];
      InOrderKeys(d, init, key, combine);
      InOrderUnion(d, init, key, combine);
      PutMeaning(MergeInOrder(d, init, key, combine), x, key, combine);
      ToMapEntries(init, key);
      assert key(x) !in ToMap(init, key);
      KeySeqStep(s, |s| - 1, key, MissingFrom(ToMap(d, key)));
      assert s[..|s| - 1 + 1] == s;
      var kept := Filter(KeySeq(init, key), MissingFrom(ToMap(d, key)));
      ConcatAssociative(KeySeq(d, key), kept, [key(x)]);
      ConcatAssociative(KeySeq(d, key), kept, []);
    }
  }

  /** The entries of an in-order merge are the union, the keys of the first list come first, and
      the new keys follow in their order. */
  lemma InOrderMeaning<T(!new)>(d: seq<T>, s: seq<T>, key: T -> Key, combine: (T, T) -> T)
    requires DistinctKeys(d, key) && DistinctKeys(s, key) && KeepsKey(key, combine)
    ensures
      var r := MergeInOrder(d, s, key, combine);
      && DistinctKeys(r, key)
      && ToMap(r, key) == Union(ToMap(d, key), ToMap(s, key), combine)
      && KeySeq(r, key) == KeySeq(d, key) + Filter(KeySeq(s, key), MissingFrom(ToMap(d, key)))
  {
    InOrderUnion(d, s, key, combine);
    InOrderKeys(d, s, key, combine);
  }

  lemma KeySeqStep<T>(s: seq<T>, n: nat, key: T -> Key, keep: Key -> bool)
    requires n < |s|
    ensures Filter(KeySeq(s[..n + 1], key), keep) ==
            Filter(KeySeq(s[..n], key), keep) + (if keep(key(s[n])) then [key(s[n])] else [])
  {
    assert KeySeq(s[..n + 1], key)[..n] == KeySeq(s[..n], key);
  }

  lemma InOrderIdempotent<T(!new)>(d: seq<T>, key: T -> Key, combine: (T, T) -> T)
    requires DistinctKeys(d, key) && KeepsKey(key, combine)
    requires forall x <- d :: combine(x, x) == x
    ensures MergeInOrder(d, d, key, combine) == d
  {
    InOrderMeaning(d, d, key, combine);
    ToMapEntries(d, key);
    forall k <- KeySeq(d, key) ensures !MissingFrom(ToMap(d, key))(k) {
      var i :| 0 <= i < |d| && key(d[i]) == k;
      assert d[i] in d;
    }
    FilterNone(KeySeq(d, key), MissingFrom(ToMap(d, key)));
    assert Union(ToMap(d, key), ToMap(d, key), combine) == ToMap(d, key);
    DeterminedByKeys(MergeInOrder(d, d, key, combine), d, key);
  }

  lemma InOrderAssociative<T(!new)>(a: seq<T>, b: seq<T>, c: seq<T>, key: T -> Key, combine: (T, T) -> T)
    requires DistinctKeys(a, key) && DistinctKeys(b, key) && DistinctKeys(c, key) && KeepsKey(key, combine)
    requires Associates(ToMap(a, key), ToMap(b, key), ToMap(c, key), combine)
    ensures MergeInOrder(MergeInOrder(a, b, key, combine), c, key, combine) ==
            MergeInOrder(a, MergeInOrder(b, c, key, combine), key, combine)
  {
    var ab, bc := MergeInOrder(a, b, key, combine), MergeInOrder(b, c, key, combine);
    InOrderMeaning(a, b, key, combine);
    InOrderMeaning(b, c, key, combine);
    InOrderMeaning(ab, c, key, combine);
    InOrderMeaning(a, bc, key, combine);
    UnionAssociative(ToMap(a, key), ToMap(b, key), ToMap(c, key), combine);
    KeyOrderAssociative(KeySeq(a, key), KeySeq(b, key), KeySeq(c, key), ToMap(a, key), ToMap(b, key), combine);
    DeterminedByKeys(MergeInOrder(ab, c, key, combine), MergeInOrder(a, bc, key, combine), key);
  }

  lemma MissingFromUnion<T>(a: map<Key, T>, b: map<Key, T>, combine: (T, T) -> T)
    ensures forall k :: MissingFrom(Union(a, b, combine))(k) <==> MissingFrom(b)(k) && MissingFrom(a)(k)
  {
  }

  lemma KeyOrderAssociative<T>(ka: seq<Key>, kb: seq<Key>, kc: seq<Key>, a: map<Key, T>, b: map<Key, T>,
                               combine: (T, T) -> T)
    ensures
      ka + Filter(kb, MissingFrom(a)) + Filter(kc, MissingFrom(Union(a, b, combine))) ==
      ka + Filter(kb + Filter(kc, MissingFrom(b)), MissingFrom(a))
  {
    var inB, inA, inBoth := MissingFrom(b), MissingFrom(a), MissingFrom(Union(a, b, combine));
    MissingFromUnion(a, b, combine);
    FilterConcat(kb, Filter(kc, inB), inA);
    FilterTwice(kc, inB, inA, inBoth);
    ConcatAssociative(ka, Filter(kb, inA), Filter(kc, inBoth));
  }

  lemma ConcatAssociative(a: seq<Key>, b: seq<Key>, c: seq<Key>)
    ensures a + b + c == a + (b + c)
  {
  }

  // ---------------------------------------------------------------- lists with repeated keys

  lemma {:induction false} InOrderFold<T(!new)>(d: seq<T>, s: seq<T>, key: T -> Key, combine: (T, T) -> T)
    requires DistinctKeys(d, key) && KeepsKey(key, combine)
    ensures DistinctKeys(MergeInOrder(d, s, key, combine), key)
    ensures ToMap(MergeInOrder(d, s, key, combine), key) == FoldInto(ToMap(d, key), s, key, combine)
  {
    if s == [] {
    } else {
      InOrderFold(d, s[..|s| - 1], key, combine);
      PutMeaning(MergeInOrder(d, s[..|s| - 1], key, combine), s[|s| - 1], key, combine);
    }
  }

  /** The entries of the first list keep their keys. */
  lemma {:induction false} InOrderKeepsFirst<T(!new)>(d: seq<T>, s: seq<T>, key: T -> Key, combine: (T, T) -> T)
    requires KeepsKey(key, combine)
    ensures
      var r := MergeInOrder(d, s, key, combine);
      |d| <= |r| && forall i :: 0 <= i < |d| ==> key(r[i]) == key(d[i])
  {
    if s == [] {
    } else {
      InOrderKeepsFirst(d, s[..|s| - 1], key, combine);
    }
  }

  /** If combining makes entries good, a merge has distinct keys and good entries exactly if the first
      list has distinct keys and the lone entries of both lists are good. */
  lemma InOrderGood<T(!new)>(d: seq<T>, s: seq<T>, key: T -> Key, combine: (T, T) -> T, good: T -> bool)
    requires KeepsKey(key, combine) && forall a, b :: good(combine(a, b))
    ensures
      var r := MergeInOrder(d, s, key, combine);
      DistinctKeys(r, key) && (forall x <- r :: good(x)) <==> DistinctKeys(d, key) && LoneGood(d + s, key, good)
  {
    var r := MergeInOrder(d, s, key, combine);
    InOrderKeepsFirst(d, s, key, combine);
    assert DistinctKeys(r, key) ==> DistinctKeys(d, key);
    if DistinctKeys(d, key) {
      InOrderFold(d, s, key, combine);
      FoldDistinct(d, key, combine);
      FoldConcat(map[], d, s, key, combine);
      FoldGood(d + s, key, combine, good);
      EntriesGood(r, key, good);
    }
  }

  lemma EntriesGood<T(!new)>(xs: seq<T>, key: T -> Key, good: T -> bool)
    requires DistinctKeys(xs, key)
    ensures (forall x <- xs :: good(x)) <==> AllGood(ToMap(xs, key), good)
  {
    ToMapEntries(xs, key);
    ToMapLookup(xs, key);
    if AllGood(ToMap(xs, key), good) {
      forall x <- xs ensures good(x) { assert ToMap(xs, key)[key(x)] == x; }
    }
  }
}
