/** Merging keyed lists, the pattern behind most CNR merges (pkg/util/cnr.go, lines 271-462): fill a
    map from the first list, fold the second list into it, and sort the values. */
module KeyedMerge {
  import opened Keys
  import opened Sorting
  import opened KeyedLists

  /** Fold a list into a map: an entry with a new key is added, one with a known key is combined. */
  function FoldInto<T>(m: map<Key, T>, src: seq<T>, key: T -> Key, combine: (T, T) -> T): map<Key, T> {
    if src == [] then m
    else
      var prev, x := FoldInto(m, src[..|src| - 1], key, combine), src[|src| - 1];
      prev[key(x) := if key(x) in prev then combine(prev[key(x)], x) else x]
  }

  /** Entries that are not `live` (nil pointers) are skipped. */
  function MergedMap<T>(dst: seq<T>, src: seq<T>, key: T -> Key, live: T -> bool, combine: (T, T) -> T): map<Key, T> {
    FoldInto(ToMap(Filter(dst, live), key), Filter(src, live), key, combine)
  }

  function MergeSorted<T>(dst: seq<T>, src: seq<T>, key: T -> Key, live: T -> bool, combine: (T, T) -> T): seq<T> {
    ToList(MergedMap(dst, src, key, live, combine))
  }

  ghost predicate KeepsKey<T(!new)>(key: T -> Key, combine: (T, T) -> T) {
    forall a, b :: key(combine(a, b)) == key(a)
  }

  lemma {:induction false} FoldKeyed<T(!new)>(m: map<Key, T>, src: seq<T>, key: T -> Key, combine: (T, T) -> T)
    requires KeyedBy(m, key) && KeepsKey(key, combine)
    ensures KeyedBy(FoldInto(m, src, key, combine), key)
  {
    if src == [] {
    } else {
      FoldKeyed(m, src[..|src| - 1], key, combine);
    }
  }

  lemma FillStep<T>(xs: seq<T>, i: nat, key: T -> Key, live: T -> bool)
    requires i < |xs|
    ensures
      var m := ToMap(Filter(xs[..i], live), key);
      ToMap(Filter(xs[..i + 1], live), key) == if live(xs[i]) then m[key(xs[i]) := xs[i]] else m
  {
    FilterStep(xs, i, live);
    var kept := Filter(xs[..i], live);
    if live(xs[i]) { assert (kept + [xs[i]])[..|kept|] == kept; } else { assert kept + [] == kept; }
  }

  lemma FoldStep<T>(start: map<Key, T>, xs: seq<T>, i: nat, key: T -> Key, live: T -> bool, combine: (T, T) -> T)
    requires i < |xs|
    ensures
      var m, x := FoldInto(start, Filter(xs[..i], live), key, combine), xs[i];
      FoldInto(start, Filter(xs[..i + 1], live), key, combine) ==
      if live(x) then m[key(x) := if key(x) in m then combine(m[key(x)], x) else x] else m
  {
    FilterStep(xs, i, live);
    var kept := Filter(xs[..i], live);
    if live(xs[i]) { assert (kept + [xs[i]])[..|kept|] == kept; } else { assert kept + [] == kept; }
  }

  method MergeToSorted<T(!new)>(dst: seq<T>, src: seq<T>, key: T -> Key, live: T -> bool, combine: (T, T) -> T)
    returns (result: seq<T>)
    requires KeepsKey(key, combine)
    ensures result == MergeSorted(dst, src, key, live, combine)
  {
    var m: map<Key, T> := map[];
    for i := 0 to |dst|
      invariant m == ToMap(Filter(dst[..i], live), key)
    {
      FillStep(dst, i, key, live);
      if !live(dst[i]) { continue; }
      m := m[key(dst[i]) := dst[i]];
    }
    assert dst[..|dst|] == dst;
    ghost var start := m;
    for i := 0 to |src|
      invariant m == FoldInto(start, Filter(src[..i], live), key, combine)
    {
      FoldStep(start, src, i, key, live, combine);
      var x := src[i];
      if !live(x) { continue; }
      if key(x) !in m {
        m := m[key(x) := x];
        continue;
      }
      m := m[key(x) := combine(m[key(x)], x)];
    }
    assert src[..|src|] == src;
    ToMapEntries(Filter(dst, live), key);
    FoldKeyed(start, Filter(src, live), key, combine);
    result := ListOfMap(m, key);
  }

  // ---------------------------------------------------------------- the laws of sorted merges

  /** The union of two maps; where both have a key, the values are combined, left first. */
  ghost function Union<T>(d: map<Key, T>, s: map<Key, T>, combine: (T, T) -> T): map<Key, T> {
    map k | k in d.Keys + s.Keys ::
      if k in d && k in s then combine(d[k], s[k]) else if k in d then d[k] else s[k]
  }

  lemma UnionStep<T>(m: map<Key, T>, s: map<Key, T>, k: Key, x: T, combine: (T, T) -> T)
    requires k !in s
    ensures
      var prev := Union(m, s, combine);
      Union(m, s[k := x], combine) == prev[k := if k in prev then combine(prev[k], x) else x]
  {
  }

  /** Folding in a list without repeated keys is a union. */
  lemma {:induction false} FoldIsUnion<T>(m: map<Key, T>, src: seq<T>, key: T -> Key, combine: (T, T) -> T)
    requires DistinctKeys(src, key)
    ensures FoldInto(m, src, key, combine) == Union(m, ToMap(src, key), combine)
  {
    if src == [] {
    } else {
      var init, x := src[..|src| - 1], src[|src| - 1];
      FoldIsUnion(m, init, key, combine);
      ToMapEntries(init, key);
      assert forall y <- init :: key(y) != key(x);
      UnionStep(m, ToMap(init, key), key(x), x, combine);
    }
  }

  /** In canonical form: sorted, no key twice, nothing to skip. */
  ghost predicate Canonical<T>(xs: seq<T>, key: T -> Key, live: T -> bool) {
    Sorted(xs, key) && forall x <- xs :: live(x)
  }

  ghost predicate KeepsLive<T(!new)>(live: T -> bool, combine: (T, T) -> T) {
    forall a, b :: live(a) && live(b) ==> live(combine(a, b))
  }

  /** A merge of canonical lists is the canonical list of the union. */
  lemma MergeIsUnion<T(!new)>(d: seq<T>, s: seq<T>, key: T -> Key, live: T -> bool, combine: (T, T) -> T)
    requires Canonical(d, key, live) && Canonical(s, key, live) && KeepsKey(key, combine)
    ensures MergedMap(d, s, key, live, combine) == Union(ToMap(d, key), ToMap(s, key), combine)
    ensures Sorted(MergeSorted(d, s, key, live, combine), key)
    ensures ToMap(MergeSorted(d, s, key, live, combine), key) == Union(ToMap(d, key), ToMap(s, key), combine)
  {
    FilterAll(d, live);
    FilterAll(s, live);
    SortedDistinct(s, key);
    FoldIsUnion(ToMap(d, key), s, key, combine);
    ToMapEntries(d, key);
    FoldKeyed(ToMap(d, key), s, key, combine);
    ToListEntries(MergedMap(d, s, key, live, combine), key);
    MapListMap(MergedMap(d, s, key, live, combine), key);
  }

  /** Every entry of a merge comes from one list or combines an entry of each. */
  ghost predicate FromMerge<T>(x: T, d: seq<T>, s: seq<T>, key: T -> Key, combine: (T, T) -> T) {
    x in d || x in s || exists y <- d, z <- s :: key(y) == key(z) && x == combine(y, z)
  }

  lemma MergeEntries<T(!new)>(d: seq<T>, s: seq<T>, key: T -> Key, live: T -> bool, combine: (T, T) -> T)
    requires Canonical(d, key, live) && Canonical(s, key, live) && KeepsKey(key, combine)
    ensures forall x <- MergeSorted(d, s, key, live, combine) :: FromMerge(x, d, s, key, combine)
  {
    var m := MergedMap(d, s, key, live, combine);
    MergeIsUnion(d, s, key, live, combine);
    ToMapEntries(d, key);
    ToMapEntries(s, key);
    FoldKeyed(ToMap(Filter(d, live), key), Filter(s, live), key, combine) by { ToMapEntries(Filter(d, live), key); }
    ToListEntries(m, key);
    forall x <- MergeSorted(d, s, key, live, combine) ensures FromMerge(x, d, s, key, combine) {
      assert m[key(x)] == x;
    }
  }

  lemma MergeLive<T(!new)>(d: seq<T>, s: seq<T>, key: T -> Key, live: T -> bool, combine: (T, T) -> T)
    requires Canonical(d, key, live) && Canonical(s, key, live) && KeepsKey(key, combine) && KeepsLive(live, combine)
    ensures Canonical(MergeSorted(d, s, key, live, combine), key, live)
  {
    MergeIsUnion(d, s, key, live, combine);
    MergeEntries(d, s, key, live, combine);
  }

  lemma MergeIdempotent<T(!new)>(d: seq<T>, key: T -> Key, live: T -> bool, combine: (T, T) -> T)
    requires Canonical(d, key, live) && KeepsKey(key, combine)
    requires forall x <- d :: combine(x, x) == x
    ensures MergeSorted(d, d, key, live, combine) == d
  {
    MergeIsUnion(d, d, key, live, combine);
    ToMapEntries(d, key);
    assert Union(ToMap(d, key), ToMap(d, key), combine) == ToMap(d, key);
    ListMapList(d, key);
  }

  ghost predicate Associates<T>(a: map<Key, T>, b: map<Key, T>, c: map<Key, T>, combine: (T, T) -> T) {
    forall k | k in a && k in b && k in c :: combine(combine(a[k], b[k]), c[k]) == combine(a[k], combine(b[k], c[k]))
  }

  lemma UnionAssociative<T>(a: map<Key, T>, b: map<Key, T>, c: map<Key, T>, combine: (T, T) -> T)
    requires Associates(a, b, c, combine)
    ensures Union(Union(a, b, combine), c, combine) == Union(a, Union(b, c, combine), combine)
  {
  }

  lemma MergeAssociative<T(!new)>(a: seq<T>, b: seq<T>, c: seq<T>, key: T -> Key, live: T -> bool, combine: (T, T) -> T)
    requires Canonical(a, key, live) && Canonical(b, key, live) && Canonical(c, key, live)
    requires KeepsKey(key, combine) && KeepsLive(live, combine)
    requires Associates(ToMap(a, key), ToMap(b, key), ToMap(c, key), combine)
    ensures MergeSorted(MergeSorted(a, b, key, live, combine), c, key, live, combine) ==
            MergeSorted(a, MergeSorted(b, c, key, live, combine), key, live, combine)
  {
    var ab, bc := MergeSorted(a, b, key, live, combine), MergeSorted(b, c, key, live, combine);
    MergeIsUnion(a, b, key, live, combine);
    MergeIsUnion(b, c, key, live, combine);
    MergeLive(a, b, key, live, combine);
    MergeLive(b, c, key, live, combine);
    MergeIsUnion(ab, c, key, live, combine);
    MergeIsUnion(a, bc, key, live, combine);
    UnionAssociative(ToMap(a, key), ToMap(b, key), ToMap(c, key), combine);
  }

  // ---------------------------------------------------------------- entries that are alone with their key

  /** An entry that is alone with its key is taken over as given, so it must be good by itself. */
  ghost predicate LoneGood<T(!new)>(xs: seq<T>, key: T -> Key, good: T -> bool) {
    forall k :: |PerKey(xs, key, k)| == 1 ==> good(PerKey(xs, key, k)[0])
  }

  lemma {:induction false} FoldPerKey<T(!new)>(xs: seq<T>, key: T -> Key, combine: (T, T) -> T, good: T -> bool, k: Key)
    requires forall a, b :: good(combine(a, b))
    ensures
      var m, entries := FoldInto(map[], xs, key, combine), PerKey(xs, key, k);
      && (k in m <==> entries != [])
      && (|entries| == 1 ==> m[k] == entries[0])
      && (|entries| >= 2 ==> good(m[k]))
  {
    if xs == [] {
    } else {
      FoldPerKey(xs[..|xs| - 1], key, combine, good, k);
      WithKeyMeaning(key, k, xs[|xs| - 1]);
    }
  }

  ghost predicate AllGood<T>(m: map<Key, T>, good: T -> bool) {
    forall k <- m :: good(m[k])
  }

  /** If combining makes entries good, a fold is good exactly if the lone entries are. */
  lemma FoldGood<T(!new)>(xs: seq<T>, key: T -> Key, combine: (T, T) -> T, good: T -> bool)
    requires forall a, b :: good(combine(a, b))
    ensures AllGood(FoldInto(map[], xs, key, combine), good) <==> LoneGood(xs, key, good)
  {
    var m := FoldInto(map[], xs, key, combine);
    hide PerKey, FoldInto;
    if AllGood(m, good) {
      forall k | |PerKey(xs, key, k)| == 1 ensures good(PerKey(xs, key, k)[0]) {
        FoldPerKey(xs, key, combine, good, k);
      }
    }
    if LoneGood(xs, key, good) {
      forall k <- m ensures good(m[k]) { FoldPerKey(xs, key, combine, good, k); }
    }
  }

  lemma {:induction false} FoldConcat<T>(m: map<Key, T>, a: seq<T>, b: seq<T>, key: T -> Key, combine: (T, T) -> T)
    ensures FoldInto(m, a + b, key, combine) == FoldInto(FoldInto(m, a, key, combine), b, key, combine)
  {
    if b == [] {
      assert a + b == a;
    } else {
      FoldConcat(m, a, b[..|b| - 1], key, combine);
      assert (a + b)[..|a + b| - 1] == a + b[..|b| - 1];
    }
  }

  lemma FoldDistinct<T>(xs: seq<T>, key: T -> Key, combine: (T, T) -> T)
    requires DistinctKeys(xs, key)
    ensures FoldInto(map[], xs, key, combine) == ToMap(xs, key)
  {
    FoldIsUnion(map[], xs, key, combine);
    assert Union(map[], ToMap(xs, key), combine) == ToMap(xs, key);
  }
}
