/** `sort.SliceStable` with a comparison function, and order-keeping filters. */
module Sorting {

  /** What a comparison must satisfy for sorting to be meaningful. */
  ghost predicate StrictWeakOrder<T(!new)>(less: (T, T) -> bool) {
    && (forall a, b :: less(a, b) ==> !less(b, a))
    && (forall a, b, c :: !less(a, b) && !less(b, c) ==> !less(a, c))
  }

  ghost predicate SortedBy<T>(xs: seq<T>, less: (T, T) -> bool) {
    forall i, j :: 0 <= i < j < |xs| ==> !less(xs[j], xs[i])
  }

  /** Put `x` behind every entry it is not less than. */
  function Insert<T>(ys: seq<T>, x: T, less: (T, T) -> bool): (zs: seq<T>)
    ensures multiset(zs) == multiset(ys) + multiset{x}
  {
    if ys == [] then [x]
    else
      var last := ys[|ys| - 1];
      assert ys == ys[..|ys| - 1] + [last];
      if less(x, last) then Insert(ys[..|ys| - 1], x, less) + [last] else ys + [x]
  }

  /** The result of `sort.SliceStable`. */
  function StableSort<T>(xs: seq<T>, less: (T, T) -> bool): (ys: seq<T>)
    ensures multiset(ys) == multiset(xs)
  {
    if xs == [] then []
    else
      assert xs == xs[..|xs| - 1] + [xs[|xs| - 1]];
      Insert(StableSort(xs[..|xs| - 1], less), xs[|xs| - 1], less)
  }

  /** The comparison orders the entries of a list. */
  ghost predicate Orders<T>(xs: seq<T>, less: (T, T) -> bool) {
    && (forall a, b :: a in xs && b in xs && less(a, b) ==> !less(b, a))
    && (forall a, b, c :: a in xs && b in xs && c in xs && !less(a, b) && !less(b, c) ==> !less(a, c))
  }

  lemma {:induction false} InsertSorted<T>(ys: seq<T>, x: T, less: (T, T) -> bool)
    requires Orders(ys + [x], less) && SortedBy(ys, less)
    ensures SortedBy(Insert(ys, x, less), less)
  {
    if ys != [] && less(x, ys[|ys| - 1]) {
      var init, last := ys[..|ys| - 1], ys[|ys| - 1];
      InsertSorted(init, x, less);
      var front := Insert(init, x, less);
      assert x in ys + [x] && last in ys + [x];
      forall i | 0 <= i < |front| ensures !less(last, front[i]) {
        assert front[i] in multiset(front);
        assert front[i] == x || front[i] in init;
      }
    }
  }

  lemma {:induction false} SortSortedOn<T>(xs: seq<T>, less: (T, T) -> bool)
    requires Orders(xs, less)
    ensures SortedBy(StableSort(xs, less), less)
  {
    if xs == [] {
    } else {
      var init, x := xs[..|xs| - 1], xs[|xs| - 1];
      SortSortedOn(init, less);
      var ys := StableSort(init, less);
      assert xs == init + [x];
      forall i | 0 <= i < |ys| ensures ys[i] in xs { assert ys[i] in multiset(init); }
      assert forall y <- ys + [x] :: y in xs;
      InsertSorted(ys, x, less);
    }
  }

  lemma StableSortSorted<T(!new)>(xs: seq<T>, less: (T, T) -> bool)
    requires StrictWeakOrder(less)
    ensures SortedBy(StableSort(xs, less), less)
  {
    SortSortedOn(xs, less);
  }

  /** Permutations have the same length and the same entries. */
  lemma PermutationEntries<T>(xs: seq<T>, ys: seq<T>)
    requires multiset(xs) == multiset(ys)
    ensures |xs| == |ys|
    ensures forall x :: x in xs <==> x in ys
  {
    assert |multiset(xs)| == |multiset(ys)|;
    forall x ensures x in xs <==> x in ys { assert x in multiset(xs) <==> x in multiset(ys); }
  }

  /** The entries that satisfy `keep`, in their order. */
  function Filter<T>(xs: seq<T>, keep: T -> bool): seq<T> {
    if xs == [] then []
    else Filter(xs[..|xs| - 1], keep) + (if keep(xs[|xs| - 1]) then [xs[|xs| - 1]] else [])
  }

  lemma {:induction false} FilterEntries<T>(xs: seq<T>, keep: T -> bool)
    ensures forall x :: x in Filter(xs, keep) <==> x in xs && keep(x)
  {
    if xs == [] {
    } else {
      FilterEntries(xs[..|xs| - 1], keep);
      assert xs == xs[..|xs| - 1] + [xs[|xs| - 1]];
    }
  }

  lemma {:induction false} FilterAll<T>(xs: seq<T>, keep: T -> bool)
    requires forall i :: 0 <= i < |xs| ==> keep(xs[i])
    ensures Filter(xs, keep) == xs
  {
    if xs == [] {
    } else {
      FilterAll(xs[..|xs| - 1], keep);
    }
  }

  lemma {:induction false} FilterNone<T>(xs: seq<T>, keep: T -> bool)
    requires forall i :: 0 <= i < |xs| ==> !keep(xs[i])
    ensures Filter(xs, keep) == []
  {
    if xs == [] {
    } else {
      FilterNone(xs[..|xs| - 1], keep);
    }
  }

  /** A filter is a subsequence: positions in the result come from increasing positions. */
  lemma {:induction false} FilterPositions<T>(xs: seq<T>, keep: T -> bool) returns (pos: seq<nat>)
    ensures |pos| == |Filter(xs, keep)|
    ensures forall i :: 0 <= i < |pos| ==> pos[i] < |xs| && Filter(xs, keep)[i] == xs[pos[i]]
    ensures forall i, j :: 0 <= i < j < |pos| ==> pos[i] < pos[j]
    ensures forall i: nat :: i < |xs| && keep(xs[i]) ==> i in pos
  {
    if xs == [] { return []; }
    pos := FilterPositions(xs[..|xs| - 1], keep);
    if keep(xs[|xs| - 1]) { pos := pos + [|xs| - 1]; }
  }

  lemma {:induction false} SameFilter<T>(xs: seq<T>, f: T -> bool, g: T -> bool)
    requires forall x <- xs :: f(x) == g(x)
    ensures Filter(xs, f) == Filter(xs, g)
  {
    if xs == [] {
    } else {
      assert forall x <- xs[..|xs| - 1] :: x in xs;
      SameFilter(xs[..|xs| - 1], f, g);
    }
  }

  lemma {:induction false} FilterConcat<T>(xs: seq<T>, ys: seq<T>, keep: T -> bool)
    ensures Filter(xs + ys, keep) == Filter(xs, keep) + Filter(ys, keep)
  {
    if ys == [] {
      assert xs + ys == xs;
    } else {
      assert (xs + ys)[..|xs + ys| - 1] == xs + ys[..|ys| - 1];
      FilterConcat(xs, ys[..|ys| - 1], keep);
    }
  }

  lemma {:induction false} FilterTwice<T(!new)>(xs: seq<T>, f: T -> bool, g: T -> bool, both: T -> bool)
    requires forall x :: both(x) <==> f(x) && g(x)
    ensures Filter(Filter(xs, f), g) == Filter(xs, both)
  {
    if xs == [] {
    } else {
      var init, x := xs[..|xs| - 1], xs[|xs| - 1];
      FilterTwice(init, f, g, both);
      if f(x) {
        assert (Filter(init, f) + [x])[..|Filter(init, f)|] == Filter(init, f);
      } else {
        assert Filter(init, f) + [] == Filter(init, f);
      }
    }
  }

  lemma FilterStep<T>(xs: seq<T>, n: nat, keep: T -> bool)
    requires n < |xs|
    ensures Filter(xs[..n + 1], keep) == Filter(xs[..n], keep) + (if keep(xs[n]) then [xs[n]] else [])
  {
    assert xs[..n + 1][..n] == xs[..n];
  }

  ghost predicate Increasing(s: seq<int>) {
    forall i, j :: 0 <= i < j < |s| ==> s[i] < s[j]
  }

  predicate InRange(s: seq<int>, n: nat) {
    forall i :: 0 <= i < |s| ==> 0 <= s[i] < n
  }

  /** The positions of the entries that satisfy `keep`. */
  function Positions<T>(xs: seq<T>, keep: T -> bool): seq<int> {
    if xs == [] then []
    else Positions(xs[..|xs| - 1], keep) + (if keep(xs[|xs| - 1]) then [|xs| - 1] else [])
  }

  lemma {:induction false} PositionsMeaning<T>(xs: seq<T>, keep: T -> bool)
    ensures InRange(Positions(xs, keep), |xs|) && Increasing(Positions(xs, keep))
    ensures forall i :: i in Positions(xs, keep) <==> 0 <= i < |xs| && keep(xs[i])
  {
    if xs == [] {
    } else {
      PositionsMeaning(xs[..|xs| - 1], keep);
    }
  }
}
