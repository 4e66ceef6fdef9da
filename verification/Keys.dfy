/** Strings compared as Go compares them, two-part keys, and small facts about sequences
    that several components share. */
module Keys {

  datatype Option<+T> = None | Some(value: T)

  /** The identity of a keyed list entry: (type, name) of a zone, (namespace, name) of an
      object, and ("", name) where the source sorts by a name alone. */
  datatype Key = Key(group: string, name: string)

  /** Go's `<` on strings. */
  predicate StrLess(a: string, b: string) {
    if b == "" then false
    else if a == "" then true
    else if a[0] != b[0] then a[0] < b[0]
    else StrLess(a[1..], b[1..])
  }

  /** Compare groups first and names second. */
  predicate Less(a: Key, b: Key) {
    if a.group == b.group then StrLess(a.name, b.name) else StrLess(a.group, b.group)
  }

  lemma LessMeaning(a: Key, b: Key)
    ensures Less(a, b) <==> StrLess(a.group, b.group) || (a.group == b.group && StrLess(a.name, b.name))
  {
    StrIrreflexive(a.group);
  }

  lemma {:induction false} StrIrreflexive(a: string)
    ensures !StrLess(a, a)
  {
    if a == "" {
    } else {
      StrIrreflexive(a[1..]);
    }
  }

  lemma {:induction false} StrTransitive(a: string, b: string, c: string)
    requires StrLess(a, b) && StrLess(b, c)
    ensures StrLess(a, c)
  {
    if a != "" && a[0] == b[0] && b[0] == c[0] { StrTransitive(a[1..], b[1..], c[1..]); }
  }

  lemma {:induction false} StrTotal(a: string, b: string)
    ensures a == b || StrLess(a, b) || StrLess(b, a)
  {
    if a != "" && b != "" && a[0] == b[0] {
      StrTotal(a[1..], b[1..]);
      assert a == [a[0]] + a[1..] && b == [b[0]] + b[1..];
    }
  }

  /** The first string ends first, or has the smaller character where the two first differ. */
  ghost predicate DiffersAt(a: string, b: string, k: nat) {
    && k <= |a| && k < |b| && a[..k] == b[..k]
    && (k < |a| ==> a[k] < b[k])
  }

  lemma {:induction false} StrLessMeaning(a: string, b: string)
    ensures StrLess(a, b) <==> exists k: nat :: DiffersAt(a, b, k)
  {
    if b == "" {
    } else if a == "" {
      assert DiffersAt(a, b, 0);
    } else if a[0] != b[0] {
      assert a[0] < b[0] ==> DiffersAt(a, b, 0);
      forall k: nat | DiffersAt(a, b, k) ensures a[0] < b[0] {
        if k > 0 { assert a[..k][0] == b[..k][0]; }
      }
    } else {
      StrLessMeaning(a[1..], b[1..]);
      forall k: nat ensures DiffersAt(a[1..], b[1..], k) <==> DiffersAt(a, b, k + 1) {
        if k <= |a[1..]| && k < |b[1..]| { HeadTail(a, k); HeadTail(b, k); }
      }
      if k: nat :| DiffersAt(a, b, k) {
        assert k > 0;
        assert DiffersAt(a[1..], b[1..], k - 1);
      }
    }
  }

  lemma HeadTail(a: string, k: nat)
    requires a != "" && k < |a|
    ensures a[..k + 1] == [a[0]] + a[1..][..k]
  {
  }

  /** `Less` is a strict total order. */
  lemma LessIsTotalOrder()
    ensures forall a :: !Less(a, a)
    ensures forall a, b, c :: Less(a, b) && Less(b, c) ==> Less(a, c)
    ensures forall a, b :: a == b || Less(a, b) || Less(b, a)
    ensures forall a, b :: Less(a, b) ==> !Less(b, a)
  {
    forall a ensures !Less(a, a) { StrIrreflexive(a.name); }
    forall a, b, c | Less(a, b) && Less(b, c) ensures Less(a, c) { LessTransitive(a, b, c); }
    forall a, b ensures a == b || Less(a, b) || Less(b, a) {
      StrTotal(a.group, b.group);
      StrTotal(a.name, b.name);
    }
  }

  lemma LessTransitive(a: Key, b: Key, c: Key)
    requires Less(a, b) && Less(b, c)
    ensures Less(a, c)
  {
    if a.group == b.group {
      if b.group == c.group { StrTransitive(a.name, b.name, c.name); }
    } else if b.group != c.group {
      StrTransitive(a.group, b.group, c.group);
      if a.group == c.group { StrIrreflexive(a.group); }
    }
  }

  /** Every finite set of strings misses some string. */
  lemma FreshString(s: set<string>) returns (x: string)
    ensures x !in s
  {
    var bound := LongestBound(s);
    x := seq(bound, i => 'x');
  }

  lemma LongestBound(s: set<string>) returns (bound: nat)
    ensures forall y <- s :: |y| < bound
    decreases s
  {
    if s == {} { return 0; }
    var y :| y in s;
    var rest := LongestBound(s - {y});
    bound := if rest > |y| then rest else |y| + 1;
    assert s == {y} + (s - {y});
  }

  ghost predicate Distinct<T>(s: seq<T>) {
    forall i, j :: 0 <= i < j < |s| ==> s[i] != s[j]
  }

  function Elements<T>(s: seq<T>): set<T> {
    set x <- s
  }

  /** A sequence without repetitions is as long as its set of elements. */
  lemma {:induction false} DistinctCard<T>(s: seq<T>)
    requires Distinct(s)
    ensures |Elements(s)| == |s|
  {
    if s == [] {
    } else {
      var init, x := s[..|s| - 1], s[|s| - 1];
      DistinctCard(init);
      assert x !in init;
      ElementsAppend(init, x);
      assert s == init + [x];
    }
  }

  lemma ElementsAppend<T>(s: seq<T>, x: T)
    ensures Elements(s + [x]) == Elements(s) + {x}
  {
  }

  /** Two repetition-free sequences over one set are permutations of each other. */
  lemma DistinctPermutation<T>(s: seq<T>, t: seq<T>)
    requires Distinct(s) && Distinct(t)
    requires forall x :: x in s <==> x in t
    ensures multiset(s) == multiset(t)
  {
    forall x ensures multiset(s)[x] == multiset(t)[x] {
      DistinctMultiplicity(s, x);
      DistinctMultiplicity(t, x);
    }
  }

  lemma {:induction false} DistinctMultiplicity<T>(s: seq<T>, x: T)
    requires Distinct(s)
    ensures multiset(s)[x] == if x in s then 1 else 0
  {
    if s == [] {
    } else {
      var init := s[..|s| - 1];
      DistinctMultiplicity(init, x);
      assert s == init + [s[|s| - 1]];
    }
  }
}
