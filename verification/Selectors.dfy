/** Kubernetes label selectors and the overlap check that keeps two targets of one priority
    from claiming the same node (pkg/controller/kcc/kcct.go, lines 971-1015). */
module Selectors {
  import opened Keys

  type Labels = map<string, string>

  datatype Operator =
    | In | Equals | DoubleEquals
    | NotIn | NotEquals
    | Exists | DoesNotExist
    | GreaterThan | LessThan

  predicate IsEquality(op: Operator) {
    op.In? || op.Equals? || op.DoubleEquals?
  }

  predicate IsInequality(op: Operator) {
    op.NotIn? || op.NotEquals?
  }

  /** The five operators the overlap check understands. */
  predicate IsSupported(op: Operator) {
    IsEquality(op) || IsInequality(op)
  }

  datatype Requirement = Requirement(key: string, op: Operator, values: set<string>) {
    /** Kubernetes semantics: `NotIn` and `!=` also match a node without the key. */
    predicate Matches(l: Labels) {
      match op
      case In | Equals | DoubleEquals => key in l && l[key] in values
      case NotIn | NotEquals => key in l ==> l[key] !in values
      case Exists => key in l
      case DoesNotExist => key !in l
      case GreaterThan | LessThan =>
        && key in l
        && ParseInt64(l[key]).Some?
        && |values| == 1
        && forall v <- values ::
             && ParseInt64(v).Some?
             && (if op.GreaterThan? then ParseInt64(l[key]).value > ParseInt64(v).value
                 else ParseInt64(l[key]).value < ParseInt64(v).value)
    }
  }

  /** `Nothing` is the selector that is not selectable; it matches no labels. */
  datatype Selector = Nothing | Requirements(reqs: seq<Requirement>) {
    predicate Matches(l: Labels) {
      Requirements? && forall r <- reqs :: r.Matches(l)
    }
  }

  function ParseInt64(s: string): Option<int> {
    var negative := |s| > 0 && s[0] == '-';
    var digits := if |s| > 0 && (s[0] == '-' || s[0] == '+') then s[1..] else s;
    if digits == "" || exists c <- digits :: !('0' <= c <= '9') then None
    else
      var n := if negative then -Decimal(digits) else Decimal(digits);
      if -0x8000_0000_0000_0000 <= n < 0x8000_0000_0000_0000 then Some(n) else None
  }

  function Decimal(digits: string): int {
    if digits == "" then 0
    else 10 * Decimal(digits[..|digits| - 1]) + (digits[|digits| - 1] as int - '0' as int)
  }

  ghost predicate Satisfiable(s: Selector, o: Selector) {
    exists l: Labels :: s.Matches(l) && o.Matches(l)
  }

  // ---------------------------------------------------------------- the check

  /** All requirements of `s` on `key` use operators the check understands. */
  predicate SupportedOn(s: Selector, key: string) {
    s.Requirements? && forall r <- s.reqs :: r.key == key ==> IsSupported(r.op)
  }

  /** The values `s` lists for `key` under equality operators, all requirements together. */
  function EqualValues(s: Selector, key: string): set<string> {
    if SupportedOn(s, key)
    then set r <- s.reqs, v <- r.values | r.key == key && IsEquality(r.op) :: v
    else {}
  }

  /** The values `s` lists for `key` under inequality operators, all requirements together. */
  function UnequalValues(s: Selector, key: string): set<string> {
    if SupportedOn(s, key)
    then set r <- s.reqs, v <- r.values | r.key == key && IsInequality(r.op) :: v
    else {}
  }

  method GetMatchValueSet(s: Selector, key: string)
    returns (equal: set<string>, unequal: set<string>, ok: bool)
    ensures equal == EqualValues(s, key) && unequal == UnequalValues(s, key)
    ensures ok <==> SupportedOn(s, key)
  {
    equal, unequal := {}, {};
    if s.Nothing? { return {}, {}, false; }
    for i := 0 to |s.reqs|
      invariant forall r <- s.reqs[..i] :: r.key == key ==> IsSupported(r.op)
      invariant equal == set r <- s.reqs[..i], v <- r.values | r.key == key && IsEquality(r.op) :: v
      invariant unequal == set r <- s.reqs[..i], v <- r.values | r.key == key && IsInequality(r.op) :: v
    {
      var r := s.reqs[i];
      assert s.reqs[..i + 1] == s.reqs[..i] + [r];
      if r.key != key { continue; }
      if IsEquality(r.op) {
        equal := equal + r.values;
      } else if IsInequality(r.op) {
        unequal := unequal + r.values;
      } else {
        return {}, {}, false;
      }
    }
    assert s.reqs[..|s.reqs|] == s.reqs;
    ok := true;
  }

  /** The six-way condition under which one key does not separate two selectors. */
  predicate KeyOverlaps(equal: set<string>, unequal: set<string>,
                        otherEqual: set<string>, otherUnequal: set<string>)
  {
    || (|equal| > 0 && |otherEqual| > 0 && |equal * otherEqual| > 0)
    || (|equal| == 0 && |otherEqual| == 0)
    || (|unequal| > 0 && unequal * otherEqual != otherEqual)
    || (|otherUnequal| > 0 && otherUnequal * equal != equal)
    || (|equal| > 0 && |otherEqual| == 0 && |otherUnequal| == 0)
    || (|otherEqual| > 0 && |equal| == 0 && |unequal| == 0)
  }

  predicate OverlapsOn(s: Selector, o: Selector, key: string) {
    KeyOverlaps(EqualValues(s, key), UnequalValues(s, key), EqualValues(o, key), UnequalValues(o, key))
  }

  predicate Overlap(s: Selector, o: Selector, keyList: seq<string>) {
    forall key <- keyList :: OverlapsOn(s, o, key)
  }

  method CheckKeyOverlap(s: Selector, o: Selector, key: string) returns (overlaps: bool)
    ensures overlaps <==> OverlapsOn(s, o, key)
  {
    var equal, unequal, _ := GetMatchValueSet(s, key);
    var otherEqual, otherUnequal, _ := GetMatchValueSet(o, key);
    overlaps := KeyOverlaps(equal, unequal, otherEqual, otherUnequal);
  }

  method CheckLabelSelectorOverlap(s: Selector, o: Selector, keyList: seq<string>) returns (overlap: bool)
    ensures overlap <==> Overlap(s, o, keyList)
    ensures !overlap ==> !Satisfiable(s, o)
    ensures overlap <==> Overlap(o, s, keyList)
  {
    OverlapFacts(s, o, keyList);
    for i := 0 to |keyList|
      invariant forall j :: 0 <= j < i ==> OverlapsOn(s, o, keyList[j])
    {
      overlap := CheckKeyOverlap(s, o, keyList[i]);
      if !overlap { return; }
    }
    return true;
  }

  // ---------------------------------------------------------------- soundness

  /** The value a label map gives a key, absence included. */
  function ValueOf(l: Labels, key: string): Option<string> {
    if key in l then Some(l[key]) else None
  }

  /** A value (or absence) is admitted by the listed equal and unequal values. */
  ghost predicate Admits(equal: set<string>, unequal: set<string>, v: Option<string>) {
    && (equal != {} ==> v.Some? && v.value in equal)
    && (v.Some? ==> v.value !in unequal)
  }

  lemma MatchAdmits(s: Selector, key: string, l: Labels)
    requires s.Matches(l)
    ensures Admits(EqualValues(s, key), UnequalValues(s, key), ValueOf(l, key))
  {
  }

  lemma AdmittedByBoth(equal: set<string>, unequal: set<string>,
                       otherEqual: set<string>, otherUnequal: set<string>, v: Option<string>)
    requires Admits(equal, unequal, v) && Admits(otherEqual, otherUnequal, v)
    ensures KeyOverlaps(equal, unequal, otherEqual, otherUnequal)
  {
    if equal != {} && otherEqual != {} {
      assert v.value in equal * otherEqual;
    } else if equal != {} {
      assert v.value in equal && v.value !in otherUnequal * equal;
    } else if otherEqual != {} {
      assert v.value in otherEqual && v.value !in unequal * otherEqual;
    }
  }

  /** Labels matched by both selectors are never reported as separate, whatever the selectors:
      several requirements per key, unlisted keys, any operator. */
  lemma OverlapSound(s: Selector, o: Selector, keyList: seq<string>, l: Labels)
    requires s.Matches(l) && o.Matches(l)
    ensures Overlap(s, o, keyList)
  {
    forall key <- keyList ensures OverlapsOn(s, o, key) {
      MatchAdmits(s, key, l);
      MatchAdmits(o, key, l);
      AdmittedByBoth(EqualValues(s, key), UnequalValues(s, key),
                     EqualValues(o, key), UnequalValues(o, key), ValueOf(l, key));
    }
  }

  lemma OverlapSymmetric(s: Selector, o: Selector, keyList: seq<string>)
    ensures Overlap(s, o, keyList) <==> Overlap(o, s, keyList)
  {
    forall key <- keyList ensures OverlapsOn(s, o, key) <==> OverlapsOn(o, s, key) {
      assert EqualValues(s, key) * EqualValues(o, key) == EqualValues(o, key) * EqualValues(s, key);
    }
  }

  lemma OverlapFacts(s: Selector, o: Selector, keyList: seq<string>)
    ensures Overlap(s, o, keyList) <==> Overlap(o, s, keyList)
    ensures Satisfiable(s, o) ==> Overlap(s, o, keyList)
  {
    OverlapSymmetric(s, o, keyList);
    if Satisfiable(s, o) {
      var l: Labels :| s.Matches(l) && o.Matches(l);
      OverlapSound(s, o, keyList, l);
    }
  }

  // ---------------------------------------------------------------- exactness

  /** Only supported operators, each with at least one value, as the selector parser builds them. */
  ghost predicate Supported(s: Selector) {
    s.Requirements? && forall r <- s.reqs :: IsSupported(r.op) && r.values != {}
  }

  /** At most one requirement per key. */
  ghost predicate OnePerKey(s: Selector)
    requires s.Requirements?
  {
    forall i, j :: 0 <= i < j < |s.reqs| ==> s.reqs[i].key != s.reqs[j].key
  }

  /** Requirements on one key never mix equality with inequality, and its equality
      requirements all list the same values. */
  ghost predicate Uniform(s: Selector)
    requires s.Requirements?
  {
    forall r <- s.reqs, r' <- s.reqs :: r.key == r'.key ==>
      (IsEquality(r.op) <==> IsEquality(r'.op)) && (IsEquality(r.op) ==> r.values == r'.values)
  }

  ghost predicate Constrains(s: Selector, key: string)
    requires s.Requirements?
  {
    exists r <- s.reqs :: r.key == key
  }

  /** What the selector parser guarantees of the operators that take a list of values. */
  ghost predicate Parsed(s: Selector) {
    s.Requirements? ==> forall r <- s.reqs :: IsSupported(r.op) ==> r.values != {}
  }

  ghost predicate UniformOn(s: Selector, key: string)
    requires s.Requirements?
  {
    forall r <- s.reqs, r' <- s.reqs :: r.key == key && r'.key == key ==>
      (IsEquality(r.op) <==> IsEquality(r'.op)) && (IsEquality(r.op) ==> r.values == r'.values)
  }

  /** The selector asks nothing of the key but its presence. */
  ghost predicate OnlyExists(s: Selector, key: string)
    requires s.Requirements?
  {
    Constrains(s, key) && forall r <- s.reqs :: r.key == key ==> r.op == Exists
  }

  /** The listed values say all there is about the key. */
  ghost predicate ReadableOn(s: Selector, key: string)
    requires s.Requirements?
  {
    SupportedOn(s, key) && UniformOn(s, key)
  }

  /** A value (or absence) the selector accepts for the key. */
  ghost predicate Accepts(s: Selector, key: string, v: Option<string>)
    requires s.Requirements?
  {
    (OnlyExists(s, key) ==> v.Some?) && Admits(EqualValues(s, key), UnequalValues(s, key), v)
  }

  lemma AcceptsMatch(s: Selector, l: Labels)
    requires s.Requirements? && Parsed(s)
    requires forall r <- s.reqs :: ReadableOn(s, r.key) || OnlyExists(s, r.key)
    requires forall r <- s.reqs :: Accepts(s, r.key, ValueOf(l, r.key))
    ensures s.Matches(l)
  {
    forall r <- s.reqs ensures r.Matches(l) { RequirementMatches(s, l, r); }
  }

  lemma RequirementMatches(s: Selector, l: Labels, r: Requirement)
    requires s.Requirements? && Parsed(s) && r in s.reqs
    requires ReadableOn(s, r.key) || OnlyExists(s, r.key)
    requires Accepts(s, r.key, ValueOf(l, r.key))
    ensures r.Matches(l)
  {
    if ReadableOn(s, r.key) {
      var v :| v in r.values;
      if IsEquality(r.op) {
        assert v in EqualValues(s, r.key);
        assert forall v <- EqualValues(s, r.key) :: v in r.values;
      } else {
        assert forall v <- r.values :: v in UnequalValues(s, r.key);
      }
    }
  }

  lemma OneKind(s: Selector, key: string)
    requires s.Requirements? && Parsed(s) && (ReadableOn(s, key) || OnlyExists(s, key))
    ensures EqualValues(s, key) == {} || UnequalValues(s, key) == {}
    ensures OnlyExists(s, key) ==> EqualValues(s, key) == {} && UnequalValues(s, key) == {}
    ensures !Constrains(s, key) ==> EqualValues(s, key) == {} && UnequalValues(s, key) == {}
  {
  }

  /** One kind of value per side: the six-way condition finds a common value or absence. */
  lemma Separate(equal: set<string>, unequal: set<string>,
                 otherEqual: set<string>, otherUnequal: set<string>)
    requires equal == {} || unequal == {}
    requires otherEqual == {} || otherUnequal == {}
    requires KeyOverlaps(equal, unequal, otherEqual, otherUnequal)
    ensures exists v :: Admits(equal, unequal, v) && Admits(otherEqual, otherUnequal, v)
  {
    var v: Option<string> := None;
    if equal != {} && otherEqual != {} {
      assert equal * otherEqual != {};
      var x :| x in equal * otherEqual;
      v := Some(x);
    } else if equal != {} {
      var x :| x in equal && x !in otherUnequal;
      v := Some(x);
    } else if otherEqual != {} {
      var x :| x in otherEqual && x !in unequal;
      v := Some(x);
    }
    assert Admits(equal, unequal, v) && Admits(otherEqual, otherUnequal, v);
  }

  ghost predicate CommonValue(s: Selector, o: Selector, key: string, v: Option<string>)
    requires s.Requirements? && o.Requirements?
  {
    Accepts(s, key, v) && Accepts(o, key, v)
  }

  /** The listed values describe each selector on the key, or it asks for nothing but presence; if both
      list values the key is listed. */
  ghost predicate Meets(s: Selector, o: Selector, keyList: seq<string>, key: string)
    requires s.Requirements? && o.Requirements?
  {
    && (OnlyExists(s, key) || ReadableOn(s, key))
    && (OnlyExists(o, key) || ReadableOn(o, key))
    && (Constrains(s, key) && Constrains(o, key) && !OnlyExists(s, key) && !OnlyExists(o, key) ==> key in keyList)
  }

  lemma CommonValueExists(s: Selector, o: Selector, keyList: seq<string>, key: string)
    requires s.Requirements? && Parsed(s) && o.Requirements? && Parsed(o)
    requires Meets(s, o, keyList, key) && Overlap(s, o, keyList)
    ensures exists v :: CommonValue(s, o, key, v)
  {
    OneKind(s, key);
    OneKind(o, key);
    var v;
    if OnlyExists(s, key) {
      v := SomeValue(o, key);
    } else if OnlyExists(o, key) {
      v := SomeValue(s, key);
    } else {
      Separate(EqualValues(s, key), UnequalValues(s, key), EqualValues(o, key), UnequalValues(o, key));
      v :| Admits(EqualValues(s, key), UnequalValues(s, key), v)
           && Admits(EqualValues(o, key), UnequalValues(o, key), v);
    }
    assert CommonValue(s, o, key, v);
  }

  /** There is always some value for a key that must be present. */
  lemma SomeValue(o: Selector, key: string) returns (v: Option<string>)
    requires o.Requirements? && Parsed(o) && (ReadableOn(o, key) || OnlyExists(o, key))
    ensures v.Some? && Accepts(o, key, v)
  {
    OneKind(o, key);
    var x;
    if EqualValues(o, key) != {} {
      x :| x in EqualValues(o, key);
    } else {
      x := FreshString(UnequalValues(o, key));
    }
    v := Some(x);
  }

  ghost function Pick(s: Selector, o: Selector, key: string): Option<string>
    requires s.Requirements? && o.Requirements?
  {
    if exists v :: CommonValue(s, o, key, v) then var v :| CommonValue(s, o, key, v); v else None
  }

  /** A common value for every key that either selector constrains. */
  ghost function CommonLabels(s: Selector, o: Selector): Labels
    requires s.Requirements? && o.Requirements?
  {
    map k | k in (set r <- s.reqs + o.reqs :: r.key) && Pick(s, o, k).Some? :: Pick(s, o, k).value
  }

  lemma CommonLabelsValue(s: Selector, o: Selector, keyList: seq<string>, r: Requirement)
    requires s.Requirements? && Parsed(s) && o.Requirements? && Parsed(o)
    requires Meets(s, o, keyList, r.key) && Overlap(s, o, keyList) && (r in s.reqs || r in o.reqs)
    ensures CommonValue(s, o, r.key, ValueOf(CommonLabels(s, o), r.key))
  {
    hide CommonValue, Overlap, Meets;
    CommonValueExists(s, o, keyList, r.key);
    assert r in s.reqs + o.reqs;
    assert ValueOf(CommonLabels(s, o), r.key) == Pick(s, o, r.key);
  }

  /** The check reports an overlap exactly when some label map satisfies both. */
  lemma OverlapExactMeeting(s: Selector, o: Selector, keyList: seq<string>)
    requires s.Requirements? && Parsed(s) && o.Requirements? && Parsed(o)
    requires forall key :: Meets(s, o, keyList, key)
    ensures Overlap(s, o, keyList) <==> Satisfiable(s, o)
  {
    OverlapFacts(s, o, keyList);
    if Overlap(s, o, keyList) {
      var l := CommonLabels(s, o);
      hide CommonLabels, Overlap, Accepts, ReadableOn, OnlyExists;
      forall r | r in s.reqs || r in o.reqs ensures CommonValue(s, o, r.key, ValueOf(l, r.key)) {
        CommonLabelsValue(s, o, keyList, r);
      }
      assert forall r <- s.reqs :: Meets(s, o, keyList, r.key);
      assert forall r <- o.reqs :: Meets(s, o, keyList, r.key);
      AcceptsMatch(s, l);
      AcceptsMatch(o, l);
    }
  }

  /** Exactness: for uniform selectors that meet only on listed keys, the check reports an
      overlap exactly when some label map satisfies both. */
  lemma OverlapExact(s: Selector, o: Selector, keyList: seq<string>)
    requires Supported(s) && Supported(o) && Uniform(s) && Uniform(o)
    requires forall key :: Constrains(s, key) && Constrains(o, key) ==> key in keyList
    ensures Overlap(s, o, keyList) <==> Satisfiable(s, o)
  {
    OverlapExactMeeting(s, o, keyList);
  }

  /** The check agrees with satisfiability against every supported selector that has one requirement
      per key. */
  ghost predicate ExactAgainstAll(s: Selector, keyList: seq<string>) {
    forall o :: Supported(o) && OnePerKey(o) ==> (Overlap(s, o, keyList) <==> Satisfiable(s, o))
  }

  lemma OnePerKeyUniform(s: Selector)
    requires Supported(s) && OnePerKey(s)
    ensures Uniform(s)
  {
  }

  lemma SingleSets(key: string, op: Operator, values: set<string>)
    requires IsSupported(op)
    ensures EqualValues(Requirements([Requirement(key, op, values)]), key) == (if IsEquality(op) then values else {})
    ensures UnequalValues(Requirements([Requirement(key, op, values)]), key) == (if IsEquality(op) then {} else values)
    ensures forall k | k != key ::
              && EqualValues(Requirements([Requirement(key, op, values)]), k) == {}
              && UnequalValues(Requirements([Requirement(key, op, values)]), k) == {}
  {
  }

  /** Against a one-requirement selector only the requirement's own key can separate. */
  lemma SingleOverlap(s: Selector, key: string, op: Operator, values: set<string>, keyList: seq<string>)
    requires IsSupported(op)
    requires key in keyList ==> OverlapsOn(s, Requirements([Requirement(key, op, values)]), key)
    ensures Overlap(s, Requirements([Requirement(key, op, values)]), keyList)
  {
    SingleSets(key, op, values);
  }

  lemma Mentioned(s: Selector, r: Requirement)
    requires s.Requirements? && r in s.reqs && SupportedOn(s, r.key)
    ensures if IsEquality(r.op) then r.values <= EqualValues(s, r.key) else r.values <= UnequalValues(s, r.key)
  {
  }

  lemma FreshReported(equal: set<string>, unequal: set<string>, v: string)
    requires unequal != {} && v !in unequal
    ensures KeyOverlaps(equal, unequal, {v}, {})
  {
    assert v !in unequal * {v} && v in {v};
  }

  lemma Incompatible(s: Selector, o: Selector, r: Requirement, q: Requirement)
    requires s.Requirements? && r in s.reqs && o.Requirements? && q in o.reqs
    requires forall l: Labels :: r.Matches(l) ==> !q.Matches(l)
    ensures !Satisfiable(s, o)
  {
  }

  /** One requirement that the check overlooks although it conflicts with `r` refutes exactness. */
  lemma SingleNotExact(s: Selector, keyList: seq<string>, r: Requirement, q: Requirement)
    requires s.Requirements? && r in s.reqs && IsSupported(q.op) && q.values != {}
    requires q.key in keyList ==> OverlapsOn(s, Requirements([q]), q.key)
    requires forall l: Labels :: r.Matches(l) ==> !q.Matches(l)
    ensures !ExactAgainstAll(s, keyList)
  {
    var o := Requirements([q]);
    SingleOverlap(s, q.key, q.op, q.values, keyList);
    Incompatible(s, o, r, q);
    assert Supported(o) && OnePerKey(o);
  }

  /** A value that the requirement rules out, unless it only asks for the key's presence. */
  lemma Rejected(r: Requirement) returns (v: string)
    requires r.op != Exists && (IsSupported(r.op) ==> r.values != {})
    ensures forall l: Labels :: r.Matches(l) ==> !(r.key in l && l[r.key] == v)
  {
    if IsEquality(r.op) {
      v := FreshString(r.values);
    } else if IsInequality(r.op) {
      v :| v in r.values;
    } else {
      v := "x";
      assert v[0] == 'x';
    }
  }

  /** Requirements on a key that is not listed, or together with an operator the check does not
      understand, are invisible to the check. */
  lemma BlindNotExact(s: Selector, keyList: seq<string>, r: Requirement)
    requires s.Requirements? && Parsed(s) && r in s.reqs && r.op != Exists
    requires r.key !in keyList || !SupportedOn(s, r.key)
    ensures !ExactAgainstAll(s, keyList)
  {
    var v := Rejected(r);
    SingleSets(r.key, In, {v});
    SingleNotExact(s, keyList, r, Requirement(r.key, In, {v}));
  }

  /** Equality mixed with inequality on one key: an unmentioned value is wrongly reported. */
  lemma MixedNotExact(s: Selector, keyList: seq<string>, r: Requirement, r': Requirement)
    requires s.Requirements? && Parsed(s) && r in s.reqs && r' in s.reqs && r.key == r'.key && SupportedOn(s, r.key)
    requires IsEquality(r.op) && IsInequality(r'.op)
    ensures !ExactAgainstAll(s, keyList)
  {
    var v := FreshString(EqualValues(s, r.key) + UnequalValues(s, r.key));
    Mentioned(s, r);
    Mentioned(s, r');
    var o := Requirements([Requirement(r.key, In, {v})]);
    assert OverlapsOn(s, o, r.key) by {
      SingleSets(r.key, In, {v});
      FreshReported(EqualValues(s, r.key), UnequalValues(s, r.key), v);
    }
    SingleNotExact(s, keyList, r, Requirement(r.key, In, {v}));
  }

  /** Two different equality requirements on one key: the check unites what the selector intersects. */
  lemma DifferingNotExact(s: Selector, keyList: seq<string>, r: Requirement, r': Requirement, v: string)
    requires s.Requirements? && r in s.reqs && r' in s.reqs && r.key == r'.key && SupportedOn(s, r.key)
    requires IsEquality(r.op) && IsEquality(r'.op) && v in r.values && v !in r'.values
    ensures !ExactAgainstAll(s, keyList)
  {
    var o := Requirements([Requirement(r.key, In, {v})]);
    assert OverlapsOn(s, o, r.key) by {
      SingleSets(r.key, In, {v});
      Mentioned(s, r);
      assert v in EqualValues(s, r.key) * {v};
    }
    SingleNotExact(s, keyList, r', Requirement(r.key, In, {v}));
  }

  lemma NotUniformNotExact(s: Selector, keyList: seq<string>, key: string)
    requires s.Requirements? && Parsed(s) && SupportedOn(s, key) && !UniformOn(s, key)
    ensures !ExactAgainstAll(s, keyList)
  {
    var r, r' :| r in s.reqs && r' in s.reqs && r.key == key && r'.key == key &&
      !((IsEquality(r.op) <==> IsEquality(r'.op)) && (IsEquality(r.op) ==> r.values == r'.values));
    if IsEquality(r.op) && IsInequality(r'.op) {
      MixedNotExact(s, keyList, r, r');
    } else if IsInequality(r.op) {
      MixedNotExact(s, keyList, r', r);
    } else if v :| v in r.values && v !in r'.values {
      DifferingNotExact(s, keyList, r, r', v);
    } else {
      var v :| v in r'.values && v !in r.values;
      DifferingNotExact(s, keyList, r', r, v);
    }
  }

  /** A selector that is not selectable is reported as overlapping with everything. */
  lemma NothingNotExact(keyList: seq<string>)
    ensures !ExactAgainstAll(Nothing, keyList)
  {
    var any := Requirements([]);
    assert Supported(any) && OnePerKey(any) && !Satisfiable(Nothing, any) && Overlap(Nothing, any, keyList);
  }

  /** Every key the selector constrains is read correctly: it only has to be present, or it is listed
      and its requirements are supported and agree. */
  ghost predicate Precise(s: Selector, keyList: seq<string>) {
    s.Requirements? && forall r <- s.reqs :: OnlyExists(s, r.key) || (r.key in keyList && ReadableOn(s, r.key))
  }

  /** Exactly which selectors the check treats precisely, among all the parser can build. */
  lemma ExactIffPrecise(s: Selector, keyList: seq<string>)
    requires Parsed(s)
    ensures ExactAgainstAll(s, keyList) <==> Precise(s, keyList)
  {
    if s.Nothing? {
      NothingNotExact(keyList);
    } else if Precise(s, keyList) {
      forall o | Supported(o) && OnePerKey(o) ensures Overlap(s, o, keyList) <==> Satisfiable(s, o) {
        OnePerKeyUniform(o);
        PreciseMeets(s, o, keyList);
        OverlapExactMeeting(s, o, keyList);
      }
    } else {
      ImpreciseNotExact(s, keyList);
    }
  }

  lemma PreciseMeets(s: Selector, o: Selector, keyList: seq<string>)
    requires Precise(s, keyList) && Supported(o) && Uniform(o)
    ensures forall key :: Meets(s, o, keyList, key)
  {
    forall key ensures Meets(s, o, keyList, key) {
      PreciseReads(s, keyList, key);
      assert ReadableOn(o, key);
    }
  }

  lemma PreciseReads(s: Selector, keyList: seq<string>, key: string)
    requires Precise(s, keyList)
    ensures OnlyExists(s, key) || ReadableOn(s, key)
    ensures Constrains(s, key) && !OnlyExists(s, key) ==> key in keyList
  {
    if Constrains(s, key) { var r :| r in s.reqs && r.key == key; }
  }

  /** Two precise selectors are told apart exactly if no label map satisfies both. */
  lemma PreciseOverlapExact(s: Selector, o: Selector, keyList: seq<string>)
    requires Parsed(s) && Parsed(o) && Precise(s, keyList) && Precise(o, keyList)
    ensures Overlap(s, o, keyList) <==> Satisfiable(s, o)
  {
    forall key ensures Meets(s, o, keyList, key) {
      PreciseReads(s, keyList, key);
      PreciseReads(o, keyList, key);
    }
    OverlapExactMeeting(s, o, keyList);
  }

  lemma ImpreciseNotExact(s: Selector, keyList: seq<string>)
    requires s.Requirements? && Parsed(s) && !Precise(s, keyList)
    ensures !ExactAgainstAll(s, keyList)
  {
    var r :| r in s.reqs && !OnlyExists(s, r.key) && !(r.key in keyList && ReadableOn(s, r.key));
    if r.key in keyList && SupportedOn(s, r.key) {
      NotUniformNotExact(s, keyList, r.key);
    } else {
      var r' :| r' in s.reqs && r'.key == r.key && r'.op != Exists;
      BlindNotExact(s, keyList, r');
    }
  }

  /** The precise reading fails on repeated keys and on operators the check does not understand:
      `a in (x), a in (y)` and `!a` are both reported as overlapping with `a in (x)`. */
  lemma OverlapNotExact()
    ensures
      var x := Requirements([Requirement("a", In, {"x"})]);
      var twice := Requirements([Requirement("a", In, {"x"}), Requirement("a", In, {"y"})]);
      var absent := Requirements([Requirement("a", DoesNotExist, {})]);
      && Overlap(twice, x, ["a"]) && !Satisfiable(twice, x)
      && Overlap(absent, x, ["a"]) && !Satisfiable(absent, x)
  {
    var x := Requirements([Requirement("a", In, {"x"})]);
    var twice := Requirements([Requirement("a", In, {"x"}), Requirement("a", In, {"y"})]);
    var absent := Requirements([Requirement("a", DoesNotExist, {})]);
    SingleSets("a", In, {"x"});
    assert "x" in EqualValues(twice, "a") * EqualValues(x, "a") by { assert twice.reqs[0] in twice.reqs; }
    Incompatible(twice, x, twice.reqs[1], x.reqs[0]);
    assert !SupportedOn(absent, "a") by { assert absent.reqs[0] in absent.reqs; }
    Incompatible(absent, x, absent.reqs[0], x.reqs[0]);
  }
}
