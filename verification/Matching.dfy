/** The one target that applies to a node (pkg/controller/kcc/util/kcct.go, lines 95-169): a
    target naming the node comes first, then the matching selector of the highest priority, then
    the global target. */
module Matching {
  import opened Keys
  import opened Sorting
  import opened Selectors
  import opened Targets

  datatype MatchResult = Matched(target: Target) | NotFound | SamePriority

  predicate MatchesName(t: Target, node: string) {
    t.nodeNames != [] && node in t.nodeNames
  }

  /** A selector that does not parse counts as matching. The source means this to keep every selector
      target from being chosen; `UnparsableBlocksIff` says when it does. */
  predicate MatchesSelector(t: Target, l: Labels) {
    t.nodeNames == [] && HasSelector(t) && (t.labelSelector.Unparsable? || ClaimsBySelector(t, l))
  }

  function ByName(node: string): Target -> bool {
    (t: Target) => MatchesName(t, node)
  }

  function BySelector(l: Labels): Target -> bool {
    (t: Target) => MatchesSelector(t, l)
  }

  /** The matching targets of the strongest kind present. */
  function MatchedTargets(targets: seq<Target>, node: string, l: Labels): seq<Target> {
    var byName := Filter(targets, ByName(node));
    var bySelector := Filter(targets, BySelector(l));
    if byName != [] then byName
    else if bySelector != [] then bySelector
    else Filter(targets, IsGlobal)
  }

  method FindMatchedKCCTargetListForNode(targets: seq<Target>, node: string, l: Labels) returns (matched: seq<Target>)
    ensures matched == MatchedTargets(targets, node, l)
  {
    var byName, bySelector, global: seq<Target> := [], [], [];
    for i := 0 to |targets|
      invariant byName == Filter(targets[..i], ByName(node))
      invariant bySelector == Filter(targets[..i], BySelector(l))
      invariant global == Filter(targets[..i], IsGlobal)
    {
      var t := targets[i];
      FilterStep(targets, i, ByName(node));
      FilterStep(targets, i, BySelector(l));
      FilterStep(targets, i, IsGlobal);
      if |t.nodeNames| > 0 {
        if node in t.nodeNames { byName := byName + [t]; }
      } else if HasSelector(t) {
        if t.labelSelector.Unparsable? || t.labelSelector.selector.Matches(l) { bySelector := bySelector + [t]; }
      } else {
        global := global + [t];
      }
    }
    assert targets[..|targets|] == targets;
    if |byName| > 0 { return byName; }
    if |bySelector| > 0 { return bySelector; }
    return global;
  }

  /** Position `i` has the strictly highest priority. */
  ghost predicate Top(ms: seq<Target>, i: int) {
    0 <= i < |ms| && forall j :: 0 <= j < |ms| && j != i ==> ms[j].priority < ms[i].priority
  }

  /** The target that applies to a node, if the rules single one out. */
  ghost function Chosen(targets: seq<Target>, node: string, l: Labels): Option<Target> {
    var ms := MatchedTargets(targets, node, l);
    if exists i :: Top(ms, i) then var i :| Top(ms, i); Some(ms[i]) else None
  }

  /** After sorting by falling priority, the first two entries decide. */
  lemma {:induction false} FirstTwoDecide(ms: seq<Target>, ys: seq<Target>)
    requires multiset(ms) == multiset(ys) && |ys| > 0
    requires forall i, j :: 0 <= i < j < |ys| ==> ys[j].priority <= ys[i].priority
    ensures (|ys| == 1 || ys[0].priority != ys[1].priority) <==> exists i :: Top(ms, i)
    ensures forall i :: Top(ms, i) ==> ms[i] == ys[0]
  {
    PermutationEntries(ms, ys);
    forall i | Top(ms, i) ensures ms[i] == ys[0] && (|ys| == 1 || ys[0].priority != ys[1].priority) {
      TopFirst(ms, ys, i);
    }
    if |ys| == 1 || ys[0].priority != ys[1].priority {
      assert ys[0] in ms;
      var i :| 0 <= i < |ms| && ms[i] == ys[0];
      forall j | 0 <= j < |ms| && j != i ensures ms[j].priority < ms[i].priority {
        assert ms[j] in ys;
        if ms[j].priority >= ms[i].priority {
          var p :| 0 <= p < |ys| && ys[p] == ms[j];
          assert p == 0;
          TwicePresent(ms, i, j);
          OnceOnly(ys);
        }
      }
      assert Top(ms, i);
    }
  }

  lemma TopFirst(ms: seq<Target>, ys: seq<Target>, i: int)
    requires multiset(ms) == multiset(ys) && Top(ms, i) && |ys| > 0
    requires forall i, j :: 0 <= i < j < |ys| ==> ys[j].priority <= ys[i].priority
    ensures ms[i] == ys[0] && (|ys| == 1 || ys[0].priority != ys[1].priority)
  {
    PermutationEntries(ms, ys);
    assert ms[i] in ys && ys[0] in ms;
    var p :| 0 <= p < |ys| && ys[p] == ms[i];
    var q :| 0 <= q < |ms| && ms[q] == ys[0];
    assert q == i;
    if |ys| > 1 && ys[0].priority == ys[1].priority {
      assert ys[1] in ms;
      var r :| 0 <= r < |ms| && ms[r] == ys[1];
      assert r == i;
      TwicePresent(ys, 0, 1);
      TopOnce(ms, i);
    }
  }

  lemma TwicePresent(ms: seq<Target>, i: nat, j: nat)
    requires i < |ms| && j < |ms| && i != j && ms[i] == ms[j]
    ensures multiset(ms)[ms[i]] >= 2
  {
    var lo, hi := if i < j then i else j, if i < j then j else i;
    assert ms == ms[..hi] + ms[hi..];
    assert ms[lo] in ms[..hi] && ms[hi] in ms[hi..];
  }

  lemma TopOnce(ms: seq<Target>, i: int)
    requires Top(ms, i)
    ensures multiset(ms)[ms[i]] == 1
  {
    assert ms == ms[..i] + [ms[i]] + ms[i + 1..];
    assert ms[i] !in ms[..i] && ms[i] !in ms[i + 1..];
  }

  lemma OnceOnly(ys: seq<Target>)
    requires |ys| > 0
    requires forall i, j :: 0 <= i < j < |ys| ==> ys[j].priority <= ys[i].priority
    requires |ys| == 1 || ys[0].priority != ys[1].priority
    ensures multiset(ys)[ys[0]] == 1
  {
    assert Top(ys, 0) by {
      if |ys| > 1 {
        assert ys[1].priority <= ys[0].priority;
        assert forall j :: 1 < j < |ys| ==> ys[j].priority <= ys[1].priority;
      }
    }
    TopOnce(ys, 0);
  }

  predicate HigherPriority(a: Target, b: Target) {
    a.priority > b.priority
  }

  method FindMatchedKCCTargetConfigForNode(targets: seq<Target>, node: string, l: Labels) returns (r: MatchResult)
    ensures r.Matched? <==> Chosen(targets, node, l).Some?
    ensures r.Matched? ==> Chosen(targets, node, l) == Some(r.target)
    ensures r.NotFound? <==> MatchedTargets(targets, node, l) == []
  {
    var matched := FindMatchedKCCTargetListForNode(targets, node, l);
    if |matched| == 0 { return NotFound; }
    var sorted := matched;
    if |matched| > 1 {
      sorted := StableSort(matched, HigherPriority);
      StableSortSorted(matched, HigherPriority);
      PermutationEntries(sorted, matched);
      assert forall i, j :: 0 <= i < j < |sorted| ==> !HigherPriority(sorted[j], sorted[i]);
      FirstTwoDecide(matched, sorted);
      if sorted[0].priority == sorted[1].priority { return SamePriority; }
    } else {
      FirstTwoDecide(matched, sorted);
    }
    return Matched(sorted[0]);
  }

  // ---------------------------------------------------------------- selectors that do not parse

  /** Targets that name no node and all count as matching by selector are the matched ones. */
  lemma AllBySelector(targets: seq<Target>, node: string, l: Labels)
    requires targets != [] && forall i :: 0 <= i < |targets| ==> MatchesSelector(targets[i], l)
    ensures MatchedTargets(targets, node, l) == targets
  {
    FilterAll(targets, BySelector(l));
    FilterNone(targets, ByName(node));
  }

  /** An unparsable selector takes the node, alone or from a target that really matches. */
  lemma UnparsableChosen(t: Target, o: Target, node: string, l: Labels)
    requires t.nodeNames == [] && t.labelSelector.Unparsable?
    requires o.nodeNames == [] && ClaimsBySelector(o, l) && o.priority < t.priority
    ensures Chosen([t], node, l) == Some(t) && Chosen([o, t], node, l) == Some(t)
  {
    AllBySelector([t], node, l);
    AllBySelector([o, t], node, l);
    hide MatchedTargets, MatchesSelector, ClaimsBySelector;
    TopChosen([t], node, l, 0);
    TopChosen([o, t], node, l, 1);
  }

  lemma TopChosen(targets: seq<Target>, node: string, l: Labels, i: int)
    requires Top(MatchedTargets(targets, node, l), i)
    ensures Chosen(targets, node, l) == Some(MatchedTargets(targets, node, l)[i])
  {
    hide MatchedTargets;
  }

  /** Two entries share the highest priority. */
  ghost predicate Tied(ms: seq<Target>) {
    exists i, j :: TiedAt(ms, i, j)
  }

  ghost predicate TiedAt(ms: seq<Target>, i: int, j: int) {
    && 0 <= i < j < |ms| && ms[i].priority == ms[j].priority
    && forall k :: 0 <= k < |ms| ==> ms[k].priority <= ms[i].priority
  }

  lemma {:induction false} HighestIndex(ms: seq<Target>) returns (i: nat)
    requires ms != []
    ensures i < |ms| && forall k :: 0 <= k < |ms| ==> ms[k].priority <= ms[i].priority
  {
    if |ms| == 1 { return 0; }
    i := HighestIndex(ms[..|ms| - 1]);
    if ms[i].priority < ms[|ms| - 1].priority { i := |ms| - 1; }
  }

  /** A node is left without a target exactly if nothing matches or the highest priority is shared. */
  lemma NoTopIffTied(ms: seq<Target>)
    ensures (exists i :: Top(ms, i)) <==> ms != [] && !Tied(ms)
  {
    if ms != [] {
      var i := HighestIndex(ms);
      if !Top(ms, i) {
        var j :| 0 <= j < |ms| && j != i && ms[j].priority >= ms[i].priority;
        assert TiedAt(ms, if i < j then i else j, if i < j then j else i);
      }
    }
  }

  /** Two targets at different places match the node by selector and share the highest priority among
      those that do. */
  ghost predicate SelectorsTied(targets: seq<Target>, l: Labels) {
    exists i, j :: SelectorsTiedAt(targets, l, i, j)
  }

  ghost predicate SelectorsTiedAt(targets: seq<Target>, l: Labels, i: int, j: int) {
    && 0 <= i < j < |targets| && MatchesSelector(targets[i], l) && MatchesSelector(targets[j], l)
    && targets[i].priority == targets[j].priority
    && forall k :: 0 <= k < |targets| && MatchesSelector(targets[k], l) ==> targets[k].priority <= targets[i].priority
  }

  lemma TiedAmongMatching(targets: seq<Target>, l: Labels)
    ensures Tied(Filter(targets, BySelector(l))) <==> SelectorsTied(targets, l)
  {
    hide TiedAt, SelectorsTiedAt;
    var ms := Filter(targets, BySelector(l));
    if Tied(ms) {
      var i, j :| TiedAt(ms, i, j);
      TiedOutside(targets, l, i, j);
    }
    if SelectorsTied(targets, l) {
      var i, j :| SelectorsTiedAt(targets, l, i, j);
      TiedInside(targets, l, i, j);
    }
  }

  lemma TiedOutside(targets: seq<Target>, l: Labels, i: int, j: int)
    requires TiedAt(Filter(targets, BySelector(l)), i, j)
    ensures SelectorsTied(targets, l)
  {
    var ms := Filter(targets, BySelector(l));
    var pos := FilterPositions(targets, BySelector(l));
    FilterEntries(targets, BySelector(l));
    assert ms[i] in ms && ms[j] in ms;
    forall k | 0 <= k < |targets| && MatchesSelector(targets[k], l) ensures targets[k].priority <= ms[i].priority {
      assert BySelector(l)(targets[k]) && targets[k] in ms;
    }
    assert SelectorsTiedAt(targets, l, pos[i], pos[j]);
  }

  lemma TiedInside(targets: seq<Target>, l: Labels, i: int, j: int)
    requires SelectorsTiedAt(targets, l, i, j)
    ensures Tied(Filter(targets, BySelector(l)))
  {
    var ms := Filter(targets, BySelector(l));
    var pos := FilterPositions(targets, BySelector(l));
    FilterEntries(targets, BySelector(l));
    hide Filter;
    assert BySelector(l)(targets[i]) && BySelector(l)(targets[j]);
    var a :| 0 <= a < |pos| && pos[a] == i;
    var b :| 0 <= b < |pos| && pos[b] == j;
    forall k | 0 <= k < |ms| ensures ms[k].priority <= ms[a].priority {
      assert ms[k] in ms && BySelector(l)(ms[k]);
    }
    assert a < b;
    assert TiedAt(ms, a, b);
  }

  /** A selector that does not parse keeps every target away from a node that no target names exactly
      if the highest priority among the selectors counted as matching is shared; otherwise a selector
      target is chosen. */
  lemma UnparsableBlocksIff(targets: seq<Target>, node: string, l: Labels)
    requires forall t <- targets :: !MatchesName(t, node)
    requires exists t <- targets :: t.nodeNames == [] && t.labelSelector.Unparsable?
    ensures Chosen(targets, node, l).None? <==> SelectorsTied(targets, l)
    ensures Chosen(targets, node, l).Some? ==> MatchesSelector(Chosen(targets, node, l).value, l)
  {
    var ms := Filter(targets, BySelector(l));
    FilterEntries(targets, BySelector(l));
    FilterNone(targets, ByName(node));
    var t :| t in targets && t.nodeNames == [] && t.labelSelector.Unparsable?;
    assert BySelector(l)(t) && t in ms;
    assert MatchedTargets(targets, node, l) == ms;
    NoTopIffTied(ms);
    TiedAmongMatching(targets, l);
    if Chosen(targets, node, l).Some? {
      var i := ChosenTop(targets, node, l);
      assert ms[i] in ms;
    }
  }

  // ---------------------------------------------------------------- targets that claim alike

  /** The targets differ in nothing that decides which nodes they get. */
  ghost predicate SameClaims(a: Target, b: Target) {
    a.id == b.id && a.labelSelector == b.labelSelector && a.nodeNames == b.nodeNames && a.priority == b.priority
  }

  ghost predicate AllSameClaims(xs: seq<Target>, ys: seq<Target>) {
    |xs| == |ys| && forall i :: 0 <= i < |xs| ==> SameClaims(xs[i], ys[i])
  }

  lemma {:induction false} FilterAlike(xs: seq<Target>, ys: seq<Target>, keep: Target -> bool)
    requires AllSameClaims(xs, ys) && forall i :: 0 <= i < |xs| ==> keep(xs[i]) == keep(ys[i])
    ensures AllSameClaims(Filter(xs, keep), Filter(ys, keep))
  {
    if xs == [] {
    } else {
      FilterAlike(xs[..|xs| - 1], ys[..|ys| - 1], keep);
    }
  }

  lemma MatchedAlike(xs: seq<Target>, ys: seq<Target>, node: string, l: Labels)
    requires AllSameClaims(xs, ys)
    ensures AllSameClaims(MatchedTargets(xs, node, l), MatchedTargets(ys, node, l))
  {
    FilterAlike(xs, ys, ByName(node));
    FilterAlike(xs, ys, BySelector(l));
    FilterAlike(xs, ys, IsGlobal);
  }

  /** Lists that claim alike choose alike. */
  lemma ChosenAlike(xs: seq<Target>, ys: seq<Target>, node: string, l: Labels)
    requires AllSameClaims(xs, ys)
    ensures Chosen(xs, node, l).Some? <==> Chosen(ys, node, l).Some?
    ensures Chosen(xs, node, l).Some? ==> Chosen(xs, node, l).value.id == Chosen(ys, node, l).value.id
  {
    MatchedAlike(xs, ys, node, l);
    hide MatchedTargets;
    var ms, ns := MatchedTargets(xs, node, l), MatchedTargets(ys, node, l);
    if i :| Top(ms, i) {
      assert Top(ns, i);
      TopChosen(xs, node, l, i);
      TopChosen(ys, node, l, i);
    } else if i :| Top(ns, i) {
      TopTransfers(ns, ms, i);
    }
  }

  lemma TopTransfers(ns: seq<Target>, ms: seq<Target>, i: int)
    requires AllSameClaims(ms, ns) && Top(ns, i)
    ensures Top(ms, i)
  {
  }

  // ---------------------------------------------------------------- valid targets

  /** The precedence rules, stated on the whole list of targets. */
  ghost predicate Applies(t: Target, targets: seq<Target>, node: string, l: Labels) {
    && t in targets
    && (|| ClaimsByName(t, node)
        || (&& ClaimsBySelector(t, l)
            && forall o <- targets | o.id != t.id ::
                 !ClaimsByName(o, node) && (ClaimsBySelector(o, l) ==> o.priority < t.priority))
        || (&& IsGlobal(t)
            && forall o <- targets | o.id != t.id :: !ClaimsByName(o, node) && !ClaimsBySelector(o, l)))
  }

  lemma ValidShape(allowed: seq<AllowedKeys>, all: seq<Target>, t: Target)
    requires AllValid(allowed, all) && t in all
    ensures !t.labelSelector.Unparsable?
    ensures HasSelector(t) ==> t.nodeNames == []
  {
    assert VerdictOf(allowed, t, all) == Valid;
  }

  lemma MatchedEntries(targets: seq<Target>, node: string, l: Labels)
    ensures
      var ms := MatchedTargets(targets, node, l);
      if exists t <- targets :: MatchesName(t, node)
      then forall t :: t in ms <==> t in targets && MatchesName(t, node)
      else if exists t <- targets :: MatchesSelector(t, l)
      then forall t :: t in ms <==> t in targets && MatchesSelector(t, l)
      else forall t :: t in ms <==> t in targets && IsGlobal(t)
  {
    var byName := Filter(targets, ByName(node));
    var bySelector := Filter(targets, BySelector(l));
    FilterEntries(targets, ByName(node));
    FilterEntries(targets, BySelector(l));
    FilterEntries(targets, IsGlobal);
    if byName != [] { assert byName[0] in byName; }
    if bySelector != [] { assert bySelector[0] in bySelector; }
  }

  lemma FilterKeepsDistinctIds(targets: seq<Target>, keep: Target -> bool)
    requires DistinctIds(targets)
    ensures DistinctIds(Filter(targets, keep))
  {
    var pos := FilterPositions(targets, keep);
  }

  lemma MatchedDistinctIds(targets: seq<Target>, node: string, l: Labels)
    requires DistinctIds(targets)
    ensures DistinctIds(MatchedTargets(targets, node, l))
  {
    FilterKeepsDistinctIds(targets, ByName(node));
    FilterKeepsDistinctIds(targets, BySelector(l));
    FilterKeepsDistinctIds(targets, IsGlobal);
  }

  /** Two matched valid targets never share a priority. */
  lemma MatchedDistinctPriorities(allowed: seq<AllowedKeys>, all: seq<Target>, node: string, l: Labels, t: Target,
                                  o: Target)
    requires AllValid(allowed, all)
    requires t in MatchedTargets(all, node, l) && o in MatchedTargets(all, node, l) && t.id != o.id
    ensures t.priority != o.priority
  {
    MatchedEntries(all, node, l);
    assert t in all && o in all;
    ValidShape(allowed, all, t);
    ValidShape(allowed, all, o);
    ValidTargetsDisjoint(allowed, all, t, o, node, l);
  }

  lemma {:induction false} TopExists(ms: seq<Target>)
    requires |ms| > 0
    requires forall i, j :: 0 <= i < j < |ms| ==> ms[i].priority != ms[j].priority
    ensures exists i :: Top(ms, i)
  {
    if |ms| == 1 {
      assert Top(ms, 0);
    } else {
      var init := ms[..|ms| - 1];
      TopExists(init);
      var i :| Top(init, i);
      assert Top(ms, if ms[i].priority < ms[|ms| - 1].priority then |ms| - 1 else i);
    }
  }

  lemma ChosenTop(targets: seq<Target>, node: string, l: Labels) returns (i: int)
    requires Chosen(targets, node, l).Some?
    ensures Top(MatchedTargets(targets, node, l), i)
    ensures MatchedTargets(targets, node, l)[i] == Chosen(targets, node, l).value
  {
    var ms := MatchedTargets(targets, node, l);
    i :| Top(ms, i) && ms[i] == Chosen(targets, node, l).value;
  }

  /** With valid targets a node is left without a target only when nothing matches it. */
  lemma ChosenExists(allowed: seq<AllowedKeys>, all: seq<Target>, node: string, l: Labels)
    requires AllValid(allowed, all) && DistinctIds(all)
    ensures Chosen(all, node, l).Some? <==> MatchedTargets(all, node, l) != []
  {
    var ms := MatchedTargets(all, node, l);
    MatchedDistinctIds(all, node, l);
    if ms != [] {
      forall i, j | 0 <= i < j < |ms| ensures ms[i].priority != ms[j].priority {
        MatchedDistinctPriorities(allowed, all, node, l, ms[i], ms[j]);
      }
      TopExists(ms);
    }
  }

  lemma ChosenApplies(allowed: seq<AllowedKeys>, all: seq<Target>, node: string, l: Labels)
    requires AllValid(allowed, all) && DistinctIds(all) && Chosen(all, node, l).Some?
    ensures Applies(Chosen(all, node, l).value, all, node, l)
  {
    var ms := MatchedTargets(all, node, l);
    var i := ChosenTop(all, node, l);
    MatchedEntries(all, node, l);
    assert ms[i] in all;
    forall o <- all ensures !o.labelSelector.Unparsable? && (HasSelector(o) ==> o.nodeNames == []) {
      ValidShape(allowed, all, o);
    }
  }

  lemma AppliesChosen(allowed: seq<AllowedKeys>, all: seq<Target>, node: string, l: Labels, t: Target)
    requires AllValid(allowed, all) && DistinctIds(all) && Applies(t, all, node, l)
    ensures Chosen(all, node, l) == Some(t)
  {
    var ms := MatchedTargets(all, node, l);
    MatchedEntries(all, node, l);
    forall o <- all ensures !o.labelSelector.Unparsable? && (HasSelector(o) ==> o.nodeNames == []) {
      ValidShape(allowed, all, o);
    }
    assert t in ms;
    ChosenExists(allowed, all, node, l);
    var i := ChosenTop(all, node, l);
    var u := ms[i];
    assert u in ms && u in all;
    var j :| 0 <= j < |ms| && ms[j] == t;
    assert j != i ==> ms[j].priority < u.priority;
    if u.id != t.id { ValidTargetsDisjoint(allowed, all, t, u, node, l); }
  }

  /** For valid targets, the choice for every node is decided by the precedence rules alone:
      a target is chosen exactly when it applies, and at most one applies. */
  lemma ValidTargetsDecide(allowed: seq<AllowedKeys>, all: seq<Target>, node: string, l: Labels, t: Target)
    requires AllValid(allowed, all) && DistinctIds(all)
    ensures Chosen(all, node, l) == Some(t) <==> Applies(t, all, node, l)
    ensures Chosen(all, node, l).None? <==> MatchedTargets(all, node, l) == []
  {
    ChosenExists(allowed, all, node, l);
    if Chosen(all, node, l) == Some(t) { ChosenApplies(allowed, all, node, l); }
    if Applies(t, all, node, l) { AppliesChosen(allowed, all, node, l, t); }
  }
}
