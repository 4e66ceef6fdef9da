/** KCC targets and their validation against each other (pkg/controller/kcc/kcct.go, lines
    740-944). */
module Targets {
  import opened Keys
  import opened Selectors
  import opened Scaling

  /** The label selector field of a target: not set, set to text that does not parse, or parsed. */
  datatype SelectorField = Unset | Unparsable | Parsed(selector: Selector)

  datatype Target = Target(
    id: Key,
    labelSelector: SelectorField,
    nodeNames: seq<string>,
    priority: int,
    lastDuration: Option<int>,
    canary: Option<IntOrPercent>,
    paused: bool,
    hash: Option<string>)  // None: the configuration hash cannot be computed

  /** One entry of the KCC's list of selector keys allowed per priority. */
  datatype AllowedKeys = AllowedKeys(priority: int, keyList: seq<string>)

  datatype Verdict = Valid | Invalid(reason: Reason)

  datatype Reason =
    | SelectorAndNodeNames
    | SelectorNotSupported
    | SelectorWithDuration
    | SelectorUnparsable
    | PriorityNotSupported
    | NotSelectable
    | ForeignKeys(keys: set<string>)
    | SelectorOverlap(others: set<Key>)
    | NodeNamesWithoutDuration
    | NodeNamesOverlap(others: set<Key>)
    | GlobalWithDuration
    | GlobalOverlap(others: set<Key>)

  predicate HasSelector(t: Target) {
    !t.labelSelector.Unset?
  }

  predicate IsGlobal(t: Target) {
    t.labelSelector.Unset? && t.nodeNames == []
  }

  // ---------------------------------------------------------------- verdicts

  /** The key lists by priority; a later entry for a priority replaces an earlier one. */
  function AllowedByPriority(allowed: seq<AllowedKeys>): map<int, seq<string>> {
    if allowed == [] then map[]
    else
      var last := allowed[|allowed| - 1];
      AllowedByPriority(allowed[..|allowed| - 1])[last.priority := last.keyList]
  }

  predicate SelectorsClash(t: Target, other: Target, keyList: seq<string>)
    requires t.labelSelector.Parsed?
  {
    && other.id != t.id
    && other.labelSelector.Parsed?
    && other.priority == t.priority
    && Overlap(t.labelSelector.selector, other.labelSelector.selector, keyList)
  }

  predicate NodeNamesClash(t: Target, other: Target) {
    other.id != t.id && exists n <- t.nodeNames :: n in other.nodeNames
  }

  predicate GlobalsClash(t: Target, other: Target) {
    other.id != t.id && IsGlobal(other)
  }

  function ClashingSelectors(t: Target, all: seq<Target>, keyList: seq<string>): set<Key>
    requires t.labelSelector.Parsed?
  {
    set o <- all | SelectorsClash(t, o, keyList) :: o.id
  }

  function ClashingNodeNames(t: Target, all: seq<Target>): set<Key> {
    set o <- all | NodeNamesClash(t, o) :: o.id
  }

  function ClashingGlobals(t: Target, all: seq<Target>): set<Key> {
    set o <- all | GlobalsClash(t, o) :: o.id
  }

  function UnlistedKeys(s: Selector, keyList: seq<string>): set<string>
    requires s.Requirements?
  {
    set r <- s.reqs | r.key !in keyList :: r.key
  }

  function SelectorVerdict(allowed: map<int, seq<string>>, t: Target, all: seq<Target>): Verdict
    requires HasSelector(t)
  {
    if |allowed| == 0 then Invalid(SelectorNotSupported)
    else if t.lastDuration.Some? then Invalid(SelectorWithDuration)
    else if t.labelSelector.Unparsable? then Invalid(SelectorUnparsable)
    else if t.priority !in allowed then Invalid(PriorityNotSupported)
    else if t.labelSelector.selector.Nothing? then Invalid(NotSelectable)
    else
      var foreign := UnlistedKeys(t.labelSelector.selector, allowed[t.priority]);
      if foreign != {} then Invalid(ForeignKeys(foreign))
      else
        var clashes := ClashingSelectors(t, all, allowed[t.priority]);
        if clashes != {} then Invalid(SelectorOverlap(clashes)) else Valid
  }

  function NodeNamesVerdict(t: Target, all: seq<Target>): Verdict {
    if t.lastDuration.None? then Invalid(NodeNamesWithoutDuration)
    else
      var clashes := ClashingNodeNames(t, all);
      if clashes != {} then Invalid(NodeNamesOverlap(clashes)) else Valid
  }

  function GlobalVerdict(t: Target, all: seq<Target>): Verdict {
    if t.lastDuration.Some? then Invalid(GlobalWithDuration)
    else
      var clashes := ClashingGlobals(t, all);
      if clashes != {} then Invalid(GlobalOverlap(clashes)) else Valid
  }

  function VerdictOf(allowed: seq<AllowedKeys>, t: Target, all: seq<Target>): Verdict {
    if HasSelector(t) && t.nodeNames != [] then Invalid(SelectorAndNodeNames)
    else if HasSelector(t) then SelectorVerdict(AllowedByPriority(allowed), t, all)
    else if t.nodeNames != [] then NodeNamesVerdict(t, all)
    else GlobalVerdict(t, all)
  }

  // ---------------------------------------------------------------- the documented rules

  /** The last entry for a priority decides which keys it allows. */
  ghost predicate LastEntry(allowed: seq<AllowedKeys>, priority: int, i: int) {
    && 0 <= i < |allowed| && allowed[i].priority == priority
    && forall j :: i < j < |allowed| ==> allowed[j].priority != priority
  }

  /** A selector uses only keys its priority allows and overlaps with no other of that priority. */
  ghost predicate SelectorFits(t: Target, all: seq<Target>, keyList: seq<string>) {
    && t.labelSelector.Parsed? && t.labelSelector.selector.Requirements?
    && (forall r <- t.labelSelector.selector.reqs :: r.key in keyList)
    && forall o <- all :: o.id != t.id && o.labelSelector.Parsed? && o.priority == t.priority ==>
                          !Overlap(t.labelSelector.selector, o.labelSelector.selector, keyList)
  }

  /** A target has a selector or node names but not both. Only node names come with a duration, and
      they always do. No other target lists one of the names, and no two targets are global. */
  ghost predicate ObeysRules(allowed: seq<AllowedKeys>, t: Target, all: seq<Target>) {
    && (t.labelSelector.Unset? || t.nodeNames == [])
    && (t.lastDuration.Some? <==> t.nodeNames != [])
    && (!t.labelSelector.Unset? ==>
          exists i :: LastEntry(allowed, t.priority, i) && SelectorFits(t, all, allowed[i].keyList))
    && (forall o <- all, n <- t.nodeNames :: o.id != t.id ==> n !in o.nodeNames)
    && (t.labelSelector.Unset? && t.nodeNames == [] ==>
          forall o <- all :: o.id != t.id ==> !o.labelSelector.Unset? || o.nodeNames != [])
  }

  lemma {:induction false} AllowedMeaning(allowed: seq<AllowedKeys>, priority: int)
    ensures priority in AllowedByPriority(allowed) <==> exists i :: LastEntry(allowed, priority, i)
    ensures forall i :: LastEntry(allowed, priority, i) ==> AllowedByPriority(allowed)[priority] == allowed[i].keyList
  {
    if allowed == [] {
    } else {
      var init, last := allowed[..|allowed| - 1], |allowed| - 1;
      AllowedMeaning(init, priority);
      if allowed[last].priority == priority {
        assert LastEntry(allowed, priority, last);
      } else {
        forall i ensures LastEntry(allowed, priority, i) <==> LastEntry(init, priority, i) {}
      }
    }
  }

  /** The checks accept exactly the targets that obey the rules. */
  lemma ValidIffRules(allowed: seq<AllowedKeys>, t: Target, all: seq<Target>)
    ensures VerdictOf(allowed, t, all) == Valid <==> ObeysRules(allowed, t, all)
  {
    hide Overlap;
    if HasSelector(t) {
      SelectorValidIffRules(allowed, t, all);
    } else if t.nodeNames != [] {
      if ClashingNodeNames(t, all) != {} {
        var o :| o in all && NodeNamesClash(t, o);
      } else {
        forall o <- all, n <- t.nodeNames | o.id != t.id ensures n !in o.nodeNames {
          assert o.id !in ClashingNodeNames(t, all);
        }
      }
    } else {
      if ClashingGlobals(t, all) != {} {
        var o :| o in all && GlobalsClash(t, o);
      } else {
        forall o <- all | o.id != t.id ensures !IsGlobal(o) { assert o.id !in ClashingGlobals(t, all); }
      }
    }
  }

  lemma SelectorValidIffRules(allowed: seq<AllowedKeys>, t: Target, all: seq<Target>)
    requires HasSelector(t)
    ensures VerdictOf(allowed, t, all) == Valid <==> ObeysRules(allowed, t, all)
  {
    AllowedMeaning(allowed, t.priority);
    hide AllowedByPriority, Overlap;
    var byPriority := AllowedByPriority(allowed);
    if t.priority in byPriority && t.labelSelector.Parsed? && t.labelSelector.selector.Requirements? {
      var keyList := byPriority[t.priority];
      FitsIffNoFinding(t, all, keyList);
      assert |byPriority| > 0;
    }
  }

  lemma FitsIffNoFinding(t: Target, all: seq<Target>, keyList: seq<string>)
    requires t.labelSelector.Parsed? && t.labelSelector.selector.Requirements?
    ensures SelectorFits(t, all, keyList) <==>
            UnlistedKeys(t.labelSelector.selector, keyList) == {} && ClashingSelectors(t, all, keyList) == {}
  {
    hide Overlap;
    var s := t.labelSelector.selector;
    if UnlistedKeys(s, keyList) == {} {
      forall r <- s.reqs ensures r.key in keyList { assert r.key !in UnlistedKeys(s, keyList); }
    }
    if ClashingSelectors(t, all, keyList) == {} {
      forall o <- all | o.id != t.id && o.labelSelector.Parsed? && o.priority == t.priority
        ensures !Overlap(s, o.labelSelector.selector, keyList)
      {
        assert o.id !in ClashingSelectors(t, all, keyList);
      }
    }
  }

  // ---------------------------------------------------------------- the validators

  method GetPriorityAllowedKeyListMap(allowed: seq<AllowedKeys>) returns (m: map<int, seq<string>>)
    ensures m == AllowedByPriority(allowed)
  {
    m := map[];
    for i := 0 to |allowed|
      invariant m == AllowedByPriority(allowed[..i])
    {
      m := m[allowed[i].priority := allowed[i].keyList];
      assert allowed[..i + 1][..i] == allowed[..i];
    }
    assert allowed[..|allowed|] == allowed;
  }

  method ValidateSelectorKeys(s: Selector, keyList: seq<string>) returns (foreign: set<string>)
    requires s.Requirements?
    ensures foreign == UnlistedKeys(s, keyList)
  {
    foreign := {};
    for i := 0 to |s.reqs|
      invariant foreign == set r <- s.reqs[..i] | r.key !in keyList :: r.key
    {
      assert s.reqs[..i + 1] == s.reqs[..i] + [s.reqs[i]];
      if s.reqs[i].key !in keyList { foreign := foreign + {s.reqs[i].key}; }
    }
    assert s.reqs[..|s.reqs|] == s.reqs;
  }

  method ValidateLabelSelectorOverlapped(t: Target, all: seq<Target>, keyList: seq<string>)
    returns (clashes: set<Key>)
    requires t.labelSelector.Parsed?
    ensures clashes == ClashingSelectors(t, all, keyList)
  {
    clashes := {};
    for i := 0 to |all|
      invariant clashes == ClashingSelectors(t, all[..i], keyList)
    {
      var res := all[i];
      assert all[..i + 1] == all[..i] + [res];
      if res.id == t.id || !HasSelector(res) || res.labelSelector.Unparsable? || res.priority != t.priority {
        continue;
      }
      var overlap := CheckLabelSelectorOverlap(t.labelSelector.selector, res.labelSelector.selector, keyList);
      if overlap { clashes := clashes + {res.id}; }
    }
    assert all[..|all|] == all;
  }

  method ValidateNodeNamesOverlapped(t: Target, all: seq<Target>) returns (clashes: set<Key>)
    ensures clashes == ClashingNodeNames(t, all)
  {
    clashes := {};
    for i := 0 to |all|
      invariant clashes == ClashingNodeNames(t, all[..i])
    {
      var res := all[i];
      assert all[..i + 1] == all[..i] + [res];
      if res.id == t.id || res.nodeNames == [] { continue; }
      if |Elements(t.nodeNames) * Elements(res.nodeNames)| > 0 {
        assert exists n :: n in Elements(t.nodeNames) * Elements(res.nodeNames);
        clashes := clashes + {res.id};
      } else {
        assert forall n <- t.nodeNames ::
            n in Elements(t.nodeNames) && n !in Elements(t.nodeNames) * Elements(res.nodeNames);
      }
    }
    assert all[..|all|] == all;
  }

  method ValidateGlobalOverlapped(t: Target, all: seq<Target>) returns (clashes: set<Key>)
    ensures clashes == ClashingGlobals(t, all)
  {
    clashes := {};
    for i := 0 to |all|
      invariant clashes == ClashingGlobals(t, all[..i])
    {
      var res := all[i];
      assert all[..i + 1] == all[..i] + [res];
      if res.id == t.id || res.nodeNames != [] || HasSelector(res) { continue; }
      clashes := clashes + {res.id};
    }
    assert all[..|all|] == all;
  }

  method ValidateTargetResourceGenericSpec(allowed: seq<AllowedKeys>, t: Target, all: seq<Target>)
    returns (verdict: Verdict)
    ensures verdict == VerdictOf(allowed, t, all)
    ensures verdict == Valid <==> ObeysRules(allowed, t, all)
  {
    ValidIffRules(allowed, t, all);
    if HasSelector(t) && t.nodeNames != [] { return Invalid(SelectorAndNodeNames); }
    if HasSelector(t) {
      var byPriority := GetPriorityAllowedKeyListMap(allowed);
      if |byPriority| == 0 { return Invalid(SelectorNotSupported); }
      if t.lastDuration.Some? { return Invalid(SelectorWithDuration); }
      if t.labelSelector.Unparsable? { return Invalid(SelectorUnparsable); }
      if t.priority !in byPriority { return Invalid(PriorityNotSupported); }
      if t.labelSelector.selector.Nothing? { return Invalid(NotSelectable); }
      var foreign := ValidateSelectorKeys(t.labelSelector.selector, byPriority[t.priority]);
      if foreign != {} { return Invalid(ForeignKeys(foreign)); }
      var clashes := ValidateLabelSelectorOverlapped(t, all, byPriority[t.priority]);
      return if clashes != {} then Invalid(SelectorOverlap(clashes)) else Valid;
    } else if t.nodeNames != [] {
      if t.lastDuration.None? { return Invalid(NodeNamesWithoutDuration); }
      var clashes := ValidateNodeNamesOverlapped(t, all);
      return if clashes != {} then Invalid(NodeNamesOverlap(clashes)) else Valid;
    } else {
      if t.lastDuration.Some? { return Invalid(GlobalWithDuration); }
      var clashes := ValidateGlobalOverlapped(t, all);
      return if clashes != {} then Invalid(GlobalOverlap(clashes)) else Valid;
    }
  }

  // ---------------------------------------------------------------- what validity buys

  ghost predicate DistinctIds(all: seq<Target>) {
    forall i, j :: 0 <= i < j < |all| ==> all[i].id != all[j].id
  }

  ghost predicate AllValid(allowed: seq<AllowedKeys>, all: seq<Target>) {
    forall t <- all :: VerdictOf(allowed, t, all) == Valid
  }

  /** The node is named by the target. */
  predicate ClaimsByName(t: Target, node: string) {
    node in t.nodeNames
  }

  /** The node's labels satisfy the target's selector. */
  predicate ClaimsBySelector(t: Target, l: Labels) {
    t.labelSelector.Parsed? && t.labelSelector.selector.Matches(l)
  }

  /** Well formed apart from its relation to other targets. */
  ghost predicate WellFormed(allowed: seq<AllowedKeys>, t: Target) {
    VerdictOf(allowed, t, []) == Valid
  }

  /** The two targets claim one node in one way at one priority. */
  ghost predicate Clash(t: Target, o: Target, node: string, l: Labels) {
    || (ClaimsByName(t, node) && ClaimsByName(o, node))
    || (t.priority == o.priority && ClaimsBySelector(t, l) && ClaimsBySelector(o, l))
    || (IsGlobal(t) && IsGlobal(o))
  }

  /** The targets the verdict blames. */
  function Blamed(v: Verdict): set<Key> {
    if v.Invalid? && v.reason.SelectorOverlap? then v.reason.others
    else if v.Invalid? && v.reason.NodeNamesOverlap? then v.reason.others
    else if v.Invalid? && v.reason.GlobalOverlap? then v.reason.others
    else {}
  }

  /** Of two well-formed targets that clash, each is rejected and names the other. */
  lemma ClashBlamesBoth(allowed: seq<AllowedKeys>, all: seq<Target>, t: Target, o: Target, node: string, l: Labels)
    requires t in all && o in all && t.id != o.id
    requires WellFormed(allowed, t) && WellFormed(allowed, o) && Clash(t, o, node, l)
    ensures o.id in Blamed(VerdictOf(allowed, t, all))
    ensures t.id in Blamed(VerdictOf(allowed, o, all))
  {
    ClashBlames(allowed, all, t, o, node, l);
    ClashBlames(allowed, all, o, t, node, l);
  }

  lemma ClashBlames(allowed: seq<AllowedKeys>, all: seq<Target>, t: Target, o: Target, node: string, l: Labels)
    requires t in all && o in all && t.id != o.id
    requires WellFormed(allowed, t) && Clash(t, o, node, l)
    ensures o.id in Blamed(VerdictOf(allowed, t, all))
  {
    if ClaimsByName(t, node) && ClaimsByName(o, node) {
      assert NodeNamesClash(t, o);
    } else if IsGlobal(t) && IsGlobal(o) {
      assert GlobalsClash(t, o);
    } else {
      var keyList := AllowedByPriority(allowed)[t.priority];
      OverlapSound(t.labelSelector.selector, o.labelSelector.selector, keyList, l);
      assert SelectorsClash(t, o, keyList);
    }
  }

  lemma ValidIsWellFormed(allowed: seq<AllowedKeys>, t: Target, all: seq<Target>)
    requires VerdictOf(allowed, t, all) == Valid
    ensures WellFormed(allowed, t)
  {
  }

  /** No two valid targets compete for a node: not by name, not by selector at one priority,
      and not as global targets. */
  lemma ValidTargetsDisjoint(allowed: seq<AllowedKeys>, all: seq<Target>, t: Target, o: Target,
                             node: string, l: Labels)
    requires AllValid(allowed, all) && t in all && o in all && t.id != o.id
    ensures !(ClaimsByName(t, node) && ClaimsByName(o, node))
    ensures t.priority == o.priority ==> !(ClaimsBySelector(t, l) && ClaimsBySelector(o, l))
    ensures !(IsGlobal(t) && IsGlobal(o))
  {
    ValidIsWellFormed(allowed, t, all);
    if Clash(t, o, node, l) { ClashBlames(allowed, all, t, o, node, l); }
  }
}
