/** Which pods of a service are baseline pods (pkg/controller/spd/spd_baseline.go, lines 76-132, and
    pkg/util/spd_baseline.go, lines 68-126), with the default comparison by creation time and name. */
module SpdBaseline {
  import opened Keys
  import opened Sorting
  import opened Scaling

  datatype Result<T> = Ok(value: T) | Err

  datatype PodMeta = PodMeta(time: int, name: string)

  const PERCENT_MIN := 0
  const PERCENT_MAX := 100

  // ---------------------------------------------------------------- comparing pods

  function Cmp(a: PodMeta, b: PodMeta): int {
    if a.time < b.time then -1
    else if a.time > b.time then 1
    else if StrLess(a.name, b.name) then -1
    else if StrLess(b.name, a.name) then 1
    else 0
  }

  /** Created earlier, or at the same time with the smaller name. */
  predicate Older(a: PodMeta, b: PodMeta) {
    a.time < b.time || (a.time == b.time && StrLess(a.name, b.name))
  }

  /** The comparison puts the older pod first. */
  lemma CmpMeaning(a: PodMeta, b: PodMeta)
    ensures Cmp(a, b) < 0 <==> a.time < b.time || (a.time == b.time && StrLess(a.name, b.name))
    ensures Cmp(a, b) > 0 <==> b.time < a.time || (a.time == b.time && StrLess(b.name, a.name))
  {
    if StrLess(a.name, b.name) && StrLess(b.name, a.name) {
      StrTransitive(a.name, b.name, a.name);
      StrIrreflexive(a.name);
    }
  }

  /** Zero exactly on equal pods, antisymmetric, and transitive: a total order. */
  lemma CmpTotalOrder(a: PodMeta, b: PodMeta, c: PodMeta)
    ensures Cmp(a, b) == 0 <==> a == b
    ensures Cmp(a, b) == -Cmp(b, a)
    ensures Cmp(a, b) <= 0 && Cmp(b, c) <= 0 ==> Cmp(a, c) <= 0
  {
    hide StrLess;
    StrTotal(a.name, b.name);
    StrTotal(b.name, c.name);
    StrIrreflexive(a.name);
    if StrLess(a.name, b.name) && StrLess(b.name, a.name) { StrTransitive(a.name, b.name, a.name); }
    if StrLess(a.name, b.name) && StrLess(b.name, c.name) {
      StrTransitive(a.name, b.name, c.name);
      if StrLess(c.name, a.name) { StrTransitive(a.name, c.name, a.name); }
    }
  }

  function ByCmp(): (PodMeta, PodMeta) -> bool {
    (a: PodMeta, b: PodMeta) => Cmp(a, b) < 0
  }

  lemma ByCmpIsOrder()
    ensures StrictWeakOrder(ByCmp())
  {
    forall a, b | ByCmp()(a, b) ensures !ByCmp()(b, a) { CmpTotalOrder(a, b, a); }
    forall a, b, c | !ByCmp()(a, b) && !ByCmp()(b, c) ensures !ByCmp()(a, c) {
      CmpTotalOrder(b, a, a);
      CmpTotalOrder(c, b, a);
      CmpTotalOrder(c, a, a);
    }
  }

  // ---------------------------------------------------------------- the sentinel

  datatype Pod = Pod(meta: PodMeta, active: bool)

  function Metas(pods: seq<Pod>): seq<PodMeta> {
    if pods == [] then []
    else Metas(pods[..|pods| - 1]) + if pods[|pods| - 1].active then [pods[|pods| - 1].meta] else []
  }

  lemma {:induction false} MetasMeaning(pods: seq<Pod>)
    ensures forall m :: m in Metas(pods) <==> exists p <- pods :: p.active && p.meta == m
  {
    if pods == [] {
    } else {
      MetasMeaning(pods[..|pods| - 1]);
      assert pods == pods[..|pods| - 1] + [pods[|pods| - 1]];
    }
  }

  /** The active pods in order. */
  method GetSPDPodMetaList(pods: seq<Pod>) returns (list: seq<PodMeta>)
    ensures list == StableSort(Metas(pods), ByCmp())
    ensures multiset(list) == multiset(Metas(pods))
    ensures forall m :: m in list <==> exists p <- pods :: p.active && p.meta == m
    ensures forall i, j :: 0 <= i < j < |list| ==> !Older(list[j], list[i])
  {
    MetasMeaning(pods);
    SortedByAge(Metas(pods));
    var metas := [];
    for i := 0 to |pods|
      invariant metas == Metas(pods[..i])
    {
      assert pods[..i + 1][..i] == pods[..i];
      if pods[i].active { metas := metas + [pods[i].meta]; }
    }
    assert pods[..|pods|] == pods;
    list := StableSort(metas, ByCmp());
  }

  /** The position of the sentinel among `n` sorted pods. */
  function BaselineIndex(n: nat, percent: int): int {
    (n - 1) * percent / 100
  }

  lemma BaselineIndexBounds(n: nat, percent: int)
    requires n > 0 && PERCENT_MIN < percent < PERCENT_MAX
    ensures 0 <= BaselineIndex(n, percent) < n
    ensures n >= 2 ==> BaselineIndex(n, percent) < n - 1
  {
    var m := n - 1;
    assert m * percent == 100 * (m * percent / 100) + m * percent % 100;
    if m > 0 { assert m * percent < m * 100; }
  }

  lemma BaselineIndexMonotone(n: nat, n': nat, percent: int, percent': int)
    requires 0 < n <= n' && PERCENT_MIN < percent <= percent'
    ensures BaselineIndex(n, percent) <= BaselineIndex(n', percent')
  {
    ProductMonotone(n - 1, n' - 1, percent);
    ProductMonotone(percent, percent', n' - 1);
    HundredthMonotone((n - 1) * percent, (n' - 1) * percent');
  }

  lemma HundredthMonotone(x: int, y: int)
    requires x <= y
    ensures x / 100 <= y / 100
  {
  }

  function CalculateBaselineSentinel(list: seq<PodMeta>, percent: Option<int>): Option<PodMeta> {
    if percent.None? || percent.value >= PERCENT_MAX || percent.value <= PERCENT_MIN then None
    else if list == [] then None
    else
      BaselineIndexBounds(|list|, percent.value);
      Some(list[BaselineIndex(|list|, percent.value)])
  }

  function IsBaselinePod(pod: PodMeta, percent: Option<int>, sentinel: Option<PodMeta>): Result<bool> {
    if percent.None? then Ok(false)
    else if percent.value >= PERCENT_MAX then Ok(true)
    else if percent.value <= PERCENT_MIN then Ok(false)
    else if sentinel.None? then Err
    else Ok(Cmp(pod, sentinel.value) <= 0)
  }

  // ---------------------------------------------------------------- who is baseline

  /** The pod tests as baseline against the sentinel of the active pods `metas`. */
  predicate Baseline(metas: seq<PodMeta>, percent: int, pod: PodMeta) {
    IsBaselinePod(pod, Some(percent), CalculateBaselineSentinel(StableSort(metas, ByCmp()), Some(percent))) == Ok(true)
  }

  function BaselineIn(metas: seq<PodMeta>, percent: int): PodMeta -> bool {
    (pod: PodMeta) => Baseline(metas, percent, pod)
  }

  lemma SortedLength(metas: seq<PodMeta>)
    ensures |StableSort(metas, ByCmp())| == |metas|
    ensures SortedBy(StableSort(metas, ByCmp()), ByCmp())
  {
    ByCmpIsOrder();
    StableSortSorted(metas, ByCmp());
    PermutationEntries(metas, StableSort(metas, ByCmp()));
  }

  lemma SortedInOrder(list: seq<PodMeta>, i: nat, j: nat)
    requires SortedBy(list, ByCmp()) && i <= j < |list|
    ensures Cmp(list[i], list[j]) <= 0
  {
    CmpTotalOrder(list[i], list[j], list[i]);
    if i < j { assert !ByCmp()(list[j], list[i]); }
  }

  lemma SortedByAge(metas: seq<PodMeta>)
    ensures
      var list := StableSort(metas, ByCmp());
      && multiset(list) == multiset(metas)
      && (forall m :: m in list <==> m in metas)
      && forall i, j :: 0 <= i < j < |list| ==> !Older(list[j], list[i])
  {
    var list := StableSort(metas, ByCmp());
    SortedLength(metas);
    PermutationEntries(metas, list);
    forall i, j | 0 <= i < j < |list| ensures !Older(list[j], list[i]) {
      assert !ByCmp()(list[j], list[i]);
      CmpMeaning(list[j], list[i]);
    }
    forall m ensures m in list <==> m in metas { assert m in multiset(list) <==> m in multiset(metas); }
  }

  function OlderThan(pod: PodMeta): PodMeta -> bool {
    (m: PodMeta) => Older(m, pod)
  }

  /** In a list by age the pods older than a given one come first. */
  lemma {:induction false} OlderPrefix(list: seq<PodMeta>, pod: PodMeta) returns (k: nat)
    requires SortedBy(list, ByCmp())
    ensures k <= |list| && forall i :: 0 <= i < |list| ==> (Older(list[i], pod) <==> i < k)
  {
    if list == [] {
      k := 0;
    } else {
      var n := |list| - 1;
      k := OlderPrefix(list[..n], pod);
      if Older(list[n], pod) {
        forall i | 0 <= i < n ensures Older(list[i], pod) {
          SortedInOrder(list, i, n);
          CmpMeaning(list[n], pod);
          CmpMeaning(pod, list[i]);
          CmpMeaning(list[i], pod);
          CmpTotalOrder(list[i], list[n], pod);
          CmpTotalOrder(pod, list[i], list[n]);
          CmpTotalOrder(pod, list[n], pod);
        }
        k := n + 1;
      }
    }
  }

  /** A pod is baseline exactly if at most `(n - 1) * percent / 100` of the `n` active pods are older. */
  lemma BaselineIffFewOlder(metas: seq<PodMeta>, percent: int, pod: PodMeta)
    requires metas != [] && 0 < percent < 100
    ensures Baseline(metas, percent, pod) <==> |Filter(metas, OlderThan(pod))| <= (|metas| - 1) * percent / 100
  {
    var list, k := StableSort(metas, ByCmp()), BaselineIndex(|metas|, percent);
    SortedLength(metas);
    BaselineIndexBounds(|metas|, percent);
    var older := OlderPrefix(list, pod);
    FilterPrefix(list, OlderThan(pod), older);
    FilterPermutation(metas, list, OlderThan(pod));
    CmpMeaning(pod, list[k]);
    CmpMeaning(list[k], pod);
    CmpTotalOrder(pod, list[k], pod);
  }

  /** Among distinct pods in order, the baseline pods are those up to the sentinel. */
  lemma BaselineByPosition(metas: seq<PodMeta>, percent: int, i: nat)
    requires Distinct(metas) && i < |metas| && PERCENT_MIN < percent < PERCENT_MAX
    ensures |StableSort(metas, ByCmp())| == |metas|
    ensures Baseline(metas, percent, StableSort(metas, ByCmp())[i]) <==> i <= (|metas| - 1) * percent / 100
  {
    var list, k := StableSort(metas, ByCmp()), BaselineIndex(|metas|, percent);
    SortedLength(metas);
    BaselineIndexBounds(|metas|, percent);
    if i <= k {
      SortedInOrder(list, i, k);
    } else {
      SortedInOrder(list, k, i);
      CmpTotalOrder(list[k], list[i], list[k]);
      DistinctSorted(metas, list);
    }
  }

  lemma DistinctSorted(metas: seq<PodMeta>, list: seq<PodMeta>)
    requires Distinct(metas) && multiset(list) == multiset(metas)
    ensures Distinct(list)
  {
    forall i, j | 0 <= i < j < |list| ensures list[i] != list[j] {
      if list[i] == list[j] {
        assert list == list[..j] + list[j..];
        assert list[i] in list[..j] && list[i] in list[j..];
        assert multiset(list)[list[i]] >= 2;
        DistinctMultiplicity(metas, list[i]);
      }
    }
  }

  lemma {:induction false} FilterMultiset<T>(xs: seq<T>, keep: T -> bool, x: T)
    ensures multiset(Filter(xs, keep))[x] == if keep(x) then multiset(xs)[x] else 0
  {
    if xs == [] {
    } else {
      FilterMultiset(xs[..|xs| - 1], keep, x);
      assert xs == xs[..|xs| - 1] + [xs[|xs| - 1]];
    }
  }

  lemma FilterPermutation<T(!new)>(xs: seq<T>, ys: seq<T>, keep: T -> bool)
    requires multiset(xs) == multiset(ys)
    ensures |Filter(xs, keep)| == |Filter(ys, keep)|
  {
    var a, b := multiset(Filter(xs, keep)), multiset(Filter(ys, keep));
    forall x ensures a[x] == b[x] {
      FilterMultiset(xs, keep, x);
      FilterMultiset(ys, keep, x);
    }
    assert a == b;
    assert |a| == |b|;
  }

  lemma {:induction false} FilterPrefix<T>(xs: seq<T>, keep: T -> bool, k: nat)
    requires k <= |xs| && forall i :: 0 <= i < |xs| ==> (keep(xs[i]) <==> i < k)
    ensures Filter(xs, keep) == xs[..k]
  {
    if xs == [] {
    } else {
      var init := xs[..|xs| - 1];
      FilterPrefix(init, keep, if k <= |init| then k else |init|);
    }
  }

  /** Of `n` distinct active pods exactly `(n - 1) * p / 100 + 1` are baseline: at least one, and not
      all of two or more. */
  lemma BaselineCount(metas: seq<PodMeta>, percent: int)
    requires Distinct(metas) && metas != [] && PERCENT_MIN < percent < PERCENT_MAX
    ensures
      var count := |Filter(metas, BaselineIn(metas, percent))|;
      && count == (|metas| - 1) * percent / 100 + 1
      && 1 <= count && (|metas| >= 2 ==> count < |metas|)
  {
    var list, k, keep := StableSort(metas, ByCmp()), BaselineIndex(|metas|, percent), BaselineIn(metas, percent);
    BaselineIndexBounds(|metas|, percent);
    SortedLength(metas);
    forall i | 0 <= i < |list| ensures keep(list[i]) <==> i < k + 1 { BaselineByPosition(metas, percent, i); }
    FilterPrefix(list, keep, k + 1);
    FilterPermutation(metas, list, keep);
  }

  /** Raising the percentage never drops a baseline pod. */
  lemma BaselineGrowsWithPercent(metas: seq<PodMeta>, percent: int, percent': int, pod: PodMeta)
    requires percent <= percent' && Baseline(metas, percent, pod)
    ensures Baseline(metas, percent', pod)
  {
    if PERCENT_MIN < percent && percent' < PERCENT_MAX {
      var list := StableSort(metas, ByCmp());
      SortedLength(metas);
      var k, k' := BaselineIndex(|metas|, percent), BaselineIndex(|metas|, percent');
      BaselineIndexBounds(|metas|, percent);
      BaselineIndexBounds(|metas|, percent');
      BaselineIndexMonotone(|metas|, |metas|, percent, percent');
      SortedInOrder(list, k, k');
      CmpTotalOrder(pod, list[k], list[k']);
    }
  }

  lemma Associative<T>(a: seq<T>, b: seq<T>, c: seq<T>)
    ensures (a + b) + c == a + (b + c)
  {
  }

  lemma {:induction false} InsertBehind<T>(a: seq<T>, b: seq<T>, x: T, less: (T, T) -> bool)
    requires forall i :: 0 <= i < |a| ==> !less(x, a[i])
    ensures Insert(a + b, x, less) == a + Insert(b, x, less)
  {
    if b == [] {
      assert a + b == a;
    } else {
      var init, last := b[..|b| - 1], b[|b| - 1];
      assert (a + b)[..|a + b| - 1] == a + init && (a + b)[|a + b| - 1] == last;
      if less(x, last) {
        InsertBehind(a, init, x, less);
        Associative(a, Insert(init, x, less), [last]);
      } else {
        Associative(a, b, [x]);
      }
    }
  }

  /** Entries that come after all others are sorted behind them. */
  lemma {:induction false} SortBehind<T>(xs: seq<T>, later: seq<T>, less: (T, T) -> bool)
    requires forall i, j :: 0 <= i < |xs| && 0 <= j < |later| ==> !less(later[j], xs[i])
    ensures StableSort(xs + later, less) == StableSort(xs, less) + StableSort(later, less)
  {
    if later == [] {
      assert xs + later == xs;
    } else {
      var init, x := later[..|later| - 1], later[|later| - 1];
      assert (xs + later)[..|xs + later| - 1] == xs + init && (xs + later)[|xs + later| - 1] == x;
      SortBehind(xs, init, less);
      hide Insert;
      var sorted := StableSort(xs, less);
      forall i | 0 <= i < |sorted| ensures !less(x, sorted[i]) {
        assert sorted[i] in multiset(xs);
      }
      InsertBehind(sorted, StableSort(init, less), x, less);
    }
  }

  /** Pods that come later in the order never drop a baseline pod. */
  lemma BaselineGrowsWithLaterPods(metas: seq<PodMeta>, later: seq<PodMeta>, percent: int, pod: PodMeta)
    requires forall i, j :: 0 <= i < |metas| && 0 <= j < |later| ==> Cmp(metas[i], later[j]) <= 0
    requires Baseline(metas, percent, pod)
    ensures Baseline(metas + later, percent, pod)
  {
    if PERCENT_MIN < percent < PERCENT_MAX {
      SortedLength(metas);
      SortedLength(metas + later);
      forall i, j | 0 <= i < |metas| && 0 <= j < |later| ensures !ByCmp()(later[j], metas[i]) {
        CmpTotalOrder(metas[i], later[j], metas[i]);
      }
      SortBehind(metas, later, ByCmp());
      hide StableSort, Cmp, ByCmp;
      SentinelMovesOn(StableSort(metas, ByCmp()), StableSort(metas + later, ByCmp()), percent, pod);
    }
  }

  /** A longer list has its sentinel no earlier. */
  lemma SentinelMovesOn(list: seq<PodMeta>, list': seq<PodMeta>, percent: int, pod: PodMeta)
    requires list <= list' && SortedBy(list', ByCmp()) && PERCENT_MIN < percent < PERCENT_MAX
    requires IsBaselinePod(pod, Some(percent), CalculateBaselineSentinel(list, Some(percent))) == Ok(true)
    ensures IsBaselinePod(pod, Some(percent), CalculateBaselineSentinel(list', Some(percent))) == Ok(true)
  {
    var k, k' := BaselineIndex(|list|, percent), BaselineIndex(|list'|, percent);
    BaselineIndexBounds(|list|, percent);
    BaselineIndexBounds(|list'|, percent);
    BaselineIndexMonotone(|list|, |list'|, percent, percent);
    SortedInOrder(list', k, k');
    CmpTotalOrder(pod, list[k], list'[k']);
  }

  /** The test fails with an error exactly when a sentinel is needed but there is no active pod. */
  lemma ErrorIffNoSentinel(metas: seq<PodMeta>, percent: Option<int>, pod: PodMeta)
    ensures IsBaselinePod(pod, percent, CalculateBaselineSentinel(StableSort(metas, ByCmp()), percent)) == Err
            <==> metas == [] && percent.Some? && PERCENT_MIN < percent.value < PERCENT_MAX
  {
    SortedLength(metas);
  }

  /** Whether a pod is a baseline pod of a service with these pods: disabled without a percentage or
      with one of at most zero, every pod from a hundred on, an error without active pods, and
      otherwise decided by how many active pods are older. */
  method DecideBaseline(pods: seq<Pod>, percent: Option<int>, pod: PodMeta) returns (r: Result<bool>)
    ensures percent.None? || percent.value <= 0 ==> r == Ok(false)
    ensures percent.Some? && percent.value >= 100 ==> r == Ok(true)
    ensures percent.Some? && 0 < percent.value < 100 ==>
              if forall p <- pods :: !p.active then r == Err
              else
                var metas := Metas(pods);
                r == Ok(|Filter(metas, OlderThan(pod))| <= (|metas| - 1) * percent.value / 100)
  {
    var list := GetSPDPodMetaList(pods);
    var sentinel := CalculateBaselineSentinel(list, percent);
    r := IsBaselinePod(pod, percent, sentinel);
    MetasMeaning(pods);
    SortedLength(Metas(pods));
    assert Metas(pods) == [] <==> forall p <- pods :: !p.active by {
      if Metas(pods) != [] { assert Metas(pods)[0] in Metas(pods); }
      if p :| p in pods && p.active { assert p.meta in Metas(pods); }
    }
    if percent.Some? && 0 < percent.value < 100 && Metas(pods) != [] {
      BaselineIffFewOlder(Metas(pods), percent.value, pod);
    }
  }
}
