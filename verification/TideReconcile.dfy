/** One reconcile of a tide node pool (pkg/controller/tide/tide.go, lines 334-412 and 465-487): trim
    the reserves to their quotas, then give every unclassified node a role. */
module TideReconcile {
  import opened Keys
  import opened Sorting
  import opened Selectors
  import opened Scaling
  import opened TidePool
  import opened TideRuns

  // ---------------------------------------------------------------- counting roles

  /** The nodes the pool's selector picks that have a role. */
  ghost function RoleSet(pool: Pool, nodes: Nodes, role: Role): set<string> {
    set n | n in nodes && MatchesSet(pool.selector, nodes[n].labels) && RoleOf(pool, nodes[n].labels) == role
  }

  ghost function Count(pool: Pool, nodes: Nodes, role: Role): nat {
    |RoleSet(pool, nodes, role)|
  }

  /** How many selected nodes have each role. */
  datatype Tally = Tally(online: nat, offline: nat, tide: nat, unknown: nat, other: nat)

  ghost function TallyOf(pool: Pool, nodes: Nodes): Tally {
    Tally(Count(pool, nodes, OnlineReserve), Count(pool, nodes, OfflineReserve), Count(pool, nodes, Tide),
          Count(pool, nodes, Unknown), Count(pool, nodes, Other))
  }

  function RoleCount(t: Tally, role: Role): nat {
    match role
    case OnlineReserve => t.online
    case OfflineReserve => t.offline
    case Tide => t.tide
    case Unknown => t.unknown
    case Other => t.other
  }

  function WithRole(t: Tally, role: Role, n: nat): Tally {
    match role
    case OnlineReserve => t.(online := n)
    case OfflineReserve => t.(offline := n)
    case Tide => t.(tide := n)
    case Unknown => t.(unknown := n)
    case Other => t.(other := n)
  }

  /** One node changed its role. */
  function Moved(t: Tally, from: Role, to: Role): Tally
    requires RoleCount(t, from) > 0
  {
    var t' := WithRole(t, from, RoleCount(t, from) - 1);
    WithRole(t', to, RoleCount(t', to) + 1)
  }

  lemma RoleSetWrite(pool: Pool, nodes: Nodes, n: string, after: Node, role: Role)
    requires pool.SelectsByOthers() && n in nodes && MatchesSet(pool.selector, nodes[n].labels)
    requires SameForeignLabels(pool, nodes[n].labels, after.labels)
    ensures RoleSet(pool, nodes[n := after], role) ==
            if RoleOf(pool, after.labels) == role then RoleSet(pool, nodes, role) + {n}
              else RoleSet(pool, nodes, role) - {n}
  {
    SelectionUnchanged(pool, nodes[n].labels, after.labels);
  }

  /** Writing a node that keeps its foreign labels moves it from its old role to its new one. */
  lemma CountWrite(pool: Pool, nodes: Nodes, n: string, after: Node, role: Role)
    requires pool.SelectsByOthers() && n in nodes && MatchesSet(pool.selector, nodes[n].labels)
    requires SameForeignLabels(pool, nodes[n].labels, after.labels)
    ensures
      var was, now := RoleOf(pool, nodes[n].labels), RoleOf(pool, after.labels);
      && (was != now && role == was ==>
        Count(pool, nodes, role) > 0 && Count(pool, nodes[n := after], role) == Count(pool, nodes, role) - 1)
      && (was != now && role == now ==> Count(pool, nodes[n := after], role) == Count(pool, nodes, role) + 1)
      && (role != was && role != now ==> Count(pool, nodes[n := after], role) == Count(pool, nodes, role))
  {
    RoleSetWrite(pool, nodes, n, after, role);
    hide RoleOf;
    var was, now := RoleOf(pool, nodes[n].labels), RoleOf(pool, after.labels);
    var s, s' := RoleSet(pool, nodes, role), RoleSet(pool, nodes[n := after], role);
    assert n in s <==> role == was;
    if role == was && was != now {
      assert s == s' + {n};
    } else if role != was && role != now {
      assert s' == s;
    }
  }

  lemma TallyWrite(pool: Pool, nodes: Nodes, n: string, after: Node)
    requires pool.SelectsByOthers() && n in nodes && MatchesSet(pool.selector, nodes[n].labels)
    requires SameForeignLabels(pool, nodes[n].labels, after.labels)
    requires RoleOf(pool, nodes[n].labels) != RoleOf(pool, after.labels)
    ensures RoleCount(TallyOf(pool, nodes), RoleOf(pool, nodes[n].labels)) > 0
    ensures TallyOf(pool, nodes[n := after]) ==
            Moved(TallyOf(pool, nodes), RoleOf(pool, nodes[n].labels), RoleOf(pool, after.labels))
  {
    hide RoleOf, Count;
    CountWrite(pool, nodes, n, after, OnlineReserve);
    CountWrite(pool, nodes, n, after, OfflineReserve);
    CountWrite(pool, nodes, n, after, Tide);
    CountWrite(pool, nodes, n, after, Unknown);
    CountWrite(pool, nodes, n, after, Other);
  }

  // ---------------------------------------------------------------- what a pass does to the counts

  /** How many of `have` reserves a quota keeps. */
  function Keep(have: nat, quota: int): nat {
    if have <= quota then have else if quota < 0 then 0 else quota
  }

  /** How many of `avail` nodes go to a role that has `have` of `quota`. */
  function Fill(have: nat, quota: int, avail: nat): nat {
    if have >= quota then 0 else if quota - have <= avail then quota - have else avail
  }

  function Trimmed(t: Tally, role: Role, quota: int): Tally
    requires role == OnlineReserve || role == OfflineReserve
  {
    var keep := Keep(RoleCount(t, role), quota);
    WithRole(t, role, keep).(tide := t.tide + (RoleCount(t, role) - keep))
  }

  /** The first `n` unknown nodes have been placed. */
  function Placed(t: Tally, online: int, offline: int, n: nat): Tally
    requires n <= t.unknown
  {
    var toOnline := Fill(t.online, online, n);
    var toOffline := Fill(t.offline, offline, n - toOnline);
    Tally(t.online + toOnline, t.offline + toOffline, t.tide + (n - toOnline - toOffline), t.unknown - n, t.other)
  }

  /** The role the next unclassified node gets. */
  function NextRole(haveOnline: nat, haveOffline: nat, online: int, offline: int): Role {
    if haveOnline < online then OnlineReserve else if haveOffline < offline then OfflineReserve else Tide
  }

  lemma PlacedStep(t: Tally, online: int, offline: int, i: nat)
    requires i < t.unknown
    ensures
      var now := Placed(t, online, offline, i);
      Placed(t, online, offline, i + 1) == Moved(now, Unknown, NextRole(now.online, now.offline, online, offline))
  {
  }

  function Reconciled(t: Tally, online: int, offline: int): Tally {
    Placed(Trimmed(Trimmed(t, OnlineReserve, online), OfflineReserve, offline), online, offline, t.unknown)
  }

  /** Nothing is left to do: every selected node has a role and no reserve exceeds its quota. */
  predicate Settled(t: Tally, online: int, offline: int) {
    t.unknown == 0 && t.online == Keep(t.online, online) && t.offline == Keep(t.offline, offline)
  }

  function Max(a: int, b: int): int {
    if a >= b then a else b
  }

  /** A pass classifies every node, keeps both reserves within their quotas, loses no pool node, and
      is a fixed point. */
  lemma ReconciledMeaning(t: Tally, online: int, offline: int)
    ensures
      var r := Reconciled(t, online, offline);
      && r.unknown == 0
      && r.online <= Max(online, 0) && r.offline <= Max(offline, 0)
      && r.online + r.offline + r.tide == t.online + t.offline + t.tide + t.unknown
      && r.other == t.other
      && (r.online < online ==> r.offline == Keep(t.offline, offline) && r.online == t.online + t.unknown)
      && Settled(r, online, offline) && Reconciled(r, online, offline) == r
  {
  }

  function Min(a: int, b: int): int {
    if a <= b then a else b
  }

  /** The counts after a pass: each reserve up to its quota, online first, and the rest tide nodes. */
  lemma ReconciledCounts(t: Tally, online: int, offline: int)
    ensures
      var r := Reconciled(t, online, offline);
      var left := t.unknown - (r.online - Min(t.online, Max(online, 0)));
      && r.online == Min(Max(online, 0), t.online + t.unknown)
      && r.offline == Min(Max(offline, 0), t.offline + left)
      && r.tide == t.online + t.offline + t.tide + t.unknown - r.online - r.offline
      && r.unknown == 0 && r.other == t.other
  {
  }

  /** The share of online reserves rounded up, that of offline reserves rounded down, the rest tide. */
  function FreshTallyOf(online: nat, offline: nat, n: nat): Tally
    requires online + offline <= 100
  {
    SharesFit(online, offline, n);
    ProductMonotone(0, online, n);
    ProductMonotone(0, offline, n);
    var qOnline, qOffline := CeilDiv(online * n, 100), offline * n / 100;
    Tally(qOnline, qOffline, n - qOnline - qOffline, 0, 0)
  }

  /** The least number that is at least the online share and the greatest that is at most the offline
      share. */
  lemma FreshRounded(online: nat, offline: nat, n: nat)
    requires online + offline <= 100
    ensures
      var r := FreshTallyOf(online, offline, n);
      && 100 * (r.online - 1) < online * n <= 100 * r.online
      && 100 * r.offline <= offline * n < 100 * (r.offline + 1)
      && r.online + r.offline + r.tide == n
  {
    SharesRounded(online, n);
    SharesRounded(offline, n);
  }

  /** When every selected node is new and the quotas are percentages of at most 100 in all, both
      quotas are met exactly. */
  lemma FreshPoolMeetsQuotas(online: nat, offline: nat, n: nat)
    requires online + offline <= 100
    ensures
      var qOnline, qOffline := Scaled(Percent(online), n, true), Scaled(Percent(offline), n, false);
      && qOnline.Some? && qOffline.Some?
      && Reconciled(Tally(0, 0, 0, n, 0), qOnline.value, qOffline.value) == FreshTallyOf(online, offline, n)
      && FreshTallyOf(online, offline, n).online == qOnline.value
      && FreshTallyOf(online, offline, n).offline == qOffline.value
  {
    SharesFit(online, offline, n);
    ProductMonotone(0, online, n);
    ProductMonotone(0, offline, n);
  }

  // ---------------------------------------------------------------- the pass

  /** The writes after `from` were made by the pool while doing `op`. */
  ghost predicate WrittenBy(from: seq<Write>, log: seq<Write>, pool: Pool, op: Op) {
    from <= log && forall i :: |from| <= i < |log| ==> log[i].pool == pool && log[i].op == op
  }

  /** The selector picks the same nodes. */
  ghost predicate SameSelection(pool: Pool, a: Nodes, b: Nodes) {
    && a.Keys == b.Keys
    && forall n <- a :: MatchesSet(pool.selector, a[n].labels) <==> MatchesSet(pool.selector, b[n].labels)
  }

  lemma SelectionKept(pool: Pool, nodes: Nodes, n: string, after: Node)
    requires pool.SelectsByOthers() && n in nodes && SameForeignLabels(pool, nodes[n].labels, after.labels)
    ensures SameSelection(pool, nodes, nodes) && SameSelection(pool, nodes, nodes[n := after])
  {
    SelectionUnchanged(pool, nodes[n].labels, after.labels);
  }

  lemma SelectionTransitive(pool: Pool, a: Nodes, b: Nodes, c: Nodes)
    requires SameSelection(pool, a, b) && SameSelection(pool, b, c)
    ensures SameSelection(pool, a, c)
  {
  }

  lemma SelectionReflexive(pool: Pool, a: Nodes)
    ensures SameSelection(pool, a, a)
  {
  }

  lemma ListingKept(pool: Pool, a: Nodes, b: Nodes, listing: seq<string>)
    requires Listing(pool, a, listing) && SameSelection(pool, a, b)
    ensures Listing(pool, b, listing)
  {
  }

  /** All listed nodes exist, are selected and have the role. */
  ghost predicate AllHave(pool: Pool, nodes: Nodes, names: seq<string>, role: Role) {
    forall i :: 0 <= i < |names| ==>
      names[i] in nodes && MatchesSet(pool.selector, nodes[names[i]].labels)
        && RoleOf(pool, nodes[names[i]].labels) == role
  }

  /** The node store the controller works on. The ghost log keeps every accepted write. */
  class Cluster {
    var nodes: Nodes
    ghost const initial: Nodes
    ghost var log: seq<Write>

    /** The nodes are the result of permitted writes. */
    ghost predicate Valid()
      reads this
    {
      RunPermitted(initial, log) && nodes == Run(initial, log)
    }

    constructor (nodes: Nodes)
      ensures Valid() && this.nodes == nodes && log == []
    {
      this.nodes, initial, log := nodes, nodes, [];
    }

    /** Write a node; the API server accepts the write or not. */
    method Update(pool: Pool, ghost op: Op, n: string, after: Node, accepted: bool)
      requires Valid() && Permitted(nodes, Write(pool, op, n, after))
      modifies this
      ensures Valid() && WrittenBy(old(log), log, pool, op)
      ensures nodes == if accepted then old(nodes)[n := after] else old(nodes)
      ensures log == if accepted then old(log) + [Write(pool, op, n, after)] else old(log)
    {
      if accepted {
        RunAppend(initial, log, Write(pool, op, n, after));
        nodes := nodes[n := after];
        log := log + [Write(pool, op, n, after)];
      }
    }

    /** Give one selected node a new role. */
    method SetRole(pool: Pool, n: string, after: Labels, accepted: bool)
      requires Valid() && pool.KeysApart() && pool.SelectsByOthers() && n in nodes
               && MatchesSet(pool.selector, nodes[n].labels)
      requires Reconciles(pool, nodes[n], nodes[n].(labels := after))
      modifies this
      ensures Valid() && WrittenBy(old(log), log, pool, Reconciling)
      ensures SameSelection(pool, old(nodes), nodes)
      ensures !accepted ==> nodes == old(nodes) && log == old(log)
      ensures accepted ==> nodes == old(nodes)[n := old(nodes)[n].(labels := after)]
      ensures accepted ==> RoleCount(TallyOf(pool, old(nodes)), RoleOf(pool, old(nodes)[n].labels)) > 0
      ensures accepted ==>
                TallyOf(pool, nodes) == Moved(TallyOf(pool, old(nodes)), RoleOf(pool, old(nodes)[n].labels),
                  RoleOf(pool, after))
    {
      SettersMeaning(pool, nodes[n].labels);
      TallyWrite(pool, nodes, n, nodes[n].(labels := after));
      SelectionKept(pool, nodes, n, nodes[n].(labels := after));
      hide RoleOf, TallyOf, RunPermitted, Run, SameSelection, MatchesSet;
      Update(pool, Reconciling, n, nodes[n].(labels := after), accepted);
    }

    /** Turn reserves into tide nodes until the quota holds. `accept(used + i)` answers write `i`. */
    method DemoteSurplus(pool: Pool, reserve: seq<string>, role: Role, quota: int, accept: nat -> bool, used: nat)
      returns (count: int, ok: bool, spent: nat)
      requires Valid() && pool.KeysApart() && pool.SelectsByOthers()
               && (role == OnlineReserve || role == OfflineReserve)
      requires Distinct(reserve) && AllHave(pool, nodes, reserve, role)
               && |reserve| == RoleCount(TallyOf(pool, nodes), role)
      modifies this
      ensures Valid() && WrittenBy(old(log), log, pool, Reconciling)
      ensures ok ==> TallyOf(pool, nodes) == Trimmed(TallyOf(pool, old(nodes)), role, quota)
      ensures ok ==> count == RoleCount(TallyOf(pool, nodes), role)
      ensures SameSelection(pool, old(nodes), nodes)
      ensures nodes.Keys == old(nodes).Keys && forall n <- nodes :: n !in reserve ==> nodes[n] == old(nodes)[n]
      ensures AllAccepted(accept) ==> ok
      ensures |reserve| <= quota || reserve == [] ==> ok && nodes == old(nodes) && log == old(log)
    {
      hide RoleOf, TallyOf, RunPermitted, Run, SameSelection;
      SelectionReflexive(pool, nodes);
      ghost var t := TallyOf(pool, nodes);
      count := |reserve|;
      var i := 0;
      while i < |reserve| && count > quota
        invariant 0 <= i <= |reserve| && count == |reserve| - i
        invariant Valid() && WrittenBy(old(log), log, pool, Reconciling)
        invariant TallyOf(pool, nodes) == WithRole(t, role, |reserve| - i).(tide := t.tide + i)
        invariant SameSelection(pool, old(nodes), nodes)
        invariant nodes.Keys == old(nodes).Keys && forall n <- nodes :: n !in reserve[..i] ==> nodes[n] == old(nodes)[n]
        invariant i == 0 ==> nodes == old(nodes) && log == old(log)
        invariant i > 0 ==> |reserve| - (i - 1) > quota
      {
        var n := reserve[i];
        assert n !in reserve[..i];
        ReserveToTide(pool, nodes[n], role);
        ghost var was := nodes;
        SetRole(pool, n, ToTide(pool, nodes[n].labels), accept(used + i));
        SelectionTransitive(pool, old(nodes), was, nodes);
        if !accept(used + i) { return count, false, used + i + 1; }
        count := count - 1;
        i := i + 1;
      }
      return count, true, used + i;
    }

    /** Give one unclassified node the first role that still has room. */
    method PlaceNode(pool: Pool, n: string, haveOnline: nat, haveOffline: nat, online: int, offline: int,
                     accepted: bool)
      returns (role: Role)
      requires Valid() && pool.WellFormed() && n in nodes && MatchesSet(pool.selector, nodes[n].labels)
      requires RoleOf(pool, nodes[n].labels) == Unknown
      modifies this
      ensures Valid() && WrittenBy(old(log), log, pool, Reconciling)
      ensures role == NextRole(haveOnline, haveOffline, online, offline)
      ensures SameSelection(pool, old(nodes), nodes)
      ensures nodes.Keys == old(nodes).Keys && forall k <- nodes :: k != n ==> nodes[k] == old(nodes)[k]
      ensures accepted ==>
                TallyOf(pool, old(nodes)).unknown > 0
                  && TallyOf(pool, nodes) == Moved(TallyOf(pool, old(nodes)), Unknown, role)
    {
      hide RoleOf, TallyOf, RunPermitted, Run, SameSelection;
      UnknownToRole(pool, nodes[n]);
      if haveOnline < online {
        role := OnlineReserve;
        SetRole(pool, n, ToOnlineReserve(pool, nodes[n].labels), accepted);
      } else if haveOffline < offline {
        role := OfflineReserve;
        SetRole(pool, n, ToOfflineReserve(pool, nodes[n].labels), accepted);
      } else {
        role := Tide;
        SetRole(pool, n, ToTideOnline(pool, nodes[n].labels), accepted);
      }
    }

    /** Give each unclassified node a role: online reserve first, then offline reserve, then tide. */
    method PlaceUnknown(pool: Pool, unknown: seq<string>, onlineCount: int, offlineCount: int, online: int,
                        offline: int,
                        accept: nat -> bool, used: nat)
      returns (ok: bool)
      requires Valid() && pool.WellFormed()
      requires Distinct(unknown) && AllHave(pool, nodes, unknown, Unknown) && |unknown| == TallyOf(pool, nodes).unknown
      requires onlineCount == TallyOf(pool, nodes).online && offlineCount == TallyOf(pool, nodes).offline
      modifies this
      ensures Valid() && WrittenBy(old(log), log, pool, Reconciling)
      ensures ok ==> TallyOf(pool, nodes) == Placed(TallyOf(pool, old(nodes)), online, offline, |unknown|)
      ensures SameSelection(pool, old(nodes), nodes)
      ensures nodes.Keys == old(nodes).Keys && forall n <- nodes :: n !in unknown ==> nodes[n] == old(nodes)[n]
      ensures AllAccepted(accept) ==> ok
      ensures unknown == [] ==> ok && nodes == old(nodes) && log == old(log)
    {
      hide RoleOf, TallyOf, RunPermitted, Run, SameSelection;
      SelectionReflexive(pool, nodes);
      ghost var t := TallyOf(pool, nodes);
      var haveOnline, haveOffline := onlineCount, offlineCount;
      for i := 0 to |unknown|
        invariant Valid() && WrittenBy(old(log), log, pool, Reconciling)
        invariant TallyOf(pool, nodes) == Placed(t, online, offline, i)
        invariant haveOnline == TallyOf(pool, nodes).online && haveOffline == TallyOf(pool, nodes).offline
        invariant SameSelection(pool, old(nodes), nodes)
        invariant nodes.Keys == old(nodes).Keys && forall n <- nodes :: n !in unknown[..i] ==> nodes[n] == old(nodes)[n]
        invariant i == 0 ==> nodes == old(nodes) && log == old(log)
      {
        var n := unknown[i];
        assert n !in unknown[..i];
        PlacedStep(t, online, offline, i);
        ghost var was := nodes;
        var role := PlaceNode(pool, n, haveOnline, haveOffline, online, offline, accept(used + i));
        SelectionTransitive(pool, old(nodes), was, nodes);
        if role == OnlineReserve {
          haveOnline := haveOnline + 1;
        } else if role == OfflineReserve {
          haveOffline := haveOffline + 1;
        }
        if !accept(used + i) { return false; }
      }
      return true;
    }

    /** Sort the listed nodes by role, in the order of the listing. */
    method ClassifyNodes(pool: Pool, listing: seq<string>)
      returns (online: seq<string>, offline: seq<string>, tide: seq<string>, unknown: seq<string>)
      requires Listing(pool, nodes, listing)
      ensures online == WithRoleOf(pool, nodes, listing, OnlineReserve)
      ensures offline == WithRoleOf(pool, nodes, listing, OfflineReserve)
      ensures tide == WithRoleOf(pool, nodes, listing, Tide)
      ensures unknown == WithRoleOf(pool, nodes, listing, Unknown)
    {
      hide RoleOf;
      online, offline, tide, unknown := [], [], [], [];
      for i := 0 to |listing|
        invariant online == WithRoleOf(pool, nodes, listing[..i], OnlineReserve)
        invariant offline == WithRoleOf(pool, nodes, listing[..i], OfflineReserve)
        invariant tide == WithRoleOf(pool, nodes, listing[..i], Tide)
        invariant unknown == WithRoleOf(pool, nodes, listing[..i], Unknown)
      {
        var n := listing[i];
        assert n in listing;
        RoleStep(pool, nodes, listing, i, OnlineReserve);
        RoleStep(pool, nodes, listing, i, OfflineReserve);
        RoleStep(pool, nodes, listing, i, Tide);
        RoleStep(pool, nodes, listing, i, Unknown);
        match RoleOf(pool, nodes[n].labels)
        case OnlineReserve => online := online + [n];
        case OfflineReserve => offline := offline + [n];
        case Tide => tide := tide + [n];
        case Unknown => unknown := unknown + [n];
        case Other =>
      }
      assert listing[..|listing|] == listing;
    }

    /** Trim both reserves to their quotas and place the unclassified nodes. */
    method MoveNodes(pool: Pool, listing: seq<string>, online: int, offline: int,
                     accept: nat -> bool) returns (ok: bool)
      requires Valid() && pool.WellFormed() && Listing(pool, nodes, listing)
      modifies this
      ensures Valid() && WrittenBy(old(log), log, pool, Reconciling)
      ensures Listing(pool, nodes, listing)
      ensures nodes.Keys == old(nodes).Keys && forall n <- nodes :: n !in listing ==> nodes[n] == old(nodes)[n]
      ensures AllAccepted(accept) ==> ok
      ensures ok ==> TallyOf(pool, nodes) == Reconciled(TallyOf(pool, old(nodes)), online, offline)
      ensures Settled(TallyOf(pool, old(nodes)), online, offline) ==> ok && nodes == old(nodes) && log == old(log)
    {
      hide RoleOf, TallyOf, RunPermitted, Run, Listing, WithRoleOf, Distinct, Placed, SameSelection;
      var reserveOnline, reserveOffline, tide, unknown := ClassifyNodes(pool, listing);
      RoleListing(pool, nodes, listing, OnlineReserve);
      RoleListing(pool, nodes, listing, OfflineReserve);
      RoleListing(pool, nodes, listing, Unknown);
      hide MatchesSet;
      ghost var start := nodes;
      var onlineCount, offlineCount, used;
      onlineCount, ok, used := DemoteSurplus(pool, reserveOnline, OnlineReserve, online, accept, 0);
      ListingKept(pool, start, nodes, listing);
      if !ok { return false; }
      StillHave(pool, start, nodes, reserveOffline, OfflineReserve, reserveOnline, OnlineReserve);
      StillHave(pool, start, nodes, unknown, Unknown, reserveOnline, OnlineReserve);
      hide AllHave;
      ghost var middle := nodes;
      offlineCount, ok, used := DemoteSurplus(pool, reserveOffline, OfflineReserve, offline, accept, used);
      ListingKept(pool, middle, nodes, listing);
      if !ok { return false; }
      StillHave(pool, middle, nodes, unknown, Unknown, reserveOffline, OfflineReserve);
      middle := nodes;
      ok := PlaceUnknown(pool, unknown, onlineCount, offlineCount, online, offline, accept, used);
      ListingKept(pool, middle, nodes, listing);
    }

    /** One reconcile over the selected nodes in the order they were listed. A malformed quota or a
        refused write stops it. */
    method Reconcile(pool: Pool, listing: seq<string>, accept: nat -> bool) returns (ok: bool)
      requires Valid() && pool.WellFormed() && Listing(pool, nodes, listing)
      modifies this
      ensures Valid() && WrittenBy(old(log), log, pool, Reconciling)
      ensures Listing(pool, nodes, listing)
      ensures nodes.Keys == old(nodes).Keys && forall n <- nodes :: n !in listing ==> nodes[n] == old(nodes)[n]
      ensures
        match (Scaled(pool.online, |listing|, true), Scaled(pool.offline, |listing|, false))
        case (Some(online), Some(offline)) =>
          && (AllAccepted(accept) ==> ok)
          && (ok ==> TallyOf(pool, nodes) == Reconciled(TallyOf(pool, old(nodes)), online, offline))
          && (ok ==> Settled(TallyOf(pool, nodes), online, offline))
          && (Settled(TallyOf(pool, old(nodes)), online, offline) ==> ok && nodes == old(nodes) && log == old(log))
        case _ => !ok && nodes == old(nodes) && log == old(log)
    {
      hide RunPermitted, Run, TallyOf, Listing, Scaled, Reconciled, Settled;
      var online := Scaled(pool.online, |listing|, true);
      if online.None? { return false; }
      var offline := Scaled(pool.offline, |listing|, false);
      if offline.None? { return false; }
      ReconciledMeaning(TallyOf(pool, nodes), online.value, offline.value);
      ok := MoveNodes(pool, listing, online.value, offline.value, accept);
    }

    /** A pass over a pool that a successful pass has left as it is, with the same listing, writes
        nothing. */
    method ReconcileAgain(pool: Pool, listing: seq<string>, ghost before: Nodes, accept: nat -> bool) returns (ok: bool)
      requires Valid() && pool.WellFormed() && Listing(pool, nodes, listing)
      requires Scaled(pool.online, |listing|, true).Some? && Scaled(pool.offline, |listing|, false).Some?
      requires TallyOf(pool, nodes) == Reconciled(TallyOf(pool, before), Scaled(pool.online, |listing|, true).value,
                                                  Scaled(pool.offline, |listing|, false).value)
      modifies this
      ensures Valid()
      ensures ok && nodes == old(nodes) && log == old(log)
    {
      hide RunPermitted, Run, TallyOf, Listing, Scaled, Reconciled, Settled;
      ReconciledMeaning(TallyOf(pool, before), Scaled(pool.online, |listing|, true).value,
                        Scaled(pool.offline, |listing|, false).value);
      ok := Reconcile(pool, listing, accept);
    }

    /** A pass over a pool whose selected nodes are all new meets two percentages of at most 100 in
        all: as many online reserves as the share rounded up, as many offline ones as the share
        rounded down, and the rest are tide nodes. */
    method ReconcileFresh(pool: Pool, listing: seq<string>, accept: nat -> bool) returns (ok: bool)
      requires Valid() && pool.WellFormed() && Listing(pool, nodes, listing)
      requires forall n <- listing :: n in nodes && RoleOf(pool, nodes[n].labels) == Unknown
      requires pool.online.Percent? && pool.offline.Percent?
      requires pool.online.percent >= 0 && pool.offline.percent >= 0
               && pool.online.percent + pool.offline.percent <= 100
      modifies this
      ensures Valid() && WrittenBy(old(log), log, pool, Reconciling)
      ensures AllAccepted(accept) ==> ok
      ensures ok ==> TallyOf(pool, nodes) == FreshTallyOf(pool.online.percent, pool.offline.percent, |listing|)
      ensures ok ==>
                var n, r := |listing|, TallyOf(pool, nodes);
                && 100 * (r.online - 1) < pool.online.percent * n <= 100 * r.online
                && 100 * r.offline <= pool.offline.percent * n < 100 * (r.offline + 1)
                && r.online + r.offline + r.tide == n
    {
      hide RunPermitted, Run, RoleOf, Listing, FreshTallyOf, TallyOf, Reconciled, Settled, Scaled;
      FreshTally(pool, nodes, listing);
      FreshPoolMeetsQuotas(pool.online.percent, pool.offline.percent, |listing|);
      FreshRounded(pool.online.percent, pool.offline.percent, |listing|);
      ok := Reconcile(pool, listing, accept);
    }

    /** A pass over a pool whose quotas are plain numbers brings the online reserves to their number as
        far as there are nodes, then the offline ones, and makes the rest tide nodes. */
    method ReconcileCounts(pool: Pool, listing: seq<string>, accept: nat -> bool) returns (ok: bool)
      requires Valid() && pool.WellFormed() && Listing(pool, nodes, listing)
      requires pool.online.Count? && pool.offline.Count?
      modifies this
      ensures Valid() && WrittenBy(old(log), log, pool, Reconciling)
      ensures AllAccepted(accept) ==> ok
      ensures ok ==>
                var a, b := Max(pool.online.count, 0), Max(pool.offline.count, 0);
                var t, r := TallyOf(pool, old(nodes)), TallyOf(pool, nodes);
                && r.online == Min(a, t.online + t.unknown)
                && r.offline == Min(b, t.offline + t.unknown - (r.online - Min(t.online, a)))
                && r.online + r.offline + r.tide == t.online + t.offline + t.tide + t.unknown
                && r.unknown == 0 && r.other == t.other
      ensures ok && (forall n <- listing :: n in old(nodes) && RoleOf(pool, old(nodes)[n].labels) == Unknown) ==>
                var a, b, n := Max(pool.online.count, 0), Max(pool.offline.count, 0), |listing|;
                var online := Min(a, n);
                var offline := Min(b, n - online);
                TallyOf(pool, nodes) == Tally(online, offline, n - online - offline, 0, 0)
    {
      hide RunPermitted, Run, RoleOf, Listing, TallyOf, Reconciled, Settled;
      ReconciledCounts(TallyOf(pool, nodes), pool.online.count, pool.offline.count);
      if forall n <- listing :: n in nodes && RoleOf(pool, nodes[n].labels) == Unknown {
        FreshTally(pool, nodes, listing);
      }
      ok := Reconcile(pool, listing, accept);
    }
  }

  /** The API server refuses no write. */
  ghost predicate AllAccepted(accept: nat -> bool) {
    forall k: nat :: accept(k)
  }

  /** New nodes are all counted as unclassified. */
  lemma FreshTally(pool: Pool, nodes: Nodes, listing: seq<string>)
    requires Listing(pool, nodes, listing)
    requires forall n <- listing :: n in nodes && RoleOf(pool, nodes[n].labels) == Unknown
    ensures TallyOf(pool, nodes) == Tally(0, 0, 0, |listing|, 0)
  {
    hide RoleOf;
    assert RoleSet(pool, nodes, Unknown) == Elements(listing);
    assert RoleSet(pool, nodes, OnlineReserve) == RoleSet(pool, nodes, OfflineReserve) == {};
    assert RoleSet(pool, nodes, Tide) == {};
    assert RoleSet(pool, nodes, Other) == {};
    DistinctCard(listing);
  }

  lemma ReserveToTide(pool: Pool, node: Node, role: Role)
    requires pool.KeysApart() && RoleOf(pool, node.labels) == role && (role == OnlineReserve || role == OfflineReserve)
    ensures Reconciles(pool, node, node.(labels := ToTide(pool, node.labels)))
    ensures RoleOf(pool, ToTide(pool, node.labels)) == Tide
  {
    SettersMeaning(pool, node.labels);
  }

  lemma UnknownToRole(pool: Pool, node: Node)
    requires pool.WellFormed() && RoleOf(pool, node.labels) == Unknown
    ensures Reconciles(pool, node, node.(labels := ToOnlineReserve(pool, node.labels)))
    ensures Reconciles(pool, node, node.(labels := ToOfflineReserve(pool, node.labels)))
    ensures Reconciles(pool, node, node.(labels := ToTideOnline(pool, node.labels)))
    ensures RoleOf(pool, ToOnlineReserve(pool, node.labels)) == OnlineReserve
    ensures RoleOf(pool, ToOfflineReserve(pool, node.labels)) == OfflineReserve
    ensures RoleOf(pool, ToTideOnline(pool, node.labels)) == Tide
  {
    SettersMeaning(pool, node.labels);
  }

  /** The nodes the pool's selector picks, in any order. */
  ghost predicate Listing(pool: Pool, nodes: Nodes, listing: seq<string>) {
    Distinct(listing) && forall n :: n in listing <==> n in nodes && MatchesSet(pool.selector, nodes[n].labels)
  }

  ghost function HasRole(pool: Pool, nodes: Nodes, role: Role): string -> bool {
    n => n in nodes && RoleOf(pool, nodes[n].labels) == role
  }

  ghost function WithRoleOf(pool: Pool, nodes: Nodes, names: seq<string>, role: Role): seq<string> {
    Filter(names, HasRole(pool, nodes, role))
  }

  lemma RoleStep(pool: Pool, nodes: Nodes, listing: seq<string>, i: nat, role: Role)
    requires i < |listing| && listing[i] in nodes
    ensures WithRoleOf(pool, nodes, listing[..i + 1], role) ==
            WithRoleOf(pool, nodes, listing[..i], role)
              + (if RoleOf(pool, nodes[listing[i]].labels) == role then [listing[i]] else [])
  {
    hide RoleOf;
    FilterStep(listing, i, HasRole(pool, nodes, role));
  }

  /** The classified nodes of a role are exactly the selected nodes that have it, each once. */
  lemma RoleListing(pool: Pool, nodes: Nodes, listing: seq<string>, role: Role)
    requires Listing(pool, nodes, listing)
    ensures
      var names := WithRoleOf(pool, nodes, listing, role);
      && AllHave(pool, nodes, names, role) && Distinct(names) && |names| == RoleCount(TallyOf(pool, nodes), role)
      && forall n <- names :: n in listing
  {
    hide RoleOf;
    var names := WithRoleOf(pool, nodes, listing, role);
    FilterEntries(listing, HasRole(pool, nodes, role));
    DistinctFilter(listing, HasRole(pool, nodes, role));
    DistinctCard(names);
    assert Elements(names) == RoleSet(pool, nodes, role);
  }

  lemma DistinctFilter(xs: seq<string>, keep: string -> bool)
    requires Distinct(xs)
    ensures Distinct(Filter(xs, keep))
  {
    var pos := FilterPositions(xs, keep);
  }

  /** Writing nodes of one role leaves the listed nodes of another as they were. */
  lemma StillHave(pool: Pool, before: Nodes, after: Nodes, names: seq<string>, role: Role, changed: seq<string>,
                  other: Role)
    requires AllHave(pool, before, names, role) && AllHave(pool, before, changed, other) && role != other
    requires after.Keys == before.Keys && forall n <- after :: n !in changed ==> after[n] == before[n]
    ensures AllHave(pool, after, names, role)
  {
    hide RoleOf;
    forall i | 0 <= i < |names| ensures names[i] !in changed {}
  }

  /** Balancing does not disturb a reconcile: it changes no count of roles. */
  lemma SwitchKeepsTally(pool: Pool, nodes: Nodes, n: string, after: Node)
    requires pool.KeysApart() && pool.SelectsByOthers() && n in nodes
    requires RolesApart(pool, nodes) && Switches(pool, nodes[n], after)
    ensures TallyOf(pool, nodes[n := after]) == TallyOf(pool, nodes)
  {
    SwitchKeepsRole(pool, nodes[n], after);
    SelectionUnchanged(pool, nodes[n].labels, after.labels);
    hide RoleOf;
    forall role: Role ensures RoleSet(pool, nodes[n := after], role) == RoleSet(pool, nodes, role) {}
  }

  lemma SwitchKeepsRole(pool: Pool, before: Node, after: Node)
    requires pool.KeysApart() && Switches(pool, before, after) && !IsReserve(before.labels)
    ensures RoleOf(pool, before.labels) == RoleOf(pool, after.labels) == Tide
    ensures SameForeignLabels(pool, before.labels, after.labels)
  {
  }
}
