/** Tide node pools: the labels that say which pool a node belongs to and in which role
    (pkg/controller/tide/nodepool_wrapper.go), and the classification of nodes by them
    (pkg/controller/tide/tide.go, lines 465-487). */
module TidePool {
  import opened Keys
  import opened Selectors
  import opened Scaling

  // Label and taint keys; all share the controller's group prefix, which is left out here.
  const POOL_KEY := "node-pool"
  const TYPE_KEY := "node-type"
  const TIDE_KEY := "tide"
  const RESERVE_KEY := "reserve"
  const EVICT_ONLINE_KEY := "online-not-used"
  const EVICT_OFFLINE_KEY := "offline-not-used"

  datatype LabelOption = LabelOption(key: string, value: string)

  datatype Taint = Taint(key: string, value: string, effect: string)

  datatype Node = Node(labels: Labels, taints: seq<Taint>)

  datatype Pool = Pool(
    name: string,
    selector: Labels,
    online: IntOrPercent,
    offline: IntOrPercent,
    onlineLabel: Option<LabelOption>,
    offlineLabel: Option<LabelOption>,
    tideLabel: Option<LabelOption>,
    evictOnline: Option<Taint>,
    evictOffline: Option<Taint>)
  {
    function OnlineLabel(): LabelOption {
      if onlineLabel.Some? then onlineLabel.value else LabelOption(TYPE_KEY, "online")
    }

    function OfflineLabel(): LabelOption {
      if offlineLabel.Some? then offlineLabel.value else LabelOption(TYPE_KEY, "offline")
    }

    function TideLabel(): LabelOption {
      if tideLabel.Some? then tideLabel.value else LabelOption(TIDE_KEY, "true")
    }

    function EvictOnlineTaint(): Taint {
      if evictOnline.Some? then evictOnline.value else Taint(EVICT_ONLINE_KEY, "true", "NoExecute")
    }

    function EvictOfflineTaint(): Taint {
      if evictOffline.Some? then evictOffline.value else Taint(EVICT_OFFLINE_KEY, "true", "NoExecute")
    }

    /** The label keys the controller writes for this pool. */
    function OwnKeys(): set<string> {
      {POOL_KEY, RESERVE_KEY, TYPE_KEY, OnlineLabel().key, OfflineLabel().key, TideLabel().key}
    }

    /** No role label is the pool label. */
    predicate KeepsOwner() {
      POOL_KEY !in {OnlineLabel().key, OfflineLabel().key, TideLabel().key}
    }

    /** The pool, reserve, tide and type labels do not get in each other's way. */
    predicate KeysApart() {
      && TideLabel().key !in {POOL_KEY, RESERVE_KEY}
      && OnlineLabel().key !in {POOL_KEY, RESERVE_KEY, TideLabel().key}
      && OfflineLabel().key !in {POOL_KEY, RESERVE_KEY, TideLabel().key}
    }

    /** One key tells online from offline. */
    predicate OneTypeKey() {
      OnlineLabel().key == OfflineLabel().key && OnlineLabel().value != OfflineLabel().value
    }

    /** Nodes are not selected by labels the controller writes. */
    predicate SelectsByOthers() {
      selector.Keys !! OwnKeys()
    }

    predicate WellFormed() {
      KeysApart() && OneTypeKey() && SelectsByOthers()
    }
  }

  // ---------------------------------------------------------------- selectors

  /** `labels.SelectorFromSet`: every listed label is present with its value. */
  predicate MatchesSet(want: Labels, l: Labels) {
    forall k <- want :: k in l && l[k] == want[k]
  }

  predicate Has(l: Labels, o: LabelOption) {
    o.key in l && l[o.key] == o.value
  }

  predicate InPool(pool: Pool, l: Labels) {
    Has(l, LabelOption(POOL_KEY, pool.name))
  }

  predicate IsReserve(l: Labels) {
    Has(l, LabelOption(RESERVE_KEY, "true"))
  }

  predicate IsOnlineReserve(pool: Pool, l: Labels) {
    Has(l, pool.OnlineLabel()) && InPool(pool, l) && IsReserve(l)
  }

  predicate IsOfflineReserve(pool: Pool, l: Labels) {
    Has(l, pool.OfflineLabel()) && InPool(pool, l) && IsReserve(l)
  }

  predicate IsTide(pool: Pool, l: Labels) {
    InPool(pool, l) && Has(l, pool.TideLabel())
  }

  predicate IsOnlineTide(pool: Pool, l: Labels) {
    IsTide(pool, l) && Has(l, pool.OnlineLabel())
  }

  predicate IsOfflineTide(pool: Pool, l: Labels) {
    IsTide(pool, l) && Has(l, pool.OfflineLabel())
  }

  // ---------------------------------------------------------------- roles

  datatype Role = OnlineReserve | OfflineReserve | Tide | Unknown | Other

  /** The first role that fits; a node without any pool label is unknown. */
  function RoleOf(pool: Pool, l: Labels): Role {
    if IsOnlineReserve(pool, l) then OnlineReserve
    else if IsOfflineReserve(pool, l) then OfflineReserve
    else if IsTide(pool, l) then Tide
    else if POOL_KEY !in l then Unknown
    else Other
  }

  function ToOnlineReserve(pool: Pool, l: Labels): Labels {
    l[POOL_KEY := pool.name][pool.OnlineLabel().key := pool.OnlineLabel().value][RESERVE_KEY := "true"]
    - {pool.TideLabel().key}
  }

  function ToOfflineReserve(pool: Pool, l: Labels): Labels {
    l[POOL_KEY := pool.name][pool.OfflineLabel().key := pool.OfflineLabel().value][RESERVE_KEY := "true"]
    - {pool.TideLabel().key}
  }

  function ToTide(pool: Pool, l: Labels): Labels {
    l[POOL_KEY := pool.name][RESERVE_KEY := "false"][pool.TideLabel().key := pool.TideLabel().value]
  }

  function ToTideOnline(pool: Pool, l: Labels): Labels {
    l[RESERVE_KEY := "false"][POOL_KEY := pool.name][pool.OnlineLabel().key := pool.OnlineLabel().value]
    [pool.TideLabel().key := pool.TideLabel().value]
  }

  function OnlineLabels(pool: Pool, l: Labels): Labels {
    (l - {pool.OfflineLabel().key})[pool.OnlineLabel().key := pool.OnlineLabel().value]
  }

  function OfflineLabels(pool: Pool, l: Labels): Labels {
    (l - {pool.OnlineLabel().key})[pool.OfflineLabel().key := pool.OfflineLabel().value]
  }

  /** Labels the controller does not own for this pool. */
  ghost predicate SameForeignLabels(pool: Pool, a: Labels, b: Labels) {
    forall k :: k !in pool.OwnKeys() ==> (k in a <==> k in b) && (k in a ==> a[k] == b[k])
  }

  /** The pool configures no labels or taints of its own. */
  predicate UsesDefaults(pool: Pool) {
    && pool.onlineLabel.None? && pool.offlineLabel.None? && pool.tideLabel.None?
    && pool.evictOnline.None? && pool.evictOffline.None?
  }

  /** The labels and taints of a pool that configures none, written out. */
  lemma DefaultLabels(pool: Pool, l: Labels)
    requires UsesDefaults(pool)
    ensures ToOnlineReserve(pool, l) ==
            l["node-pool" := pool.name]["node-type" := "online"]["reserve" := "true"] - {"tide"}
    ensures ToOfflineReserve(pool, l) ==
            l["node-pool" := pool.name]["node-type" := "offline"]["reserve" := "true"] - {"tide"}
    ensures ToTide(pool, l) == l["node-pool" := pool.name]["reserve" := "false"]["tide" := "true"]
    ensures ToTideOnline(pool, l) ==
            l["reserve" := "false"]["node-pool" := pool.name]["node-type" := "online"]["tide" := "true"]
    ensures pool.EvictOnlineTaint() == Taint("online-not-used", "true", "NoExecute")
    ensures pool.EvictOfflineTaint() == Taint("offline-not-used", "true", "NoExecute")
  {
  }

  /** How nodes are classified by the labels of a pool that configures none. */
  lemma DefaultRoles(pool: Pool, l: Labels)
    requires UsesDefaults(pool)
    ensures
      var mine := "node-pool" in l && l["node-pool"] == pool.name;
      var reserve := "reserve" in l && l["reserve"] == "true";
      RoleOf(pool, l) ==
      if "node-pool" !in l then Unknown
      else if mine && reserve && "node-type" in l && l["node-type"] == "online" then OnlineReserve
      else if mine && reserve && "node-type" in l && l["node-type"] == "offline" then OfflineReserve
      else if mine && "tide" in l && l["tide"] == "true" then Tide
      else Other
  {
  }

  /** Each setter gives the role it is named after, claims the node for the pool, and leaves foreign
      labels alone; the offline role needs the online label gone, as it always is with one type key. A
      reserve turned into a tide node keeps serving online or offline as before. */
  lemma SettersMeaning(pool: Pool, l: Labels)
    requires pool.KeysApart()
    ensures RoleOf(pool, ToOnlineReserve(pool, l)) == OnlineReserve
    ensures RoleOf(pool, ToOfflineReserve(pool, l)) == OfflineReserve <==>
            !Has(ToOfflineReserve(pool, l), pool.OnlineLabel())
    ensures pool.OneTypeKey() ==> RoleOf(pool, ToOfflineReserve(pool, l)) == OfflineReserve
    ensures RoleOf(pool, ToTide(pool, l)) == Tide && !IsReserve(ToTide(pool, l))
    ensures RoleOf(pool, ToTideOnline(pool, l)) == Tide && IsOnlineTide(pool, ToTideOnline(pool, l))
    ensures !IsTide(pool, ToOnlineReserve(pool, l)) && !IsTide(pool, ToOfflineReserve(pool, l))
    ensures !IsReserve(ToTideOnline(pool, l))
    ensures IsOnlineReserve(pool, l) ==> IsOnlineTide(pool, ToTide(pool, l))
    ensures IsOfflineReserve(pool, l) ==> IsOfflineTide(pool, ToTide(pool, l))
    ensures SameForeignLabels(pool, l, ToOnlineReserve(pool, l))
            && SameForeignLabels(pool, l, ToOfflineReserve(pool, l))
    ensures SameForeignLabels(pool, l, ToTide(pool, l)) && SameForeignLabels(pool, l, ToTideOnline(pool, l))
  {
  }

  /** Foreign labels decide whether a node is selected. */
  lemma SelectionUnchanged(pool: Pool, a: Labels, b: Labels)
    requires pool.SelectsByOthers() && SameForeignLabels(pool, a, b)
    ensures MatchesSet(pool.selector, a) <==> MatchesSet(pool.selector, b)
  {
    assert forall k <- pool.selector :: k !in pool.OwnKeys();
  }

  /** One key for online and offline is what makes the offline role stick: with separate keys a
      stale online label turns an offline reserve into an online one. */
  lemma OfflineRoleIffOneTypeKey(pool: Pool)
    requires pool.KeysApart()
    ensures (forall l :: RoleOf(pool, ToOfflineReserve(pool, l)) == OfflineReserve) <==> pool.OneTypeKey()
  {
    var stale := map[pool.OnlineLabel().key := pool.OnlineLabel().value];
    if !pool.OneTypeKey() {
      assert RoleOf(pool, ToOfflineReserve(pool, stale)) == OnlineReserve;
    }
  }

  /** For every pool, whatever its labels: the offline role takes effect on all nodes exactly if it
      does on a node without labels and the setter decides the online key as well. */
  lemma OfflineRoleSticksIff(pool: Pool)
    ensures (forall l :: RoleOf(pool, ToOfflineReserve(pool, l)) == OfflineReserve)
            <==> && RoleOf(pool, ToOfflineReserve(pool, map[])) == OfflineReserve
                 && pool.OnlineLabel().key in {POOL_KEY, RESERVE_KEY, pool.OfflineLabel().key, pool.TideLabel().key}
  {
    var bare := ToOfflineReserve(pool, map[]);
    var on := pool.OnlineLabel();
    if RoleOf(pool, bare) == OfflineReserve {
      if on.key in {POOL_KEY, RESERVE_KEY, pool.OfflineLabel().key, pool.TideLabel().key} {
        forall l ensures RoleOf(pool, ToOfflineReserve(pool, l)) == OfflineReserve {
          var labels := ToOfflineReserve(pool, l);
          assert forall k :: k in bare ==> k in labels && labels[k] == bare[k];
          assert on.key in labels <==> on.key in bare;
        }
      } else {
        assert RoleOf(pool, ToOfflineReserve(pool, map[on.key := on.value])) == OnlineReserve;
      }
    }
  }
}
