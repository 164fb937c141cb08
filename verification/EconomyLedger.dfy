/** The ledger of the building economy: what a role owns, in its wallet and in its
    buildings, over every run. */
module EconomyLedger {
  import opened Economy

  /** The tables name the same building types at each level, and a building type produces
      the same type of resource at all levels. */
  ghost predicate Consistent(c: Config) {
    && Sound(c)
    && (forall l, t :: l in c.levels ==> (t in c.levels[l].incomeInterval <==> Produces(c, t, l)))
    && (forall l, t :: l in c.levels ==> (t in c.levels[l].upgradeNeedMoney <==> Produces(c, t, l)))
    && (forall l, k, t :: Produces(c, t, l) && Produces(c, t, k) ==>
          TypeMade(c, t, l) == TypeMade(c, t, k))
  }

  /** What is stored is marked with the type that the building produces. */
  predicate Labelled(c: Config, b: Building) {
    b.stored.num == 0 || !Produces(c, b.buildingType, b.level)
    || b.stored.resourceType == TypeMade(c, b.buildingType, b.level)
  }

  ghost predicate Distinct(bs: seq<Building>) {
    forall j, k :: 0 <= j < k < |bs| ==> bs[j].index != bs[k].index
  }

  /** Building indices are distinct, no building starts in the future, what is stored is
      marked rightly. */
  ghost predicate Ready(c: Config, s: State) {
    && Distinct(s.buildings)
    && forall k :: 0 <= k < |s.buildings| ==> s.buildings[k].startTime <= s.now && Labelled(c, s.buildings[k])
  }

  /** The wallet has an entry for everything that can be collected. */
  ghost predicate WalletHolds(c: Config, rs: seq<Resource>) {
    forall l, t :: l in c.levels && t in c.levels[l].incomeInterval ==> Has(rs, TypeMade(c, t, l))
  }

  // ----- what is owned -----

  /** What a building holds of a type: what is stored, and what it has produced since. */
  function BuildingWorth(c: Config, b: Building, now: nat, r: nat): int {
    (if b.stored.resourceType == r then b.stored.num else 0)
    + (if TypeMade(c, b.buildingType, b.level) == r
       then (now - b.startTime) * RateMade(c, b.buildingType, b.level) else 0)
  }

  function BuildingsWorth(c: Config, bs: seq<Building>, now: nat, r: nat): int {
    if bs == [] then 0 else BuildingWorth(c, bs[0], now, r) + BuildingsWorth(c, bs[1..], now, r)
  }

  function Worth(c: Config, s: State, r: nat): int {
    Amount(s.resources, r) + BuildingsWorth(c, s.buildings, s.now, r)
  }

  /** What all buildings produce of a type in one unit of time. */
  function Rate(c: Config, bs: seq<Building>, r: nat): int {
    if bs == [] then 0
    else
      var (t, l) := (bs[0].buildingType, bs[0].level);
      (if TypeMade(c, t, l) == r then RateMade(c, t, l) else 0) + Rate(c, bs[1..], r)
  }

  /** The price paid in a step. */
  function Spent(c: Config, s: State, e: Event, r: nat): nat
    requires Sound(c)
  {
    match e
    case Build(index, t) =>
      if CheckBuild(c, s, index, t) == Success then Total(c.unlockNeedMoney[t], r) else 0
    case Up(index) =>
      if CheckUp(c, s, index) == Success then
        var b := s.buildings[FindBuilding(s.buildings, index)];
        Total(c.levels[b.level].upgradeNeedMoney[b.buildingType], r)
      else 0
    case _ => 0
  }

  /** What is produced in a step. */
  function Produced(c: Config, s: State, e: Event, r: nat): int {
    if e.Tick? then e.d * Rate(c, s.buildings, r) else 0
  }

  /** What is in the store once all that has been produced is put there. */
  function Collectable(c: Config, b: Building, now: nat): int {
    b.stored.num + (now - b.startTime) * RateMade(c, b.buildingType, b.level)
  }

  /** What is lost in a step: what is collected of a type that the wallet has no entry for. */
  function Lost(c: Config, s: State, e: Event, r: nat): int {
    if e.Collect? && CheckIncome(c, s, e.index) == Success then
      var b := s.buildings[FindBuilding(s.buildings, e.index)];
      if TypeMade(c, b.buildingType, b.level) == r && !Has(s.resources, r) then Collectable(c, b, s.now) else 0
    else 0
  }

  /** What a store counts for another type than before, once it is marked with the type
      that its building produces now. */
  function Relabelled(c: Config, b: Building, r: nat): int {
    (if TypeMade(c, b.buildingType, b.level) == r then b.stored.num else 0)
    - (if b.stored.resourceType == r then b.stored.num else 0)
  }

  /** What changes its type in a step. */
  function Moved(c: Config, s: State, e: Event, r: nat): int
    requires Sound(c)
  {
    match e
    case Up(index) =>
      if CheckUp(c, s, index) == Success then
        Relabelled(c, s.buildings[FindBuilding(s.buildings, index)], r)
      else 0
    case Collect(index) =>
      if CheckIncome(c, s, index) == Success then
        Relabelled(c, s.buildings[FindBuilding(s.buildings, index)], r)
      else 0
    case _ => 0
  }

  // ----- sums over the buildings -----

  lemma {:induction false} WorthUpdate(c: Config, bs: seq<Building>, i: nat, b: Building, now: nat, r: nat)
    requires i < |bs|
    ensures BuildingsWorth(c, bs[i := b], now, r)
         == BuildingsWorth(c, bs, now, r) - BuildingWorth(c, bs[i], now, r) + BuildingWorth(c, b, now, r)
  {
    hide BuildingWorth;
    if i > 0 {
      WorthUpdate(c, bs[1..], i - 1, b, now, r);
      assert bs[i := b][1..] == bs[1..][i - 1 := b];
    } else {
      assert bs[i := b][1..] == bs[1..];
    }
  }

  lemma {:induction false} WorthAppend(c: Config, bs: seq<Building>, b: Building, now: nat, r: nat)
    ensures BuildingsWorth(c, bs + [b], now, r) == BuildingsWorth(c, bs, now, r) + BuildingWorth(c, b, now, r)
  {
    hide BuildingWorth;
    if bs == [] {
      assert (bs + [b])[1..] == [];
    } else {
      WorthAppend(c, bs[1..], b, now, r);
      assert (bs + [b])[1..] == bs[1..] + [b];
    }
  }

  lemma {:induction false} TimePasses(c: Config, bs: seq<Building>, now: nat, d: nat, r: nat)
    ensures BuildingsWorth(c, bs, now + d, r) == BuildingsWorth(c, bs, now, r) + d * Rate(c, bs, r)
  {
    if bs != [] {
      TimePasses(c, bs[1..], now, d, r);
      var (t, l) := (bs[0].buildingType, bs[0].level);
      var own := if TypeMade(c, t, l) == r then RateMade(c, t, l) else 0;
      Distribute(now - bs[0].startTime, d, RateMade(c, t, l));
      hide TypeMade, RateMade;
      assert BuildingWorth(c, bs[0], now + d, r) == BuildingWorth(c, bs[0], now, r) + d * own;
      DistributeSum(d, own, Rate(c, bs[1..], r));
    }
  }

  lemma Distribute(x: int, d: int, n: int)
    ensures (x + d) * n == x * n + d * n
  {
  }

  lemma DistributeSum(d: int, x: int, y: int)
    ensures d * (x + y) == d * x + d * y
  {
  }

  // ----- what the operations do to it -----

  /** `on_building_changed` moves production into the store and marks the store with the
      type produced; nothing else changes in what the building holds. */
  lemma ChangedKeepsWorth(c: Config, b: Building, now: nat, r: nat)
    ensures BuildingWorth(c, Changed(c, b, now), now, r) == BuildingWorth(c, b, now, r) + Relabelled(c, b, r)
  {
    hide Speed, TypeMade, RateMade;
    SpeedIsRow(c, b.buildingType, b.level);
    assert (now - now) * RateMade(c, b.buildingType, b.level) == 0;
  }

  /** A store that is marked rightly keeps its type. */
  lemma LabelledStays(c: Config, b: Building, r: nat)
    requires Labelled(c, b) && (Produces(c, b.buildingType, b.level) || b.stored.num == 0)
    ensures Relabelled(c, b, r) == 0
  {
  }

  /** A building at the next level holds the same. */
  lemma NextLevelKeepsWorth(c: Config, b: Building, now: nat, r: nat)
    requires b.startTime == now
    ensures BuildingWorth(c, b.(level := b.level + 1), now, r) == BuildingWorth(c, b, now, r)
  {
    hide Speed, TypeMade, RateMade;
  }

  lemma BuildLedger(c: Config, s: State, index: nat, t: nat, r: nat)
    requires Sound(c) && CheckBuild(c, s, index, t) == Success
    ensures Worth(c, OnBuild(c, s, index, t), r) == Worth(c, s, r) - Total(c.unlockNeedMoney[t], r)
  {
    CheckedPay(s.resources, c.unlockNeedMoney[t], r);
    var b := Building(t, index, 1, Resource(INVALID_RESOURCE_TYPE, 0), s.now, 0);
    ChangedKeepsWorth(c, b, s.now, r);
    assert BuildingWorth(c, b, s.now, r) == 0;
    hide Changed, BuildingWorth, Pay;
    WorthAppend(c, s.buildings, Changed(c, b, s.now), s.now, r);
  }

  lemma UpLedger(c: Config, s: State, index: nat, r: nat)
    requires Sound(c) && CheckUp(c, s, index) == Success
    ensures Worth(c, OnUp(c, s, index), r) ==
            Worth(c, s, r) - Spent(c, s, Up(index), r) + Moved(c, s, Up(index), r)
  {
    var i := FindBuilding(s.buildings, index);
    var b := s.buildings[i];
    var costs := c.levels[b.level].upgradeNeedMoney[b.buildingType];
    CheckedPay(s.resources, costs, r);
    ChangedKeepsWorth(c, b, s.now, r);
    var b' := Changed(c, b, s.now);
    NextLevelKeepsWorth(c, b', s.now, r);
    hide Changed, BuildingWorth, Pay;
    WorthUpdate(c, s.buildings, i, b'.(level := b'.level + 1), s.now, r);
  }

  /** Collecting moves the store into the wallet; it loses exactly what the wallet has no entry for. */
  lemma CollectLedger(c: Config, s: State, index: nat, r: nat)
    requires Sound(c) && CheckIncome(c, s, index) == Success
    ensures Worth(c, OnIncome(c, s, index), r) ==
            Worth(c, s, r) - Lost(c, s, Collect(index), r) + Moved(c, s, Collect(index), r)
  {
    hide BuildingWorth, Speed, TypeMade, RateMade;
    SpeedIsRow(c, s.buildings[FindBuilding(s.buildings, index)].buildingType,
      s.buildings[FindBuilding(s.buildings, index)].level);
    var i := FindBuilding(s.buildings, index);
    var b := Changed(c, s.buildings[i], s.now);
    ChangedKeepsWorth(c, s.buildings[i], s.now, r);
    var b' := b.(stored := Resource(b.stored.resourceType, 0), incomeTime := s.now);
    EmptiedWorth(c, b, s.now, r);
    DescAmount(s.resources, b.stored.resourceType, -b.stored.num, r);
    WorthUpdate(c, s.buildings, i, b', s.now, r);
  }

  lemma EmptiedWorth(c: Config, b: Building, now: nat, r: nat)
    ensures BuildingWorth(c, b.(stored := Resource(b.stored.resourceType, 0), incomeTime := now), now, r)
         == BuildingWorth(c, b, now, r) - if b.stored.resourceType == r then b.stored.num else 0
  {
    hide Speed, TypeMade, RateMade;
  }

  /** A role whose wallet lacks a produced type loses the collected amount. */
  lemma CollectCanLose()
    ensures exists c, s, index, r ::
      Consistent(c) && Ready(c, s) && CheckIncome(c, s, index) == Success
      && Worth(c, OnIncome(c, s, index), r) < Worth(c, s, r)
  {
    var c := Config(map[], map[1 := LevelConfig(map[7 := []], map[7 := [3, 5]], map[7 := 10])]);
    var b := Building(7, 1, 1, Resource(3, 0), 0, 0);
    var s := State([], [b], 20);
    assert FindBuilding(s.buildings, 1) == 0;
    assert Changed(c, b, 20).stored == Resource(3, 100);
    CollectLedger(c, s, 1, 3);
    assert Worth(c, OnIncome(c, s, 1), 3) < Worth(c, s, 3);
  }

  // ----- every step and every run -----

  /** The wallet keeps its entries. */
  lemma StepKeepsEntries(c: Config, s: State, e: Event, r: nat)
    requires Sound(c)
    ensures Has(Step(c, s, e).resources, r) == Has(s.resources, r)
  {
    match e {
      case Build(index, t) =>
        if CheckBuild(c, s, index, t) == Success {
          CheckedPay(s.resources, c.unlockNeedMoney[t], r);
        }
      case Up(index) =>
        if CheckUp(c, s, index) == Success {
          var b := s.buildings[FindBuilding(s.buildings, index)];
          CheckedPay(s.resources, c.levels[b.level].upgradeNeedMoney[b.buildingType], r);
        }
      case Collect(index) =>
        if CheckIncome(c, s, index) == Success {
          var b := Changed(c, s.buildings[FindBuilding(s.buildings, index)], s.now);
          DescAmount(s.resources, b.stored.resourceType, -b.stored.num, r);
        }
      case Tick(_) =>
    }
  }

  lemma StepKeepsReady(c: Config, s: State, e: Event)
    requires Consistent(c) && Ready(c, s)
    ensures Ready(c, Step(c, s, e))
  {
    match e {
      case Build(index, t) =>
      case Up(index) =>
        if CheckUp(c, s, index) == Success {
          var i := FindBuilding(s.buildings, index);
          var b := s.buildings[i];
          assert Produces(c, b.buildingType, b.level);
          var b' := Changed(c, b, s.now);
          assert Labelled(c, b'.(level := b'.level + 1));
        }
      case Collect(index) =>
      case Tick(_) =>
    }
  }

  lemma StepLedger(c: Config, s: State, e: Event, r: nat)
    requires Sound(c)
    ensures Worth(c, Step(c, s, e), r) ==
            Worth(c, s, r) + Produced(c, s, e, r) - Spent(c, s, e, r) - Lost(c, s, e, r) + Moved(c, s, e, r)
  {
    match e {
      case Build(index, t) =>
        if CheckBuild(c, s, index, t) == Success {
          BuildLedger(c, s, index, t, r);
        }
      case Up(index) =>
        if CheckUp(c, s, index) == Success {
          UpLedger(c, s, index, r);
        }
      case Collect(index) =>
        if CheckIncome(c, s, index) == Success {
          CollectLedger(c, s, index, r);
        }
      case Tick(d) =>
        TimePasses(c, s.buildings, s.now, d, r);
    }
  }

  /** No building starts in the future. */
  ghost predicate Timely(s: State) {
    forall k :: 0 <= k < |s.buildings| ==> s.buildings[k].startTime <= s.now
  }

  lemma StepKeepsDistinct(c: Config, s: State, e: Event)
    requires Sound(c)
    ensures Distinct(s.buildings) ==> Distinct(Step(c, s, e).buildings)
    ensures Timely(s) ==> Timely(Step(c, s, e))
  {
    hide Speed, Pay, CheckAll;
  }

  function AllProduced(c: Config, s: State, events: seq<Event>, r: nat): int
    requires Sound(c)
    decreases |events|
  {
    if events == [] || Crashes(c, s, events[0]) then 0
    else Produced(c, s, events[0], r) + AllProduced(c, Step(c, s, events[0]), events[1..], r)
  }

  function AllSpent(c: Config, s: State, events: seq<Event>, r: nat): nat
    requires Sound(c)
    decreases |events|
  {
    if events == [] || Crashes(c, s, events[0]) then 0
    else Spent(c, s, events[0], r) + AllSpent(c, Step(c, s, events[0]), events[1..], r)
  }

  function AllLost(c: Config, s: State, events: seq<Event>, r: nat): int
    requires Sound(c)
    decreases |events|
  {
    if events == [] || Crashes(c, s, events[0]) then 0
    else Lost(c, s, events[0], r) + AllLost(c, Step(c, s, events[0]), events[1..], r)
  }

  function AllMoved(c: Config, s: State, events: seq<Event>, r: nat): int
    requires Sound(c)
    decreases |events|
  {
    if events == [] || Crashes(c, s, events[0]) then 0
    else Moved(c, s, events[0], r) + AllMoved(c, Step(c, s, events[0]), events[1..], r)
  }

  /** Over any run, up to a crash if there is one, what a role owns of a type is what it
      owned, and what its buildings produced at the rates of their levels, less the prices
      paid and what was collected without a wallet entry, and with the stores that have
      changed their type; and building indices stay distinct. */
  lemma {:induction false} Ledger(c: Config, s: State, events: seq<Event>, r: nat)
    requires Sound(c)
    ensures Worth(c, After(c, s, events), r) ==
            Worth(c, s, r) + AllProduced(c, s, events, r) - AllSpent(c, s, events, r)
            - AllLost(c, s, events, r) + AllMoved(c, s, events, r)
    ensures Distinct(s.buildings) ==> Distinct(After(c, s, events).buildings)
    decreases |events|
  {
    if events != [] && !Crashes(c, s, events[0]) {
      hide Worth, Produced, Spent, Lost, Moved, Step, Distinct, Sound;
      StepLedger(c, s, events[0], r);
      StepKeepsDistinct(c, s, events[0]);
      Ledger(c, Step(c, s, events[0]), events[1..], r);
    }
  }

  /** With tables in which a building type produces the same at all levels, no store that
      is marked rightly ever changes its type. */
  lemma {:induction false} NothingMoved(c: Config, s: State, events: seq<Event>, r: nat)
    requires Consistent(c) && Ready(c, s)
    ensures AllMoved(c, s, events, r) == 0
    decreases |events|
  {
    if events != [] && !Crashes(c, s, events[0]) {
      StepMovesNothing(c, s, events[0], r);
      StepKeepsReady(c, s, events[0]);
      hide Moved, Step, Consistent, Ready;
      NothingMoved(c, Step(c, s, events[0]), events[1..], r);
    }
  }

  lemma StepMovesNothing(c: Config, s: State, e: Event, r: nat)
    requires Consistent(c) && Ready(c, s)
    ensures Moved(c, s, e, r) == 0
  {
    if (e.Up? && CheckUp(c, s, e.index) == Success) || (e.Collect? && CheckIncome(c, s, e.index) == Success) {
      var b := s.buildings[FindBuilding(s.buildings, e.index)];
      assert Produces(c, b.buildingType, b.level);
      LabelledStays(c, b, r);
    }
  }

  /** Nothing is ever lost by a wallet that has an entry for everything that can be collected. */
  lemma {:induction false} NothingLost(c: Config, s: State, events: seq<Event>, r: nat)
    requires Sound(c) && WalletHolds(c, s.resources)
    ensures AllLost(c, s, events, r) == 0
    decreases |events|
  {
    if events != [] && !Crashes(c, s, events[0]) {
      var s' := Step(c, s, events[0]);
      forall l, t | l in c.levels && t in c.levels[l].incomeInterval
        ensures Has(s'.resources, TypeMade(c, t, l))
      {
        StepKeepsEntries(c, s, events[0], TypeMade(c, t, l));
      }
      hide Step, Speed, TypeMade, RateMade, Changed;
      assert Lost(c, s, events[0], r) == 0 by {
        StepLosesNothing(c, s, events[0], r);
      }
      NothingLost(c, s', events[1..], r);
    }
  }

  lemma StepLosesNothing(c: Config, s: State, e: Event, r: nat)
    requires Sound(c) && WalletHolds(c, s.resources)
    ensures Lost(c, s, e, r) == 0
  {
  }

  /** A building that can be collected from, and whose type the wallet does not know. */
  lemma OneIsLost(c: Config, rs: seq<Resource>, l: nat, t: nat) returns (s: State)
    requires Sound(c) && l in c.levels && t in c.levels[l].incomeInterval
    requires !Has(rs, TypeMade(c, t, l))
    ensures s.resources == rs && Ready(c, s)
    ensures AllLost(c, s, [Collect(2)], TypeMade(c, t, l)) == 1
  {
    var now, r := c.levels[l].incomeInterval[t], TypeMade(c, t, l);
    s := State(rs, [Building(t, 2, l, Resource(r, 1), now, 0)], now);
    assert FindBuilding(s.buildings, 2) == 0;
    assert CheckIncome(c, s, 2) == Success;
    assert Changed(c, s.buildings[0], now).stored == Resource(r, 1);
    assert AllLost(c, Step(c, s, Collect(2)), [], r) == 0;
    assert [Collect(2)][1..] == [];
  }

  /** No run from a wallet loses anything, whatever the buildings are, if and only if the
      wallet has an entry for everything that can be collected. */
  lemma NothingLostIff(c: Config, rs: seq<Resource>)
    requires Sound(c)
    ensures (forall s: State, events, r :: s.resources == rs && Ready(c, s) ==> AllLost(c, s, events, r) == 0)
            <==> WalletHolds(c, rs)
  {
    if WalletHolds(c, rs) {
      forall s: State, events, r | s.resources == rs && Ready(c, s)
        ensures AllLost(c, s, events, r) == 0
      {
        NothingLost(c, s, events, r);
      }
    } else {
      var l, t :| l in c.levels && t in c.levels[l].incomeInterval && !Has(rs, TypeMade(c, t, l));
      var s := OneIsLost(c, rs, l, t);
    }
  }

  // ----- wallets do not go below zero -----

  ghost predicate NonNegative(rs: seq<Resource>) {
    forall t :: Amount(rs, t) >= 0
  }

  /** The types in a price list are distinct. */
  ghost predicate DistinctTypes(costs: Amounts) {
    forall j, k :: 0 <= j < k < |costs| && j % 2 == 0 && k % 2 == 0 ==> costs[j] != costs[k]
  }

  /** After the check, paying leaves nothing below zero exactly when no type is asked for
      more in all than there is: the check looks at each price by itself. */
  lemma PayStaysNonNegative(rs: seq<Resource>, costs: Amounts)
    requires Paired(costs) && CheckAll(rs, costs)
    ensures NonNegative(Pay(rs, costs)) <==> forall t :: Total(costs, t) <= Amount(rs, t)
  {
    forall t
      ensures Amount(Pay(rs, costs), t) == Amount(rs, t) - Total(costs, t)
    {
      CheckedPay(rs, costs, t);
    }
  }

  /** Without a type occurring twice, the check is enough. */
  lemma {:induction false} DistinctTotals(rs: seq<Resource>, costs: Amounts, t: nat)
    requires Paired(costs) && DistinctTypes(costs) && CheckAll(rs, costs) && NonNegative(rs)
    ensures Total(costs, t) <= Amount(rs, t)
    decreases |costs|
  {
    if costs != [] {
      forall j, k | 0 <= j < k < |costs[2..]| && j % 2 == 0 && k % 2 == 0
        ensures costs[2..][j] != costs[2..][k]
      {
        assert costs[j + 2] != costs[k + 2];
      }
      DistinctTotals(rs, costs[2..], t);
      if costs[0] == t {
        NotAgain(costs[2..], t);
      }
    }
  }

  lemma {:induction false} NotAgain(costs: Amounts, t: nat)
    requires Paired(costs) && forall k :: 0 <= k < |costs| && k % 2 == 0 ==> costs[k] != t
    ensures Total(costs, t) == 0
    decreases |costs|
  {
    if costs != [] {
      forall k | 0 <= k < |costs[2..]| && k % 2 == 0
        ensures costs[2..][k] != t
      {
        assert costs[k + 2] != t;
      }
      NotAgain(costs[2..], t);
    }
  }

  /** A price list that names a type twice can take a wallet below zero. */
  lemma TwicePaid()
    ensures var rs, costs := [Resource(3, 10)], [3, 10, 3, 10];
            CheckAll(rs, costs) && !NonNegative(Pay(rs, costs))
  {
    var rs: seq<Resource>, costs: Amounts := [Resource(3, 10)], [3, 10, 3, 10];
    assert costs[2..] == [3, 10] && costs[2..][2..] == [];
    assert CheckAll(rs, costs[2..]);
    assert Total(costs[2..], 3) == 10 && Total(costs, 3) == 20;
    PayStaysNonNegative(rs, costs);
    assert Amount(rs, 3) == 10;
  }

  ghost predicate DistinctPrices(c: Config)
    requires Sound(c)
  {
    && (forall t :: t in c.unlockNeedMoney ==> DistinctTypes(c.unlockNeedMoney[t]))
    && (forall l, t :: l in c.levels && t in c.levels[l].upgradeNeedMoney ==>
          DistinctTypes(c.levels[l].upgradeNeedMoney[t]))
  }

  ghost predicate StoresNonNegative(bs: seq<Building>) {
    forall k :: 0 <= k < |bs| ==> bs[k].stored.num >= 0
  }

  lemma PaidNonNegative(rs: seq<Resource>, costs: Amounts)
    requires Paired(costs) && DistinctTypes(costs) && CheckAll(rs, costs) && NonNegative(rs)
    ensures NonNegative(Pay(rs, costs))
  {
    forall t
      ensures Total(costs, t) <= Amount(rs, t)
    {
      DistinctTotals(rs, costs, t);
    }
    PayStaysNonNegative(rs, costs);
  }

  lemma ChangedNonNegative(c: Config, b: Building, now: nat)
    requires b.stored.num >= 0 && b.startTime <= now
    ensures Changed(c, b, now).stored.num >= 0
  {
    var speed := Speed(c, b.buildingType, b.level);
    assert (now - b.startTime) * speed.num >= 0;
  }

  lemma CollectNonNegative(c: Config, s: State, index: nat)
    requires FindBuilding(s.buildings, index) < |s.buildings| && Timely(s)
    requires NonNegative(s.resources) && StoresNonNegative(s.buildings)
    ensures NonNegative(OnIncome(c, s, index).resources) && StoresNonNegative(OnIncome(c, s, index).buildings)
  {
    var b := s.buildings[FindBuilding(s.buildings, index)];
    ChangedNonNegative(c, b, s.now);
    var b' := Changed(c, b, s.now);
    hide Changed;
    forall t
      ensures Amount(OnIncome(c, s, index).resources, t) >= 0
    {
      DescAmount(s.resources, b'.stored.resourceType, -b'.stored.num, t);
    }
  }

  lemma StepKeepsNonNegative(c: Config, s: State, e: Event)
    requires Sound(c) && DistinctPrices(c) && Timely(s)
    requires NonNegative(s.resources) && StoresNonNegative(s.buildings)
    ensures NonNegative(Step(c, s, e).resources) && StoresNonNegative(Step(c, s, e).buildings)
  {
    match e {
      case Build(index, t) =>
        if CheckBuild(c, s, index, t) == Success {
          PaidNonNegative(s.resources, c.unlockNeedMoney[t]);
          ChangedNonNegative(c, Building(t, index, 1, Resource(INVALID_RESOURCE_TYPE, 0), s.now, 0), s.now);
          hide Changed, Pay, NonNegative;
        }
      case Up(index) =>
        if CheckUp(c, s, index) == Success {
          var b := s.buildings[FindBuilding(s.buildings, index)];
          PaidNonNegative(s.resources, c.levels[b.level].upgradeNeedMoney[b.buildingType]);
          ChangedNonNegative(c, b, s.now);
          hide Changed, Pay, NonNegative;
        }
      case Collect(index) =>
        if CheckIncome(c, s, index) == Success {
          CollectNonNegative(c, s, index);
          hide OnIncome;
        }
      case Tick(_) =>
    }
  }

  /** Over any run, no amount in the wallet and no store goes below zero. */
  lemma {:induction false} NeverBelowZero(c: Config, s: State, events: seq<Event>)
    requires Sound(c) && DistinctPrices(c) && Timely(s)
    requires NonNegative(s.resources) && StoresNonNegative(s.buildings)
    ensures NonNegative(After(c, s, events).resources) && StoresNonNegative(After(c, s, events).buildings)
    decreases |events|
  {
    if events != [] && !Crashes(c, s, events[0]) {
      StepKeepsNonNegative(c, s, events[0]);
      StepKeepsDistinct(c, s, events[0]);
      hide NonNegative, Sound, Timely, Step, DistinctPrices;
      NeverBelowZero(c, Step(c, s, events[0]), events[1..]);
    }
  }
}
