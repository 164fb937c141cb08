/** The building economy of game/src/role.cpp: what each operation does to the wallet and
    the buildings of a role, and the ledger that holds over every run. */
module Economy {
  const INVALID_RESOURCE_TYPE: nat := 0

  datatype Resource = Resource(resourceType: nat, num: int)

  datatype Building = Building(
    buildingType: nat, index: nat, level: nat, stored: Resource, startTime: nat, incomeTime: nat)

  /** A price or a production: resource types and amounts in turn. */
  type Amounts = seq<nat>

  datatype LevelConfig = LevelConfig(
    upgradeNeedMoney: map<nat, Amounts>, product: map<nat, Amounts>, incomeInterval: map<nat, nat>)

  datatype Config = Config(unlockNeedMoney: map<nat, Amounts>, levels: map<nat, LevelConfig>)

  datatype Code =
    | Success | Failed
    | BuildingNotExist | BuildingTypeNotExist | BuildingLock | BuildingSameIndex
    | BuildingResourceNotEnough | BuildingIncomeTooShort
    | Crash  // no code: a row missing from a table is read

  datatype State = State(resources: seq<Resource>, buildings: seq<Building>, now: nat)

  // ----- the wallet -----

  /** The first entry of the type, or the length of the list. */
  function FindResource(rs: seq<Resource>, t: nat): (i: nat)
    ensures i <= |rs| && (i < |rs| ==> rs[i].resourceType == t)
    ensures forall k :: 0 <= k < i ==> rs[k].resourceType != t
  {
    if rs == [] || rs[0].resourceType == t then 0 else 1 + FindResource(rs[1..], t)
  }

  predicate Has(rs: seq<Resource>, t: nat) {
    FindResource(rs, t) < |rs|
  }

  function Amount(rs: seq<Resource>, t: nat): int {
    var i := FindResource(rs, t);
    if i < |rs| then rs[i].num else 0
  }

  predicate CheckResource(rs: seq<Resource>, t: nat, num: int) {
    Has(rs, t) && Amount(rs, t) >= num
  }

  /** `desc_resource` with `num`, or adding `-num`. */
  function DescResource(rs: seq<Resource>, t: nat, num: int): seq<Resource> {
    var i := FindResource(rs, t);
    if i < |rs| then rs[i := Resource(t, rs[i].num - num)] else rs
  }

  predicate Paired(costs: Amounts) {
    |costs| % 2 == 0
  }

  /** Each price by itself is within the wallet. */
  predicate CheckAll(rs: seq<Resource>, costs: Amounts)
    requires Paired(costs)
  {
    costs == [] || (CheckResource(rs, costs[0], costs[1]) && CheckAll(rs, costs[2..]))
  }

  function Pay(rs: seq<Resource>, costs: Amounts): seq<Resource>
    requires Paired(costs)
    decreases |costs|
  {
    if costs == [] then rs else Pay(DescResource(rs, costs[0], costs[1]), costs[2..])
  }

  /** What a price list asks of one type in all. */
  function Total(costs: Amounts, t: nat): nat
    requires Paired(costs)
  {
    if costs == [] then 0 else (if costs[0] == t then costs[1] else 0) + Total(costs[2..], t)
  }

  // ----- the buildings -----

  function FindBuilding(bs: seq<Building>, index: nat): (i: nat)
    ensures i <= |bs| && (i < |bs| ==> bs[i].index == index)
    ensures forall k :: 0 <= k < i ==> bs[k].index != index
  {
    if bs == [] || bs[0].index == index then 0 else 1 + FindBuilding(bs[1..], index)
  }

  /** `get_resource_speed` into a fresh `resource_info`. */
  function Speed(c: Config, buildingType: nat, level: nat): Resource {
    if level in c.levels && buildingType in c.levels[level].product && |c.levels[level].product[buildingType]| >= 2 then
      Resource(c.levels[level].product[buildingType][0], c.levels[level].product[buildingType][1])
    else Resource(INVALID_RESOURCE_TYPE, 0)
  }

  predicate Produces(c: Config, buildingType: nat, level: nat) {
    level in c.levels && buildingType in c.levels[level].product && |c.levels[level].product[buildingType]| >= 2
  }

  /** The type that a building produces: the first number of its row. */
  function TypeMade(c: Config, buildingType: nat, level: nat): nat {
    if Produces(c, buildingType, level) then c.levels[level].product[buildingType][0] else INVALID_RESOURCE_TYPE
  }

  /** What it produces in one unit of time: the second number of its row. */
  function RateMade(c: Config, buildingType: nat, level: nat): nat {
    if Produces(c, buildingType, level) then c.levels[level].product[buildingType][1] else 0
  }

  lemma SpeedIsRow(c: Config, buildingType: nat, level: nat)
    ensures Speed(c, buildingType, level) ==
            Resource(TypeMade(c, buildingType, level), RateMade(c, buildingType, level))
  {
  }

  /** `on_building_changed` */
  function Changed(c: Config, b: Building, now: nat): Building {
    var speed := Speed(c, b.buildingType, b.level);
    b.(stored := Resource(speed.resourceType, b.stored.num + (now - b.startTime) * speed.num), startTime := now)
  }

  // ----- the operations -----

  /** `check_income_resource`, which reads the row of the building's level without
      asking whether there is one. */
  function CheckIncome(c: Config, s: State, index: nat): Code {
    var i := FindBuilding(s.buildings, index);
    if i == |s.buildings| then BuildingNotExist
    else if s.buildings[i].level !in c.levels then Crash
    else
      var b := s.buildings[i];
      var interval := c.levels[b.level].incomeInterval;
      if b.buildingType !in interval then Failed
      else if b.incomeTime + interval[b.buildingType] > s.now then BuildingIncomeTooShort
      else Success
  }

  function OnIncome(c: Config, s: State, index: nat): State
    requires FindBuilding(s.buildings, index) < |s.buildings|
  {
    var i := FindBuilding(s.buildings, index);
    var b := Changed(c, s.buildings[i], s.now);
    s.(resources := DescResource(s.resources, b.stored.resourceType, -b.stored.num),
       buildings := s.buildings[i := b.(stored := Resource(b.stored.resourceType, 0), incomeTime := s.now)])
  }

  predicate Sound(c: Config) {
    && (forall t :: t in c.unlockNeedMoney ==> Paired(c.unlockNeedMoney[t]))
    && (forall l, t :: l in c.levels && t in c.levels[l].upgradeNeedMoney ==> Paired(c.levels[l].upgradeNeedMoney[t]))
  }

  function CheckBuild(c: Config, s: State, index: nat, buildingType: nat): Code
    requires Sound(c)
  {
    if buildingType !in c.unlockNeedMoney then BuildingTypeNotExist
    else if FindBuilding(s.buildings, index) < |s.buildings| then BuildingSameIndex
    else if !CheckAll(s.resources, c.unlockNeedMoney[buildingType]) then BuildingLock
    else Success
  }

  function OnBuild(c: Config, s: State, index: nat, buildingType: nat): State
    requires Sound(c) && buildingType in c.unlockNeedMoney
  {
    var b := Building(buildingType, index, 1, Resource(INVALID_RESOURCE_TYPE, 0), s.now, 0);
    s.(resources := Pay(s.resources, c.unlockNeedMoney[buildingType]),
       buildings := s.buildings + [Changed(c, b, s.now)])
  }

  function CheckUp(c: Config, s: State, index: nat): Code
    requires Sound(c)
  {
    var i := FindBuilding(s.buildings, index);
    if i == |s.buildings| then BuildingNotExist
    else
      var b := s.buildings[i];
      if b.level !in c.levels || b.buildingType !in c.levels[b.level].upgradeNeedMoney then Failed
      else if !CheckAll(s.resources, c.levels[b.level].upgradeNeedMoney[b.buildingType]) then BuildingResourceNotEnough
      else Success
  }

  function OnUp(c: Config, s: State, index: nat): State
    requires Sound(c) && CheckUp(c, s, index) == Success
  {
    var i := FindBuilding(s.buildings, index);
    var b := s.buildings[i];
    var b' := Changed(c, b, s.now);
    s.(resources := Pay(s.resources, c.levels[b.level].upgradeNeedMoney[b.buildingType]),
       buildings := s.buildings[i := b'.(level := b'.level + 1)])
  }

  // ----- runs -----

  datatype Event = Tick(d: nat) | Build(index: nat, buildingType: nat) | Up(index: nat) | Collect(index: nat)

  /** The operation takes the process down. */
  predicate Crashes(c: Config, s: State, e: Event) {
    e.Collect? && CheckIncome(c, s, e.index) == Crash
  }

  function Step(c: Config, s: State, e: Event): State
    requires Sound(c)
  {
    match e
    case Tick(d) => s.(now := s.now + d)
    case Build(index, t) => if CheckBuild(c, s, index, t) == Success then OnBuild(c, s, index, t) else s
    case Up(index) => if CheckUp(c, s, index) == Success then OnUp(c, s, index) else s
    case Collect(index) => if CheckIncome(c, s, index) == Success then OnIncome(c, s, index) else s
  }

  /** Where a run stands, which ends early when it crashes. */
  function After(c: Config, s: State, events: seq<Event>): State
    requires Sound(c)
    decreases |events|
  {
    if events == [] || Crashes(c, s, events[0]) then s else After(c, Step(c, s, events[0]), events[1..])
  }

  predicate Crashed(c: Config, s: State, events: seq<Event>)
    requires Sound(c)
    decreases |events|
  {
    events != [] && (Crashes(c, s, events[0]) || Crashed(c, Step(c, s, events[0]), events[1..]))
  }

  // ----- paying -----

  lemma DescAmount(rs: seq<Resource>, t: nat, num: int, r: nat)
    ensures FindResource(DescResource(rs, t, num), r) == FindResource(rs, r)
    ensures |DescResource(rs, t, num)| == |rs|
    ensures Amount(DescResource(rs, t, num), r) == Amount(rs, r) - if r == t && Has(rs, t) then num else 0
  {
    SameFind(rs, DescResource(rs, t, num), r);
  }

  /** Amounts do not matter to finding. */
  lemma {:induction false} SameFind(rs: seq<Resource>, qs: seq<Resource>, r: nat)
    requires |rs| == |qs| && forall k :: 0 <= k < |rs| ==> rs[k].resourceType == qs[k].resourceType
    ensures FindResource(rs, r) == FindResource(qs, r)
  {
    if rs != [] {
      SameFind(rs[1..], qs[1..], r);
    }
  }

  /** Paying takes the whole price from every type, once each single price has been checked. */
  lemma {:induction false} PayAmount(rs: seq<Resource>, costs: Amounts, r: nat)
    requires Paired(costs) && forall k :: 0 <= k < |costs| && k % 2 == 0 ==> Has(rs, costs[k])
    ensures |Pay(rs, costs)| == |rs| && FindResource(Pay(rs, costs), r) == FindResource(rs, r)
    ensures Amount(Pay(rs, costs), r) == Amount(rs, r) - Total(costs, r)
    decreases |costs|
  {
    if costs != [] {
      var rs' := DescResource(rs, costs[0], costs[1]);
      DescAmount(rs, costs[0], costs[1], r);
      forall k | 0 <= k < |costs[2..]| && k % 2 == 0
        ensures Has(rs', costs[2..][k])
      {
        DescAmount(rs, costs[0], costs[1], costs[k + 2]);
        assert Has(rs, costs[k + 2]);
      }
      assert Has(rs, costs[0]);
      PayAmount(rs', costs[2..], r);
    }
  }

  lemma {:induction false} CheckedHas(rs: seq<Resource>, costs: Amounts, k: nat)
    requires Paired(costs) && CheckAll(rs, costs) && k < |costs| && k % 2 == 0
    ensures Has(rs, costs[k]) && Amount(rs, costs[k]) >= costs[k + 1]
    decreases |costs|
  {
    if k > 0 {
      CheckedHas(rs, costs[2..], k - 2);
    }
  }

  lemma CheckedPay(rs: seq<Resource>, costs: Amounts, r: nat)
    requires Paired(costs) && CheckAll(rs, costs)
    ensures |Pay(rs, costs)| == |rs| && FindResource(Pay(rs, costs), r) == FindResource(rs, r)
    ensures Amount(Pay(rs, costs), r) == Amount(rs, r) - Total(costs, r)
  {
    forall k | 0 <= k < |costs| && k % 2 == 0
      ensures Has(rs, costs[k])
    {
      CheckedHas(rs, costs, k);
    }
    PayAmount(rs, costs, r);
  }
}
