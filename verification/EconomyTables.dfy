/** When collecting reads a row that its table does not have. */
module EconomyTables {
  import opened Economy
  import opened EconomyLedger

  ghost predicate LevelsKnown(c: Config, bs: seq<Building>) {
    forall k :: 0 <= k < |bs| ==> bs[k].level in c.levels
  }

  /** The level a successful operation gives to a building. */
  ghost predicate NextLevelKnown(c: Config, s: State, e: Event)
    requires Sound(c)
  {
    match e
    case Build(index, t) => CheckBuild(c, s, index, t) == Success ==> 1 in c.levels
    case Up(index) =>
      CheckUp(c, s, index) == Success ==> s.buildings[FindBuilding(s.buildings, index)].level + 1 in c.levels
    case _ => true
  }

  /** Collecting fails just where a building's level is missing. */
  lemma CrashesWithoutLevel(c: Config, s: State)
    requires Distinct(s.buildings)
    ensures (exists index :: Crashes(c, s, Collect(index))) <==> !LevelsKnown(c, s.buildings)
  {
    if !LevelsKnown(c, s.buildings) {
      var k :| 0 <= k < |s.buildings| && s.buildings[k].level !in c.levels;
      assert FindBuilding(s.buildings, s.buildings[k].index) == k;
      assert Crashes(c, s, Collect(s.buildings[k].index));
    }
  }

  /** An operation keeps every level in the table if and only if level 1 is there for a
      building that is built, and the level after its own for one that is upgraded. */
  lemma StepKeepsLevels(c: Config, s: State, e: Event)
    requires Sound(c) && LevelsKnown(c, s.buildings)
    ensures LevelsKnown(c, Step(c, s, e).buildings) <==> NextLevelKnown(c, s, e)
  {
    var s' := Step(c, s, e);
    match e {
      case Build(index, t) =>
        if CheckBuild(c, s, index, t) == Success {
          assert s'.buildings[..|s.buildings|] == s.buildings && s'.buildings[|s.buildings|].level == 1;
        }
      case Up(index) =>
        if CheckUp(c, s, index) == Success {
          var i := FindBuilding(s.buildings, index);
          assert s'.buildings[i].level == s.buildings[i].level + 1;
          assert forall k :: 0 <= k < |s.buildings| && k != i ==> s'.buildings[k] == s.buildings[k];
        }
      case Collect(index) =>
        if CheckIncome(c, s, index) == Success {
          var i := FindBuilding(s.buildings, index);
          assert s'.buildings[i].level == s.buildings[i].level;
          assert forall k :: 0 <= k < |s.buildings| && k != i ==> s'.buildings[k] == s.buildings[k];
        }
      case Tick(_) =>
    }
  }

  /** No operation leads out of the table: level 1 is there if anything can be built, and
      every level with a price for the next one is followed by it. */
  ghost predicate Closed(c: Config) {
    && (c.unlockNeedMoney != map[] ==> 1 in c.levels)
    && forall l, t :: l in c.levels && t in c.levels[l].upgradeNeedMoney ==> l + 1 in c.levels
  }

  lemma {:induction false} ClosedNeverCrashes(c: Config, s: State, events: seq<Event>)
    requires Sound(c) && Closed(c) && LevelsKnown(c, s.buildings)
    ensures !Crashed(c, s, events)
    decreases |events|
  {
    if events != [] {
      StepKeepsLevels(c, s, events[0]);
      ClosedNeverCrashes(c, Step(c, s, events[0]), events[1..]);
    }
  }

  // ----- a role that crashes -----

  /** A wallet that pays a price list. */
  function Enough(costs: Amounts, num: nat): seq<Resource>
    requires Paired(costs)
  {
    if costs == [] then [] else [Resource(costs[0], num)] + Enough(costs[2..], num)
  }

  function Largest(costs: Amounts): nat {
    if costs == [] then 0 else if costs[0] > Largest(costs[1..]) then costs[0] else Largest(costs[1..])
  }

  lemma {:induction false} LargestBounds(costs: Amounts, k: nat)
    requires k < |costs|
    ensures costs[k] <= Largest(costs)
  {
    if k > 0 {
      LargestBounds(costs[1..], k - 1);
    }
  }

  lemma {:induction false} EnoughHas(costs: Amounts, num: nat, k: nat)
    requires Paired(costs) && k < |costs| && k % 2 == 0
    ensures Has(Enough(costs, num), costs[k]) && Amount(Enough(costs, num), costs[k]) == num
    decreases |costs|
  {
    if k > 0 && costs[0] != costs[k] {
      EnoughHas(costs[2..], num, k - 2);
      assert Enough(costs, num)[1..] == Enough(costs[2..], num);
    }
  }

  lemma {:induction false} EnoughPays(costs: Amounts, rs: seq<Resource>)
    requires Paired(costs)
    requires forall k :: 0 <= k < |costs| && k % 2 == 0 ==> CheckResource(rs, costs[k], costs[k + 1])
    ensures CheckAll(rs, costs)
    decreases |costs|
  {
    if costs != [] {
      forall k | 0 <= k < |costs[2..]| && k % 2 == 0
        ensures CheckResource(rs, costs[2..][k], costs[2..][k + 1])
      {
        assert CheckResource(rs, costs[k + 2], costs[k + 2 + 1]);
      }
      assert CheckResource(rs, costs[0], costs[0 + 1]);
      EnoughPays(costs[2..], rs);
    }
  }

  /** Some wallet pays any price list. */
  lemma SomeWalletPays(costs: Amounts) returns (rs: seq<Resource>)
    requires Paired(costs)
    ensures CheckAll(rs, costs)
  {
    rs := Enough(costs, Largest(costs));
    forall k | 0 <= k < |costs| && k % 2 == 0
      ensures CheckResource(rs, costs[k], costs[k + 1])
    {
      EnoughHas(costs, Largest(costs), k);
      LargestBounds(costs, k + 1);
    }
    EnoughPays(costs, rs);
  }

  /** A run that leaves the table, then collects. */
  lemma LeavesTheTable(c: Config, s: State, e: Event, index: nat)
    requires Sound(c) && !Crashes(c, s, e) && Crashes(c, Step(c, s, e), Collect(index))
    ensures Crashed(c, s, [e, Collect(index)])
  {
    assert [e, Collect(index)][1..] == [Collect(index)];
    assert Crashed(c, Step(c, s, e), [Collect(index)]);
  }

  /** An upgrade from a level that none follows succeeds, and then collecting crashes. */
  lemma UpgradeLeaves(c: Config, l: nat, t: nat) returns (s: State)
    requires Sound(c) && l in c.levels && t in c.levels[l].upgradeNeedMoney && l + 1 !in c.levels
    ensures LevelsKnown(c, s.buildings) && Ready(c, s) && CheckUp(c, s, 2) == Success
    ensures !LevelsKnown(c, OnUp(c, s, 2).buildings) && Crashed(c, s, [Up(2), Collect(2)])
  {
    var rs := SomeWalletPays(c.levels[l].upgradeNeedMoney[t]);
    s := State(rs, [Building(t, 2, l, Resource(INVALID_RESOURCE_TYPE, 0), 0, 0)], 0);
    assert FindBuilding(s.buildings, 2) == 0;
    var s' := OnUp(c, s, 2);
    assert s'.buildings[0].level == l + 1 && FindBuilding(s'.buildings, 2) == 0;
    LeavesTheTable(c, s, Up(2), 2);
  }

  /** A first building at a missing level 1 is built, and then collecting crashes. */
  lemma BuildLeaves(c: Config, t: nat) returns (s: State)
    requires Sound(c) && t in c.unlockNeedMoney && 1 !in c.levels
    ensures LevelsKnown(c, s.buildings) && Ready(c, s) && Crashed(c, s, [Build(2, t), Collect(2)])
  {
    var rs := SomeWalletPays(c.unlockNeedMoney[t]);
    s := State(rs, [], 0);
    var s' := Step(c, s, Build(2, t));
    assert s'.buildings[0].level == 1 && FindBuilding(s'.buildings, 2) == 0;
    LeavesTheTable(c, s, Build(2, t), 2);
  }

  lemma OpenTableCrashes(c: Config)
    requires Sound(c) && !Closed(c)
    ensures exists s: State, events :: LevelsKnown(c, s.buildings) && Ready(c, s) && Crashed(c, s, events)
  {
    if c.unlockNeedMoney != map[] && 1 !in c.levels {
      var t :| t in c.unlockNeedMoney;
      var s := BuildLeaves(c, t);
    } else {
      var l, t :| l in c.levels && t in c.levels[l].upgradeNeedMoney && l + 1 !in c.levels;
      var s := UpgradeLeaves(c, l, t);
    }
  }

  /** No run from buildings at known levels crashes if and only if no operation leads
      out of the table. */
  lemma NeverCrashesIff(c: Config)
    requires Sound(c)
    ensures (forall s: State, events :: LevelsKnown(c, s.buildings) ==> !Crashed(c, s, events)) <==> Closed(c)
  {
    if Closed(c) {
      forall s: State, events | LevelsKnown(c, s.buildings)
        ensures !Crashed(c, s, events)
      {
        ClosedNeverCrashes(c, s, events);
      }
    } else {
      OpenTableCrashes(c);
    }
  }

  /** A level from `from` on that no level follows. */
  lemma {:induction false} SomeLast(levels: set<nat>, from: nat) returns (l: nat)
    requires from in levels
    ensures from <= l && l in levels && l + 1 !in levels
    decreases levels
  {
    if from + 1 in levels {
      l := SomeLast(levels - {from}, from + 1);
    } else {
      l := from;
    }
  }

  /** The loader gives every building type of a row a price for the next level, so a table
      with a building type in every row is never closed: `UpgradeLeaves` holds at its last
      level. */
  lemma TablesAreOpen(c: Config)
    requires c.levels != map[] && forall l :: l in c.levels ==> c.levels[l].upgradeNeedMoney != map[]
    ensures exists l, t :: l in c.levels && t in c.levels[l].upgradeNeedMoney && l + 1 !in c.levels
  {
    var first :| first in c.levels;
    var l := SomeLast(c.levels.Keys, first);
    var t :| t in c.levels[l].upgradeNeedMoney;
  }

  /** The buildings that `create_role` stores for a new role; no level is set. */
  function FirstBuildings(): seq<Building> {
    seq(5, (i: nat) => Building(i + 1, i * 10 + 2, 0, Resource(INVALID_RESOURCE_TYPE, 0), 0, 0))
  }

  /** A new role's buildings can be collected from only where the table has a level 0. */
  lemma NewRoleCrashes(c: Config, rs: seq<Resource>, now: nat, index: nat)
    ensures Crashes(c, State(rs, FirstBuildings(), now), Collect(index)) <==>
            0 !in c.levels && index in {2, 12, 22, 32, 42}
  {
    var bs := FirstBuildings();
    if index in {2, 12, 22, 32, 42} {
      assert bs[index / 10].index == index;
    }
  }
}
