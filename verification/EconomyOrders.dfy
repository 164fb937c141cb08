/** What an order of a player does, told by the tables and by the lists before it. */
module EconomyOrders {
  import opened Economy

  /** The row of the table that says what a building produces, or none. */
  function Row(c: Config, b: Building): Amounts {
    if b.level in c.levels && b.buildingType in c.levels[b.level].product
       && |c.levels[b.level].product[b.buildingType]| >= 2
    then c.levels[b.level].product[b.buildingType]
    else []
  }

  /** A building whose production is in its store: the row's first number is the type, its
      second the rate. */
  ghost predicate BroughtUp(c: Config, b: Building, now: nat, b': Building) {
    var row := Row(c, b);
    && b'.buildingType == b.buildingType && b'.index == b.index && b'.startTime == now
    && (row == [] ==> b'.stored == Resource(INVALID_RESOURCE_TYPE, b.stored.num))
    && (row != [] ==> b'.stored == Resource(row[0], b.stored.num + (now - b.startTime) * row[1]))
  }

  lemma ChangedIsBroughtUp(c: Config, b: Building, now: nat)
    ensures BroughtUp(c, b, now, Changed(c, b, now))
    ensures Changed(c, b, now).level == b.level && Changed(c, b, now).incomeTime == b.incomeTime
  {
  }

  /** The amount of one type has grown, where the wallet has an entry for it; all else is as before. */
  ghost predicate Gained(rs: seq<Resource>, rs': seq<Resource>, t: nat, num: int) {
    && |rs'| == |rs|
    && forall k :: 0 <= k < |rs| ==>
         rs'[k] == if rs[k].resourceType == t && (forall j :: 0 <= j < k ==> rs[j].resourceType != t)
                   then Resource(t, rs[k].num + num) else rs[k]
  }

  /** The store of a building has been collected: it is empty and marked, the time is noted,
      and the wallet has it. */
  ghost predicate Collected(c: Config, s: State, i: nat, s': State)
    requires i < |s.buildings|
  {
    && s'.now == s.now && |s'.buildings| == |s.buildings|
    && (forall k :: 0 <= k < |s.buildings| && k != i ==> s'.buildings[k] == s.buildings[k])
    && exists b :: BroughtUp(c, s.buildings[i], s.now, b)
         && s'.buildings[i] == Building(b.buildingType, b.index, s.buildings[i].level,
                                        Resource(b.stored.resourceType, 0), s.now, s.now)
         && Gained(s.resources, s'.resources, b.stored.resourceType, b.stored.num)
  }

  lemma IncomeCollects(c: Config, s: State, index: nat)
    requires CheckIncome(c, s, index) == Success
    ensures Collected(c, s, FindBuilding(s.buildings, index), OnIncome(c, s, index))
  {
    var i := FindBuilding(s.buildings, index);
    ChangedIsBroughtUp(c, s.buildings[i], s.now);
    var b := Changed(c, s.buildings[i], s.now);
    hide Changed, BroughtUp;
    DescGains(s.resources, b.stored.resourceType, b.stored.num);
    assert BroughtUp(c, s.buildings[i], s.now, b);
  }

  lemma DescGains(rs: seq<Resource>, t: nat, num: int)
    ensures Gained(rs, DescResource(rs, t, -num), t, num)
  {
  }

  ghost predicate Within(rs: seq<Resource>, costs: Amounts, k: nat)
    requires k + 1 < |costs|
  {
    Has(rs, costs[k]) && Amount(rs, costs[k]) >= costs[k + 1]
  }

  /** Every single price is within the wallet. */
  lemma {:induction false} CheckAllIff(rs: seq<Resource>, costs: Amounts)
    requires Paired(costs)
    ensures CheckAll(rs, costs) <==> forall k :: 0 <= k < |costs| && k % 2 == 0 ==> Within(rs, costs, k)
    decreases |costs|
  {
    if CheckAll(rs, costs) {
      forall k | 0 <= k < |costs| && k % 2 == 0
        ensures Within(rs, costs, k)
      {
        CheckedHas(rs, costs, k);
      }
    }
    if costs != [] && forall k :: 0 <= k < |costs| && k % 2 == 0 ==> Within(rs, costs, k) {
      assert Within(rs, costs, 0);
      forall k | 0 <= k < |costs[2..]| && k % 2 == 0
        ensures Within(rs, costs[2..], k)
      {
        assert Within(rs, costs, k + 2);
      }
      CheckAllIff(rs, costs[2..]);
    }
  }

  /** Each type has lost what the price asks of it in all. */
  ghost predicate Paid(rs: seq<Resource>, rs': seq<Resource>, costs: Amounts)
    requires Paired(costs)
  {
    |rs'| == |rs| && forall t :: Amount(rs', t) == Amount(rs, t) - Total(costs, t) && (Has(rs', t) <==> Has(rs, t))
  }

  lemma PayPays(rs: seq<Resource>, costs: Amounts)
    requires Paired(costs) && CheckAll(rs, costs)
    ensures Paid(rs, Pay(rs, costs), costs)
  {
    forall t
      ensures |Pay(rs, costs)| == |rs|
      ensures Amount(Pay(rs, costs), t) == Amount(rs, t) - Total(costs, t) && (Has(Pay(rs, costs), t) <==> Has(rs, t))
    {
      CheckedPay(rs, costs, t);
    }
  }

  /** A building of level 1 has been put up and paid; it starts now, with nothing in store. */
  ghost predicate Built(c: Config, s: State, index: nat, t: nat, s': State)
    requires Sound(c) && t in c.unlockNeedMoney
  {
    var row := Row(c, Building(t, index, 1, Resource(INVALID_RESOURCE_TYPE, 0), s.now, 0));
    && s'.now == s.now && Paid(s.resources, s'.resources, c.unlockNeedMoney[t])
    && s'.buildings == s.buildings + [Building(t, index, 1,
         Resource(if row == [] then INVALID_RESOURCE_TYPE else row[0], 0), s.now, 0)]
  }

  lemma BuildBuilds(c: Config, s: State, index: nat, t: nat)
    requires Sound(c) && CheckBuild(c, s, index, t) == Success
    ensures Built(c, s, index, t, OnBuild(c, s, index, t))
  {
    var b := Building(t, index, 1, Resource(INVALID_RESOURCE_TYPE, 0), s.now, 0);
    PayPays(s.resources, c.unlockNeedMoney[t]);
    ChangedIsBroughtUp(c, b, s.now);
    var row := Row(c, b);
    assert row != [] ==> (s.now - s.now) * row[1] == 0;
    hide Changed, Pay, Paid, Row;
  }

  /** A building has been upgraded and paid; what it produced until now is in its store. */
  ghost predicate Upgraded(c: Config, s: State, i: nat, s': State)
    requires Sound(c) && i < |s.buildings|
  {
    var b := s.buildings[i];
    && b.level in c.levels && b.buildingType in c.levels[b.level].upgradeNeedMoney
    && s'.now == s.now && Paid(s.resources, s'.resources, c.levels[b.level].upgradeNeedMoney[b.buildingType])
    && |s'.buildings| == |s.buildings|
    && (forall k :: 0 <= k < |s.buildings| && k != i ==> s'.buildings[k] == s.buildings[k])
    && BroughtUp(c, b, s.now, s'.buildings[i])
    && s'.buildings[i].level == b.level + 1 && s'.buildings[i].incomeTime == b.incomeTime
  }

  lemma UpUpgrades(c: Config, s: State, index: nat)
    requires Sound(c) && CheckUp(c, s, index) == Success
    ensures Upgraded(c, s, FindBuilding(s.buildings, index), OnUp(c, s, index))
  {
    var i := FindBuilding(s.buildings, index);
    var b := s.buildings[i];
    PayPays(s.resources, c.levels[b.level].upgradeNeedMoney[b.buildingType]);
    ChangedIsBroughtUp(c, b, s.now);
    hide Changed, Pay, Paid, Row;
  }

  // ----- the answers -----

  /** The answer to a collection. */
  lemma IncomeAnswers(c: Config, s: State, index: nat)
    ensures var code, i := CheckIncome(c, s, index), FindBuilding(s.buildings, index);
      && (code == BuildingNotExist <==> forall k :: 0 <= k < |s.buildings| ==> s.buildings[k].index != index)
      && (i < |s.buildings| ==>
            var b := s.buildings[i];
            && (code == Crash <==> b.level !in c.levels)
            && (code == Failed <==> b.level in c.levels && b.buildingType !in c.levels[b.level].incomeInterval)
            && (code == Success <==>
                  && b.level in c.levels && b.buildingType in c.levels[b.level].incomeInterval
                  && s.now >= b.incomeTime + c.levels[b.level].incomeInterval[b.buildingType]))
  {
  }

  /** The answer to an order for a building. */
  lemma BuildAnswers(c: Config, s: State, index: nat, t: nat)
    requires Sound(c)
    ensures var code, taken := CheckBuild(c, s, index, t),
                               exists k :: 0 <= k < |s.buildings| && s.buildings[k].index == index;
      && (code == BuildingTypeNotExist <==> t !in c.unlockNeedMoney)
      && (code == BuildingSameIndex <==> t in c.unlockNeedMoney && taken)
      && (code == Success <==> t in c.unlockNeedMoney && !taken && CheckAll(s.resources, c.unlockNeedMoney[t]))
      && (code != Success ==> code in {BuildingTypeNotExist, BuildingSameIndex, BuildingLock})
  {
  }

  /** The answer to an order for an upgrade. */
  lemma UpAnswers(c: Config, s: State, index: nat)
    requires Sound(c)
    ensures var code, i := CheckUp(c, s, index), FindBuilding(s.buildings, index);
      && (code == BuildingNotExist <==> forall k :: 0 <= k < |s.buildings| ==> s.buildings[k].index != index)
      && (i < |s.buildings| ==>
            var b := s.buildings[i];
            var priced := b.level in c.levels && b.buildingType in c.levels[b.level].upgradeNeedMoney;
            && (code == Failed <==> !priced)
            && (code == Success <==>
                  priced && CheckAll(s.resources, c.levels[b.level].upgradeNeedMoney[b.buildingType]))
            && (code != Success && priced ==> code == BuildingResourceNotEnough))
  {
  }

  // ----- collections from one building -----

  /** The building at `i` with its index was last collected from at `t` or later. */
  ghost predicate CollectedSince(s: State, index: nat, i: nat, t: nat) {
    && i < |s.buildings| && FindBuilding(s.buildings, index) == i
    && s.buildings[i].incomeTime >= t && s.now >= t
  }

  lemma {:induction false} FindStays(bs: seq<Building>, bs': seq<Building>, index: nat)
    requires FindBuilding(bs, index) < |bs| <= |bs'|
    requires forall k :: 0 <= k < |bs| ==> bs'[k].index == bs[k].index
    ensures FindBuilding(bs', index) == FindBuilding(bs, index)
  {
    if bs[0].index != index {
      FindStays(bs[1..], bs'[1..], index);
    }
  }

  lemma StepKeepsIndices(c: Config, s: State, e: Event, k: nat)
    requires Sound(c) && k < |s.buildings|
    ensures |s.buildings| <= |Step(c, s, e).buildings| && s.now <= Step(c, s, e).now
    ensures var b, b' := s.buildings[k], Step(c, s, e).buildings[k];
      b'.index == b.index && (b'.incomeTime == b.incomeTime || b'.incomeTime == s.now)
  {
    hide Speed, Pay, CheckAll;
  }

  lemma StepKeepsCollected(c: Config, s: State, e: Event, index: nat, i: nat, t: nat)
    requires Sound(c) && CollectedSince(s, index, i, t)
    ensures CollectedSince(Step(c, s, e), index, i, t)
  {
    hide Step, FindBuilding;
    StepKeepsIndices(c, s, e, i);
    forall k | 0 <= k < |s.buildings|
      ensures Step(c, s, e).buildings[k].index == s.buildings[k].index
    {
      StepKeepsIndices(c, s, e, k);
    }
    FindStays(s.buildings, Step(c, s, e).buildings, index);
  }

  lemma {:induction false} RunKeepsCollected(c: Config, s: State, events: seq<Event>, index: nat, i: nat, t: nat)
    requires Sound(c) && CollectedSince(s, index, i, t)
    ensures CollectedSince(After(c, s, events), index, i, t)
    decreases |events|
  {
    hide CollectedSince, Step;
    if events != [] && !Crashes(c, s, events[0]) {
      StepKeepsCollected(c, s, events[0], index, i, t);
      RunKeepsCollected(c, Step(c, s, events[0]), events[1..], index, i, t);
    }
  }

  /** Over any run, two collections from one building are at least the interval apart that
      its level has at the second one. */
  lemma CollectionsApart(c: Config, s: State, events: seq<Event>, index: nat)
    requires Sound(c) && CheckIncome(c, s, index) == Success
    requires CheckIncome(c, After(c, OnIncome(c, s, index), events), index) == Success
    ensures var s' := After(c, OnIncome(c, s, index), events);
      var b := s'.buildings[FindBuilding(s'.buildings, index)];
      s'.now >= s.now + c.levels[b.level].incomeInterval[b.buildingType]
  {
    var i, s1 := FindBuilding(s.buildings, index), OnIncome(c, s, index);
    FindStays(s.buildings, s1.buildings, index);
    RunKeepsCollected(c, s1, events, index, i, s.now);
    IncomeAnswers(c, After(c, s1, events), index);
  }

  /** A rate of 5 for 20 units of time brings 100 of the type produced. */
  lemma CollectsOneHundred(c: Config, s: State)
    requires c == Config(map[], map[1 := LevelConfig(map[], map[7 := [3, 5]], map[7 := 10])])
    requires s == State([Resource(3, 0)], [Building(7, 2, 1, Resource(INVALID_RESOURCE_TYPE, 0), 0, 0)], 20)
    ensures CheckIncome(c, s, 2) == Success && OnIncome(c, s, 2).resources == [Resource(3, 100)]
  {
    assert FindBuilding(s.buildings, 2) == 0;
    assert Changed(c, s.buildings[0], 20).stored == Resource(3, 100);
  }
}
