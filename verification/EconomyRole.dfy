/** `class role` of game/src/role.cpp, as far as its buildings go: each operation updates
    the wallet and the buildings in place as its step says. */
module EconomyRole {
  import opened Economy
  import opened EconomyOrders

  class Role {
    const config: Config
    var resources: seq<Resource>
    var buildings: seq<Building>

    constructor (config: Config)
      ensures this.config == config && resources == [] && buildings == []
    {
      this.config := config;
      resources, buildings := [], [];
    }

    ghost function View(now: nat): State
      reads this
    {
      State(resources, buildings, now)
    }

    /** `std::find` over the resources */
    method FindResourceOf(t: nat) returns (i: nat)
      ensures i == FindResource(resources, t)
    {
      i := 0;
      while i < |resources| && resources[i].resourceType != t
        invariant i <= |resources| && forall k :: 0 <= k < i ==> resources[k].resourceType != t
      {
        i := i + 1;
      }
    }

    /** `std::find` over the buildings */
    method FindBuildingAt(index: nat) returns (i: nat)
      ensures i == FindBuilding(buildings, index)
    {
      i := 0;
      while i < |buildings| && buildings[i].index != index
        invariant i <= |buildings| && forall k :: 0 <= k < i ==> buildings[k].index != index
      {
        i := i + 1;
      }
    }

    method CheckResourceOf(t: nat, num: int) returns (ok: bool)
      ensures ok == CheckResource(resources, t, num)
    {
      var i := FindResourceOf(t);
      if i == |resources| {
        return false;
      }
      return resources[i].num >= num;
    }

    /** `desc_resource` */
    method Desc(t: nat, num: int)
      modifies `resources
      ensures resources == DescResource(old(resources), t, num)
    {
      var i := FindResourceOf(t);
      if i < |resources| {
        resources := resources[i := Resource(t, resources[i].num - num)];
      }
    }

    /** The loop over a price list that checks each price. */
    method CheckPrices(costs: Amounts) returns (ok: bool)
      requires Paired(costs)
      ensures ok == CheckAll(resources, costs)
    {
      var i := 0;
      while i < |costs|
        invariant i <= |costs| && i % 2 == 0 && CheckAll(resources, costs) == CheckAll(resources, costs[i..])
      {
        var enough := CheckResourceOf(costs[i], costs[i + 1]);
        if !enough {
          return false;
        }
        assert costs[i..][2..] == costs[i + 2..];
        i := i + 2;
      }
      ok := true;
    }

    /** The loop over a price list that pays each price. */
    method PayPrices(costs: Amounts)
      requires Paired(costs)
      modifies `resources
      ensures resources == Pay(old(resources), costs)
    {
      var i := 0;
      while i < |costs|
        invariant i <= |costs| && i % 2 == 0 && Pay(old(resources), costs) == Pay(resources, costs[i..])
      {
        Desc(costs[i], costs[i + 1]);
        assert costs[i..][2..] == costs[i + 2..];
        i := i + 2;
      }
    }

    /** `income_resource` */
    method IncomeResource(index: nat, now: nat) returns (code: Code)
      requires Sound(config)
      modifies this
      ensures code == CheckIncome(config, old(View(now)), index)
      ensures View(now) == Step(config, old(View(now)), Collect(index))
      // by the tables: the store and what was produced go to the wallet
      ensures code == Success ==>
                Collected(config, old(View(now)), FindBuilding(old(buildings), index), View(now))
      ensures code != Success ==> View(now) == old(View(now))
    {
      hide BroughtUp, Gained;
      if CheckIncome(config, View(now), index) == Success {
        IncomeCollects(config, View(now), index);
      }
      code := CheckIncomeResource(index, now);
      if code == Success {
        OnIncomeResource(index, now);
      }
    }

    method CheckIncomeResource(index: nat, now: nat) returns (code: Code)
      ensures code == CheckIncome(config, View(now), index)
    {
      var i := FindBuildingAt(index);
      if i == |buildings| {
        return BuildingNotExist;
      }
      if buildings[i].level !in config.levels {
        return Crash;  // a null row is read
      }
      var interval := config.levels[buildings[i].level].incomeInterval;
      if buildings[i].buildingType !in interval {
        return Failed;
      }
      if buildings[i].incomeTime + interval[buildings[i].buildingType] > now {
        return BuildingIncomeTooShort;
      }
      return Success;
    }

    method OnIncomeResource(index: nat, now: nat)
      requires FindBuilding(buildings, index) < |buildings|
      modifies this
      ensures View(now) == OnIncome(config, old(View(now)), index)
    {
      var at := FindBuildingAt(index);
      var b := OnBuildingChanged(buildings[at], now);
      buildings := buildings[at := b];
      var i := FindResourceOf(b.stored.resourceType);
      if i == |resources| {
        // the new entry is never stored
      } else {
        resources := resources[i := Resource(b.stored.resourceType, resources[i].num + b.stored.num)];
      }
      buildings := buildings[at := b.(stored := Resource(b.stored.resourceType, 0), incomeTime := now)];
    }

    /** `on_building_changed`, with `get_resource_speed` */
    method OnBuildingChanged(b: Building, now: nat) returns (b': Building)
      ensures b' == Changed(config, b, now)
    {
      var speed := GetResourceSpeed(b.buildingType, b.level);
      var stored := Resource(speed.resourceType, b.stored.num + (now - b.startTime) * speed.num);
      b' := b.(stored := stored, startTime := now);
    }

    method GetResourceSpeed(buildingType: nat, level: nat) returns (speed: Resource)
      ensures speed == Speed(config, buildingType, level)
    {
      speed := Resource(INVALID_RESOURCE_TYPE, 0);
      if level !in config.levels {
        return;
      }
      var product := config.levels[level].product;
      if buildingType !in product {
        return;
      }
      if |product[buildingType]| < 2 {
        return;
      }
      speed := Resource(product[buildingType][0], product[buildingType][1]);
    }

    /** `build_building` */
    method BuildBuilding(index: nat, buildingType: nat, now: nat) returns (code: Code)
      requires Sound(config)
      modifies this
      ensures code == CheckBuild(config, old(View(now)), index, buildingType)
      ensures View(now) == Step(config, old(View(now)), Build(index, buildingType))
      ensures code == Success ==> Built(config, old(View(now)), index, buildingType, View(now))
      ensures code != Success ==> View(now) == old(View(now))
    {
      hide Paid, Row;
      if CheckBuild(config, View(now), index, buildingType) == Success {
        BuildBuilds(config, View(now), index, buildingType);
      }
      if buildingType !in config.unlockNeedMoney {
        return BuildingTypeNotExist;
      }
      var i := FindBuildingAt(index);
      if i < |buildings| {
        return BuildingSameIndex;
      }
      var enough := CheckPrices(config.unlockNeedMoney[buildingType]);
      if !enough {
        return BuildingLock;
      }
      code := Success;
      PayPrices(config.unlockNeedMoney[buildingType]);
      var b := Building(buildingType, index, 1, Resource(INVALID_RESOURCE_TYPE, 0), now, 0);
      b := OnBuildingChanged(b, now);
      buildings := buildings + [b];
    }

    /** `up_building_level` */
    method UpBuildingLevel(index: nat, now: nat) returns (code: Code)
      requires Sound(config)
      modifies this
      ensures code == CheckUp(config, old(View(now)), index)
      ensures View(now) == Step(config, old(View(now)), Up(index))
      ensures code == Success ==> Upgraded(config, old(View(now)), FindBuilding(old(buildings), index), View(now))
      ensures code != Success ==> View(now) == old(View(now))
    {
      hide Paid, BroughtUp;
      if CheckUp(config, View(now), index) == Success {
        UpUpgrades(config, View(now), index);
      }
      var i := FindBuildingAt(index);
      if i == |buildings| {
        return BuildingNotExist;
      }
      var b := buildings[i];
      if b.level !in config.levels {
        return Failed;
      }
      var needs := config.levels[b.level].upgradeNeedMoney;
      if b.buildingType !in needs {
        return Failed;
      }
      var enough := CheckPrices(needs[b.buildingType]);
      if !enough {
        return BuildingResourceNotEnough;
      }
      code := Success;
      PayPrices(needs[b.buildingType]);
      b := OnBuildingChanged(b, now);
      buildings := buildings[i := b.(level := b.level + 1)];
    }
  }
}
