/** In which order the timers of one second fire: the one that came first to the slot goes
    first, then the others, the latest first. What came to a slot, and when, is told from
    the additions and their due seconds alone. */
module TimerOrder {
  import opened Sequences
  import opened TimerWheel
  import opened TimerAgenda
  import opened TimerRuns

  // ----- the order of a slot, by the order of arrival -----

  function Backwards(q: seq<nat>): (r: seq<nat>)
    ensures |r| == |q| && forall k :: 0 <= k < |q| ==> r[k] == q[|q| - 1 - k]
  {
    if q == [] then [] else Backwards(q[1..]) + [q[0]]
  }

  /** The first to come, and then the others, the latest first. */
  function Order(q: seq<nat>): seq<nat> {
    if q == [] then [] else [q[0]] + Backwards(q[1..])
  }

  /** The level above. */
  function Upper(level: Level): Level
    requires level != Day
  {
    match level
    case Second => Minute
    case Minute => Hour
    case Hour => Day
  }

  /** The unit of the level above that a unit lies in. */
  function UpperUnit(level: Level, u: nat): nat
    requires level != Day
  {
    match level
    case Second => u / 60
    case Minute => u / 60
    case Hour => u / 24
  }

  /** Those of the timers `q` that are due in a unit, in the order of `q`. */
  function Chosen(q: seq<nat>, dues: seq<int>, level: Level, u: nat): seq<nat> {
    if q == [] then []
    else
      (if 1 <= q[0] <= |dues| && dues[q[0] - 1] >= 0 && Unit(level, dues[q[0] - 1]) == u then [q[0]] else [])
      + Chosen(q[1..], dues, level, u)
  }

  /** The timers that have come to a row for one of its units, in turn: those filed at that
      level when they were added and, when the unit above begins, those that come down, in
      the order in which they stood there. */
  function Arrived(events: seq<Event>, level: Level, u: nat): seq<nat>
    decreases |events|, 3 - Rank(level)
  {
    if events == [] then []
    else
      var before := events[..|events| - 1];
      match events[|events| - 1]
      case Add(delay) =>
        var due := Due(Seconds(before), delay);
        Arrived(before, level, u)
        + if FileLevel(delay) == level && due >= 0 && Unit(level, due) == u then [|DueTimes(before)| + 1] else []
      case SecondPasses =>
        if level != Day && Rolls(Upper(level), Seconds(events))
           && UpperUnit(level, u) == Unit(Upper(level), Seconds(events))
        then
          Arrived(before, level, u)
          + Chosen(Order(Arrived(events, Upper(level), UpperUnit(level, u))), DueTimes(events), level, u)
        else Arrived(before, level, u)
  }

  lemma {:induction false} BackwardsSnoc(q: seq<nat>, x: nat)
    ensures Backwards(q + [x]) == [x] + Backwards(q)
  {
    if q == [] {
      assert q + [x] == [x];
    } else {
      assert (q + [x])[1..] == q[1..] + [x];
      BackwardsSnoc(q[1..], x);
    }
  }

  lemma OrderSnoc(q: seq<nat>, x: nat)
    ensures Order(q + [x]) == if q == [] then [x] else [q[0], x] + Order(q)[1..]
  {
    if q == [] {
      assert q + [x] == [x];
    } else {
      assert (q + [x])[1..] == q[1..] + [x];
      BackwardsSnoc(q[1..], x);
    }
  }

  // ----- lists of timers -----

  lemma IdsInsert(list: seq<Timer>, x: Timer)
    ensures Ids(Insert(list, x)) == if list == [] then [x.id] else [list[0].id, x.id] + Ids(list)[1..]
  {
    if list != [] {
      assert Insert(list, x)[1..] == [x] + list[1..];
      assert ([x] + list[1..])[1..] == list[1..];
    }
  }

  lemma {:induction false} IdsLength(list: seq<Timer>)
    ensures |Ids(list)| == |list|
  {
    if list != [] {
      IdsLength(list[1..]);
    }
  }

  /** A newcomer to a slot. */
  lemma InsertOrders(list: seq<Timer>, x: Timer, q: seq<nat>)
    requires Ids(list) == Order(q)
    ensures Ids(Insert(list, x)) == Order(q + [x.id])
  {
    IdsLength(list);
    IdsInsert(list, x);
    OrderSnoc(q, x.id);
  }

  function InsertAll(list: seq<Timer>, more: seq<Timer>): seq<Timer>
    decreases |more|
  {
    if more == [] then list else InsertAll(Insert(list, more[0]), more[1..])
  }

  lemma {:induction false} InsertAllOrders(list: seq<Timer>, more: seq<Timer>, q: seq<nat>)
    requires Ids(list) == Order(q)
    ensures Ids(InsertAll(list, more)) == Order(q + Ids(more))
    decreases |more|
  {
    hide Insert, Order;
    if more == [] {
      assert q + Ids(more) == q;
    } else {
      InsertOrders(list, more[0], q);
      InsertAllOrders(Insert(list, more[0]), more[1..], q + [more[0].id]);
      assert q + [more[0].id] + Ids(more[1..]) == q + Ids(more);
    }
  }

  /** The timers of a list that come down to slot `j`. */
  function Down(list: seq<Timer>, level: Level, j: nat): seq<Timer>
    requires level != Day
  {
    if list == [] then []
    else (if UnpackSlot(level, list[0]) == j then [list[0]] else []) + Down(list[1..], level, j)
  }

  lemma {:induction false} CascadeInserts(level: Level, slots: Slots, list: seq<Timer>, j: nat)
    requires level != Day && |slots| == Size(level) && j < |slots|
    requires forall timer :: timer in list ==> WellPacked(timer)
    ensures Cascade(level, slots, list)[j] == InsertAll(slots[j], Down(list, level, j))
    decreases |list|
  {
    hide UnpackSlot, Insert, WellPacked;
    if list != [] {
      assert WellPacked(list[0]);
      UnpackInRange(level, list[0]);
      var i := UnpackSlot(level, list[0]);
      CascadeInserts(level, slots[i := Insert(slots[i], list[0])], list[1..], j);
      if i == j {
        assert ([list[0]] + Down(list[1..], level, j))[1..] == Down(list[1..], level, j);
      } else {
        assert [] + Down(list[1..], level, j) == Down(list[1..], level, j);
      }
    }
  }

  /** Whose slot number is that of a unit is due in it. */
  ghost predicate Matches(list: seq<Timer>, dues: seq<int>, level: Level, u: nat, j: nat)
    requires level != Day
  {
    forall timer :: timer in list ==>
      && 1 <= timer.id <= |dues| && dues[timer.id - 1] >= 0
      && (UnpackSlot(level, timer) == j <==> Unit(level, dues[timer.id - 1]) == u)
  }

  lemma {:induction false} DownIsChosen(list: seq<Timer>, dues: seq<int>, level: Level, u: nat, j: nat)
    requires level != Day && Matches(list, dues, level, u, j)
    ensures Ids(Down(list, level, j)) == Chosen(Ids(list), dues, level, u)
  {
    hide UnpackSlot, Unit;
    if list != [] {
      DownIsChosen(list[1..], dues, level, u, j);
      var rest := Down(list[1..], level, j);
      assert list[0] in list;
      assert Ids(list)[0] == list[0].id && Ids(list)[1..] == Ids(list[1..]);
      assert ([list[0]] + rest)[1..] == rest && [] + rest == rest;
    }
  }

  // ----- the order of all slots -----

  function SlotOf(level: Level, u: nat): (i: nat)
    ensures i < Size(level)
  {
    match level
    case Second => u % 60
    case Minute => u % 60
    case Hour => u % 24
    case Day => u % 30
  }

  lemma DigitSlot(level: Level, t: nat)
    ensures Digit(level, t) == SlotOf(level, Unit(level, t))
  {
    match level case Second => case Minute => case Hour => case Day =>
  }

  lemma SlotsApart(level: Level, base: nat, u: nat, v: nat)
    requires base <= u < base + Size(level) && base <= v < base + Size(level)
    ensures SlotOf(level, u) == SlotOf(level, v) <==> u == v
  {
    if u <= v {
      SameDigit(u, v);
    } else {
      SameDigit(v, u);
    }
  }

  /** The units that a row has slots for. */
  predicate Window(level: Level, u: nat, now: nat, rolled: nat) {
    if Rank(level) < rolled then Unit(level, now) <= u < Unit(level, now) + Size(level)
    else Unit(level, now) < u <= Unit(level, now) + Size(level)
  }

  /** Every slot holds what has come for its unit, in order. While a second begins, the
      levels of rank `rolled - 1` and above have received what comes down. */
  ghost predicate InOrder(rows: Rows, old': seq<Event>, new': seq<Event>, now: nat, rolled: nat) {
    rows.Sized() && forall level: Level, u: nat :: Window(level, u, now, rolled) ==>
      Ids(rows.At(level)[SlotOf(level, u)]) ==
      Order(Arrived(if Rank(level) + 1 >= rolled then new' else old', level, u))
  }

  lemma UpperBegins(level: Level, now: nat, u: nat)
    requires level != Day && Rolls(Upper(level), now)
    ensures UpperUnit(level, u) == Unit(Upper(level), now) <==>
            Unit(level, now) <= u < Unit(level, now) + Size(level)
  {
    match level {
      case Second => assert now == 60 * (now / 60);
      case Minute =>
        assert now == 3600 * (now / 3600);
        Decompose(now);
      case Hour =>
        assert now == 86400 * (now / 86400);
        Decompose(now);
    }
  }

  lemma ArrivedInSecond(events: seq<Event>, level: Level, u: nat)
    requires events != [] && events[|events| - 1].SecondPasses?
    ensures var before, now := events[..|events| - 1], Seconds(events);
      Arrived(events, level, u) ==
      if level != Day && Rolls(Upper(level), now) && UpperUnit(level, u) == Unit(Upper(level), now) then
        Arrived(before, level, u)
        + Chosen(Order(Arrived(events, Upper(level), UpperUnit(level, u))), DueTimes(events), level, u)
      else Arrived(before, level, u)
  {
  }

  /** Nothing has come yet for a unit that is not within one turn. */
  lemma {:induction false} FutureEmpty(events: seq<Event>, level: Level, u: nat)
    requires u > Unit(level, Seconds(events)) + Size(level)
    ensures Arrived(events, level, u) == []
    decreases |events|
  {
    if events != [] {
      hide Due, Order, Chosen;
      var before := events[..|events| - 1];
      match events[|events| - 1] {
        case Add(delay) =>
          DueUnits(Seconds(before), delay);
          FutureEmpty(before, level, u);
        case SecondPasses =>
          UnitStep(level, Seconds(before));
          if level != Day && Rolls(Upper(level), Seconds(events)) {
            UpperBegins(level, Seconds(events), u);
          }
          FutureEmpty(before, level, u);
          ArrivedInSecond(events, level, u);
      }
    }
  }

  /** When a row's hand moves, the unit that is now within one turn is empty. */
  lemma NextEmpty(events: seq<Event>, level: Level)
    requires events != [] && events[|events| - 1].SecondPasses? && Rolls(level, Seconds(events))
    ensures Arrived(events, level, Unit(level, Seconds(events)) + Size(level)) == []
  {
    hide Due, Order, Chosen;
    var before, now := events[..|events| - 1], Seconds(events);
    UnitStep(level, Seconds(before));
    FutureEmpty(before, level, Unit(level, now) + Size(level));
    if level != Day && Rolls(Upper(level), now) {
      UpperBegins(level, now, Unit(level, now) + Size(level));
    }
    ArrivedInSecond(events, level, Unit(level, now) + Size(level));
  }

  // ----- a timer is added -----

  lemma ArrivedAfterAdd(events: seq<Event>, delay: nat, level: Level, u: nat)
    ensures var due := Due(Seconds(events), delay);
      && due >= 0
      && Arrived(events + [Add(delay)], level, u) ==
         Arrived(events, level, u)
         + if FileLevel(delay) == level && Unit(level, due) == u then [|DueTimes(events)| + 1] else []
  {
    hide Due, Order, Chosen, FileLevel;
    DueUnits(Seconds(events), delay);
    assert (events + [Add(delay)])[..|events|] == events;
  }

  /** The slot that a timer is filed in. */
  lemma FiledAt(w: Wheel, now: nat, id: nat, delay: nat, l: Level, u: nat)
    requires w.rows.Sized() && Hands(w, now) && Window(l, u, now, 0)
    ensures var level, due := FileLevel(delay), Due(now, delay);
      && due > now && AddTimer(w, id, delay).rows.Sized()
      && var before := w.rows.At(l)[SlotOf(l, u)];
         AddTimer(w, id, delay).rows.At(l)[SlotOf(l, u)] ==
         if l == level && u == Unit(l, due) then Insert(before, NewTimer(w, id, delay)) else before
  {
    hide NewTimer, Due, Insert, SlotOf;
    var level, due := FileLevel(delay), Due(now, delay);
    DueUnits(now, delay);
    NewTimerPlaced(w, id, delay, now);
    DigitSlot(level, due);
    if l == level {
      SlotsApart(level, Unit(level, now) + 1, u, Unit(level, due));
    }
  }

  lemma AddOrdered(w: Wheel, events: seq<Event>, delay: nat)
    requires Hands(w, Seconds(events)) && InOrder(w.rows, events, events, Seconds(events), 0)
    ensures var w' := AddTimer(w, |DueTimes(events)| + 1, delay);
            InOrder(w'.rows, events + [Add(delay)], events + [Add(delay)], Seconds(events), 0)
  {
    hide NewTimer, Due, Order, Insert, Hands, DueTimes, SlotOf, AddTimer, Arrived, Window, FileLevel, Seconds;
    var now, id := Seconds(events), |DueTimes(events)| + 1;
    var w' := AddTimer(w, id, delay);
    AddKeepsSized(w, id, delay);
    forall l: Level, u: nat | Window(l, u, now, 0)
      ensures Ids(w'.rows.At(l)[SlotOf(l, u)]) == Order(Arrived(events + [Add(delay)], l, u))
    {
      FiledAt(w, now, id, delay, l, u);
      ArrivedAfterAdd(events, delay, l, u);
      NewTimerId(w, id, delay);
      InsertOrders(w.rows.At(l)[SlotOf(l, u)], NewTimer(w, id, delay), Arrived(events, l, u));
      assert Arrived(events, l, u) + [] == Arrived(events, l, u);
    }
  }

  lemma AddKeepsSized(w: Wheel, id: nat, delay: nat)
    requires w.rows.Sized()
    ensures AddTimer(w, id, delay).rows.Sized()
  {
  }

  lemma NewTimerId(w: Wheel, id: nat, delay: nat)
    ensures NewTimer(w, id, delay).id == id
  {
  }

  // ----- a second passes -----

  /** What the agenda says of a timer is what the run says of its number. */
  ghost predicate Agrees(agenda: Agenda, dues: seq<int>) {
    forall timer :: timer in agenda ==> 1 <= timer.id <= |dues| && dues[timer.id - 1] == agenda[timer]
  }

  /** The slot that comes down matches by slot numbers as by due seconds. */
  lemma ComesDown(rows: Rows, agenda: Agenda, dues: seq<int>, now: nat, level: Level, u: nat)
    requires rows.Valid() && level != Second && Rolls(level, now)
    requires AllPlaced(rows, agenda, now, Rank(level) + 1) && Agrees(agenda, dues)
    requires Unit(Lower(level), now) <= u < Unit(Lower(level), now) + Size(Lower(level))
    ensures Matches(rows.At(level)[SlotOf(level, Unit(level, now))], dues, Lower(level), u, SlotOf(Lower(level), u))
  {
    hide UnpackSlot, Rolls, SlotOf;
    var i, low := SlotOf(level, Unit(level, now)), Lower(level);
    DigitSlot(level, now);
    forall timer | timer in rows.At(level)[i]
      ensures 1 <= timer.id <= |dues| && dues[timer.id - 1] >= 0
      ensures UnpackSlot(low, timer) == SlotOf(low, u) <==> Unit(low, dues[timer.id - 1]) == u
    {
      var due := agenda[timer];
      assert Placed(level, i, timer, due, now, Rank(level) + 1);
      UnitIsDigit(level, now, due);
      LowerUnits(level, now, due);
      DigitSlot(low, due);
      SlotsApart(low, Unit(low, now), Unit(low, due), u);
    }
  }

  lemma DropAt(rows: Rows, level: Level, i: nat, l: Level, j: nat)
    requires rows.Valid() && level != Second && i < Size(level) && j < Size(l)
    ensures Drop(rows, level, i).At(l)[j] ==
            if l == level then (if j == i then [] else rows.At(l)[j])
            else if l == Lower(level) then InsertAll(rows.At(l)[j], Down(rows.At(level)[i], l, j))
            else rows.At(l)[j]
  {
    hide UnpackSlot, Insert, WellPacked, Cascade;
    var low := Lower(level);
    assert |rows.At(low)| == Size(low) && |rows.At(level)| == Size(level) && |rows.At(l)| == Size(l);
    if l == low {
      CascadeInserts(low, rows.At(low), rows.At(level)[i], j);
    }
  }

  /** One cascade. */
  lemma DropOrdered(rows: Rows, agenda: Agenda, old': seq<Event>, new': seq<Event>, level: Level)
    requires rows.Valid() && level != Second && new' == old' + [SecondPasses] && Rolls(level, Seconds(new'))
    requires AllPlaced(rows, agenda, Seconds(new'), Rank(level) + 1) && Agrees(agenda, DueTimes(new'))
    requires InOrder(rows, old', new', Seconds(new'), Rank(level) + 1)
    ensures var i := SlotOf(level, Unit(level, Seconds(new')));
            InOrder(Drop(rows, level, i), old', new', Seconds(new'), Rank(level))
  {
    hide Drop, Arrived, Order, Rolls, SlotOf, UnpackSlot, AllPlaced, DueTimes, Seconds, Insert, Down;
    var now, low := Seconds(new'), Lower(level);
    var i := SlotOf(level, Unit(level, now));
    var d := Drop(rows, level, i);
    assert new'[..|new'| - 1] == old';
    NextEmpty(new', level);
    forall l: Level, u: nat | Window(l, u, now, Rank(level))
      ensures Ids(d.At(l)[SlotOf(l, u)]) ==
              Order(Arrived(if Rank(l) + 1 >= Rank(level) then new' else old', l, u))
    {
      DropAt(rows, level, i, l, SlotOf(l, u));
      if l == level {
        EmptiedOrdered(rows, old', new', now, level, u);
      } else if l == low {
        LowOrdered(rows, agenda, old', new', level, u);
      } else {
        assert Window(l, u, now, Rank(level) + 1);
      }
    }
  }

  lemma EmptiedOrdered(rows: Rows, old': seq<Event>, new': seq<Event>, now: nat, level: Level, u: nat)
    requires InOrder(rows, old', new', now, Rank(level) + 1) && Window(level, u, now, Rank(level))
    requires Arrived(new', level, Unit(level, now) + Size(level)) == []
    ensures if SlotOf(level, u) == SlotOf(level, Unit(level, now)) then Order(Arrived(new', level, u)) == []
            else Ids(rows.At(level)[SlotOf(level, u)]) == Order(Arrived(new', level, u))
  {
    hide Arrived;
    var base := Unit(level, now);
    if u < base + Size(level) {
      SlotsApart(level, base, u, base);
      assert Window(level, u, now, Rank(level) + 1);
    } else {
      TurnsRound(level, base);
    }
  }

  lemma TurnsRound(level: Level, u: nat)
    ensures SlotOf(level, u + Size(level)) == SlotOf(level, u)
  {
    match level {
      case Second => DigitSum60(u, 60);
      case Minute => DigitSum60(u, 60);
      case Hour => DigitSum24(u, 24);
      case Day => DigitSum30(u, 30);
    }
  }

  lemma LowOrdered(rows: Rows, agenda: Agenda, old': seq<Event>, new': seq<Event>, level: Level, u: nat)
    requires rows.Valid() && level != Second && new' == old' + [SecondPasses] && Rolls(level, Seconds(new'))
    requires AllPlaced(rows, agenda, Seconds(new'), Rank(level) + 1) && Agrees(agenda, DueTimes(new'))
    requires InOrder(rows, old', new', Seconds(new'), Rank(level) + 1)
    requires Window(Lower(level), u, Seconds(new'), Rank(level))
    ensures var low := Lower(level);
      var list := rows.At(level)[SlotOf(level, Unit(level, Seconds(new')))];
      Ids(InsertAll(rows.At(low)[SlotOf(low, u)], Down(list, low, SlotOf(low, u)))) == Order(Arrived(new', low, u))
  {
    hide Order, Rolls, SlotOf, UnpackSlot, AllPlaced, DueTimes, Seconds, Arrived, Insert;
    var now, low := Seconds(new'), Lower(level);
    var list := rows.At(level)[SlotOf(level, Unit(level, now))];
    assert new'[..|new'| - 1] == old' && Upper(low) == level;
    UpperBegins(low, now, u);
    ComesDown(rows, agenda, DueTimes(new'), now, level, u);
    DownIsChosen(list, DueTimes(new'), low, u, SlotOf(low, u));
    assert Window(level, Unit(level, now), now, Rank(level) + 1);
    assert Window(low, u, now, Rank(level) + 1);
    InsertAllOrders(rows.At(low)[SlotOf(low, u)], Down(list, low, SlotOf(low, u)), Arrived(old', low, u));
    ArrivedInSecond(new', low, u);
  }

  lemma BeginOrdered(rows: Rows, old': seq<Event>, new': seq<Event>)
    requires new' == old' + [SecondPasses] && InOrder(rows, old', old', Seconds(old'), 0)
    ensures Seconds(new') == Seconds(old') + 1
    ensures InOrder(rows, old', new', Seconds(new'), Rolled(Seconds(new')))
  {
    hide Order, Chosen, Rolls, SlotOf, Rolled, Due;
    assert new'[..|new'| - 1] == old';
    var now := Seconds(new');
    forall l: Level, u: nat | Window(l, u, now, Rolled(now))
      ensures Ids(rows.At(l)[SlotOf(l, u)]) ==
              Order(Arrived(if Rank(l) + 1 >= Rolled(now) then new' else old', l, u))
    {
      RolledRank(l, now);
      UnitStep(l, Seconds(old'));
      assert Window(l, u, Seconds(old'), 0);
      if l != Day {
        RolledRank(Upper(l), now);
      }
      ArrivedInSecond(new', l, u);
    }
  }

  lemma DayOrdered(w: Wheel, agenda: Agenda, old': seq<Event>, new': seq<Event>)
    requires new' == old' + [SecondPasses] && Agrees(agenda, DueTimes(new')) && w.rows.Valid()
    requires var now := Seconds(new');
      && AllPlaced(w.rows, agenda, now, 4) && InOrder(w.rows, old', new', now, 4)
      && now > 0 && Rolls(Day, now) && w.hour == 24 && w.day == Digit(Day, now - 1)
    ensures InOrder(ProcDay(w).rows, old', new', Seconds(new'), 3)
  {
    var now := Seconds(new');
    assert (w.day + 1) % 30 == Digit(Day, now) by {
      UnitStep(Day, now - 1);
      DigitSum30(now - 1, 1);
      DigitSum30((now - 1) / 86400, 1);
    }
    hide InOrder, AllPlaced, Seconds, DueTimes, Drop, Rolls;
    DigitSlot(Day, now);
    DropOrdered(w.rows, agenda, old', new', Day);
  }

  lemma HourOrdered(w: Wheel, agenda: Agenda, old': seq<Event>, new': seq<Event>)
    requires new' == old' + [SecondPasses] && Agrees(agenda, DueTimes(new')) && w.rows.Valid()
    requires var now := Seconds(new');
      && AllPlaced(w.rows, agenda, now, Rolled(now)) && InOrder(w.rows, old', new', now, Rolled(now))
      && now > 0 && Rolls(Hour, now) && w.minute == 60
      && w.hour == Digit(Hour, now - 1) && w.day == Digit(Day, now - 1)
    ensures InOrder(ProcHour(w).rows, old', new', Seconds(new'), 2)
  {
    hide InOrder, AllPlaced, Seconds, DueTimes, Drop, ProcDay, ProcHour, Agrees;
    var now := Seconds(new');
    var w1 := w.(hour := w.hour + 1);
    HourTurns(now);
    RolledRank(Hour, now);
    RolledRank(Day, now);
    var w2 := HourCarry(w, agenda, now);
    if w1.hour >= 24 {
      DayOrdered(w1, agenda, old', new');
    }
    HourUnfolds(w, w2, Digit(Hour, now));
    DigitSlot(Hour, now);
    DropOrdered(w2.rows, agenda, old', new', Hour);
  }

  lemma MinuteOrdered(w: Wheel, agenda: Agenda, old': seq<Event>, new': seq<Event>)
    requires new' == old' + [SecondPasses] && Agrees(agenda, DueTimes(new')) && w.rows.Valid()
    requires var now := Seconds(new');
      && AllPlaced(w.rows, agenda, now, Rolled(now)) && InOrder(w.rows, old', new', now, Rolled(now))
      && now > 0 && Rolls(Minute, now) && w.second == 60
      && w.minute == Digit(Minute, now - 1) && w.hour == Digit(Hour, now - 1) && w.day == Digit(Day, now - 1)
    ensures InOrder(ProcMinute(w).rows, old', new', Seconds(new'), 1)
  {
    hide InOrder, AllPlaced, Seconds, DueTimes, Drop, ProcHour, ProcMinute, Agrees;
    var now := Seconds(new');
    var w1 := w.(minute := w.minute + 1);
    MinuteTurns(now);
    RolledRank(Minute, now);
    RolledRank(Hour, now);
    var w2 := MinuteCarry(w, agenda, now);
    if w1.minute >= 60 {
      HourOrdered(w1, agenda, old', new');
    }
    MinuteUnfolds(w, w2, Digit(Minute, now));
    DigitSlot(Minute, now);
    DropOrdered(w2.rows, agenda, old', new', Minute);
  }

  /** One second: what fires is what has come for it, in order. */
  lemma TickOrdered(w: Wheel, agenda: Agenda, old': seq<Event>)
    requires Holds(w, agenda, Seconds(old')) && Agrees(agenda, DueTimes(old'))
    requires InOrder(w.rows, old', old', Seconds(old'), 0)
    ensures var (w', fired), new' := Tick(w), old' + [SecondPasses];
      && InOrder(w'.rows, new', new', Seconds(new'), 0)
      && Ids(fired) == Order(Arrived(new', Second, Seconds(new')))
  {
    hide InOrder, AllPlaced, Drop, ProcMinute, Agrees, Rolled, Order, Arrived, Ids, SlotOf;
    var new' := old' + [SecondPasses];
    assert new'[..|new'| - 1] == old';
    BeginOrdered(w.rows, old', new');
    BeginSecond(w.rows, agenda, Seconds(old'));
    var now := Seconds(new');
    var w1 := w.(second := w.second + 1);
    SecondTurns(now);
    RolledRank(Second, now);
    RolledRank(Minute, now);
    var w2 := SecondCarry(w, agenda, now);
    if w1.second >= 60 {
      MinuteOrdered(w1, agenda, old', new');
    }
    TickUnfolds(w, w2, Digit(Second, now));
    DigitSlot(Second, now);
    FireOrdered(w2.rows, old', new', SlotOf(Second, now));
  }

  lemma FireOrdered(rows: Rows, old': seq<Event>, new': seq<Event>, i: nat)
    requires new' == old' + [SecondPasses] && InOrder(rows, old', new', Seconds(new'), 1)
    requires i == SlotOf(Second, Seconds(new'))
    ensures Ids(rows.seconds[i]) == Order(Arrived(new', Second, Seconds(new')))
    ensures InOrder(rows.With(Second, rows.seconds[i := []]), new', new', Seconds(new'), 0)
  {
    hide Arrived, Order, SlotOf;
    var now, rows' := Seconds(new'), rows.With(Second, rows.seconds[i := []]);
    assert new'[..|new'| - 1] == old';
    NextEmpty(new', Second);
    assert Window(Second, now, now, 1);
    forall l: Level, u: nat | Window(l, u, now, 0)
      ensures Ids(rows'.At(l)[SlotOf(l, u)]) == Order(Arrived(new', l, u))
    {
      if l == Second {
        EmptiedOrdered(rows, old', new', now, Second, u);
      } else {
        assert Window(l, u, now, 1);
        assert rows'.At(l) == rows.At(l);
      }
    }
  }

  // ----- whole runs -----

  lemma PendingAgrees(added: seq<Timer>, dues: seq<int>, now: nat)
    requires |dues| == |added| && Numbered(added)
    ensures Agrees(Pending(added, dues, now), dues)
  {
  }

  lemma {:induction false} RunOrdered(events: seq<Event>)
    ensures InOrder(Exec(events).wheel.rows, events, events, Seconds(events), 0)
    decreases |events|
  {
    hide InOrder, Tick, AddTimer, Holds, Pending, Agrees, Seconds, DueTimes;
    if events == [] {
      StartOrdered();
    } else {
      var before := events[..|events| - 1];
      var h, dues := Exec(before), DueTimes(before);
      RunOrdered(before);
      RunHolds(before);
      assert events == before + [events[|events| - 1]];
      match events[|events| - 1] {
        case Add(delay) =>
          HandsOf(h, dues);
          AddOrdered(h.wheel, before, delay);
          SameSeconds(before, delay);
        case SecondPasses =>
          PendingAgrees(h.added, dues, |h.fired|);
          TickOrdered(h.wheel, Pending(h.added, dues, |h.fired|), before);
      }
    }
  }

  lemma HandsOf(h: History, dues: seq<int>)
    requires Follows(h, dues)
    ensures Hands(h.wheel, |h.fired|)
  {
  }

  lemma SameSeconds(events: seq<Event>, delay: nat)
    ensures Seconds(events + [Add(delay)]) == Seconds(events)
  {
    assert (events + [Add(delay)])[..|events|] == events;
  }

  lemma StartOrdered()
    ensures InOrder(Exec([]).wheel.rows, [], [], Seconds([]), 0)
  {
    var rows := InitialWheel().rows;
    forall l: Level, u: nat | Window(l, u, 0, 0)
      ensures Ids(rows.At(l)[SlotOf(l, u)]) == Order(Arrived([], l, u))
    {
    }
  }

  /** Nothing comes for a second that is over. */
  lemma PastStays(events: seq<Event>, e: Event, t: nat)
    requires t <= Seconds(events)
    ensures Arrived(events + [e], Second, t) == Arrived(events, Second, t)
  {
    assert (events + [e])[..|events|] == events;
    if e.Add? {
      ArrivedAfterAdd(events, e.delay, Second, t);
      DueUnits(Seconds(events), e.delay);
    } else {
      hide Order, Chosen, Due;
      ArrivedInSecond(events + [e], Second, t);
      if Rolls(Minute, Seconds(events + [e])) {
        UpperBegins(Second, Seconds(events + [e]), t);
      }
    }
  }

  /** For every run and every second of it: the timers fire in the order of what has come
      for the second. */
  lemma {:induction false} FiresInOrder(events: seq<Event>, t: nat)
    requires 1 <= t <= Seconds(events)
    ensures |Exec(events).fired| == Seconds(events)
    ensures Ids(Exec(events).fired[t - 1]) == Order(Arrived(events, Second, t))
    decreases |events|
  {
    hide InOrder, Tick, AddTimer, Holds, Pending, Agrees, DueTimes, Order, Arrived;
    RunHolds(events);
    var before, e := events[..|events| - 1], events[|events| - 1];
    assert events == before + [e];
    RunHolds(before);
    if t <= Seconds(before) {
      FiresInOrder(before, t);
      PastStays(before, e, t);
    } else {
      var h, dues := Exec(before), DueTimes(before);
      RunOrdered(before);
      PendingAgrees(h.added, dues, |h.fired|);
      TickOrdered(h.wheel, Pending(h.added, dues, |h.fired|), before);
    }
  }

  // ----- timers that are filed alike -----

  /** The delays asked for, in turn. */
  function Delays(events: seq<Event>): (delays: seq<nat>)
    ensures |delays| == |DueTimes(events)|
  {
    if events == [] then []
    else
      Delays(events[..|events| - 1]) +
      match events[|events| - 1]
      case Add(delay) => [delay]
      case SecondPasses => []
  }

  function Numbers(n: nat): (q: seq<nat>)
    ensures |q| == n && forall k :: 0 <= k < n ==> q[k] == k + 1
  {
    if n == 0 then [] else Numbers(n - 1) + [n]
  }

  /** The timers due in a unit, in the order in which they were added. */
  function InTurn(dues: seq<int>, level: Level, u: nat): seq<nat> {
    Chosen(Numbers(|dues|), dues, level, u)
  }

  /** Every timer due in a unit has a delay of that level. */
  ghost predicate FiledAlike(dues: seq<int>, delays: seq<nat>, filed: Level, level: Level, u: nat)
    requires |delays| == |dues|
  {
    forall k :: 0 <= k < |dues| && dues[k] >= 0 && Unit(level, dues[k]) == u ==> FileLevel(delays[k]) == filed
  }

  lemma {:induction false} ChosenMembers(q: seq<nat>, dues: seq<int>, level: Level, u: nat, id: nat)
    ensures id in Chosen(q, dues, level, u) <==>
            id in q && 1 <= id <= |dues| && dues[id - 1] >= 0 && Unit(level, dues[id - 1]) == u
  {
    if q != [] {
      ChosenMembers(q[1..], dues, level, u, id);
      assert q == [q[0]] + q[1..];
    }
  }

  lemma ChosenNone(dues: seq<int>, level: Level, u: nat)
    ensures Chosen([], dues, level, u) == []
  {
  }

  lemma ChosenFirst(q: seq<nat>, dues: seq<int>, level: Level, u: nat)
    requires q != []
    ensures Chosen(q, dues, level, u) == Chosen([q[0]], dues, level, u) + Chosen(q[1..], dues, level, u)
  {
    assert [q[0]][1..] == [];
  }

  lemma {:induction false} ChosenSnoc(q: seq<nat>, x: nat, dues: seq<int>, level: Level, u: nat)
    ensures Chosen(q + [x], dues, level, u) == Chosen(q, dues, level, u) + Chosen([x], dues, level, u)
  {
    hide Chosen;
    if q == [] {
      assert q + [x] == [x];
      ChosenNone(dues, level, u);
    } else {
      assert (q + [x])[1..] == q[1..] + [x];
      ChosenSnoc(q[1..], x, dues, level, u);
      ChosenFirst(q, dues, level, u);
      ChosenFirst(q + [x], dues, level, u);
      Associative(Chosen([q[0]], dues, level, u), Chosen(q[1..], dues, level, u), Chosen([x], dues, level, u));
    }
  }

  /** Later additions do not matter to the choice. */
  lemma {:induction false} ChosenStays(q: seq<nat>, dues: seq<int>, more: seq<int>, level: Level, u: nat)
    requires forall id :: id in q ==> id <= |dues|
    ensures Chosen(q, dues + more, level, u) == Chosen(q, dues, level, u)
  {
    if q != [] {
      assert forall id :: id in q[1..] ==> id in q;
      ChosenStays(q[1..], dues, more, level, u);
      assert q[0] in q;
    }
  }

  lemma OrderMembers(q: seq<nat>, id: nat)
    ensures id in Order(q) <==> id in q
  {
    if q != [] {
      var r := q[1..];
      assert q == [q[0]] + r;
      forall k | 0 <= k < |r|
        ensures r[k] in Backwards(r)
      {
        assert Backwards(r)[|r| - 1 - k] == r[k];
      }
    }
  }

  lemma AddedLast(events: seq<Event>, delay: nat)
    ensures DueTimes(events + [Add(delay)]) == DueTimes(events) + [Due(Seconds(events), delay)]
    ensures Delays(events + [Add(delay)]) == Delays(events) + [delay]
    ensures Seconds(events + [Add(delay)]) == Seconds(events)
  {
    assert (events + [Add(delay)])[..|events|] == events;
  }

  lemma NoneAdded(events: seq<Event>)
    ensures DueTimes(events + [SecondPasses]) == DueTimes(events)
    ensures Delays(events + [SecondPasses]) == Delays(events)
    ensures Seconds(events + [SecondPasses]) == Seconds(events) + 1
  {
    assert (events + [SecondPasses])[..|events|] == events;
  }

  /** What has come to a row was filed there or above. */
  lemma {:induction false} ArrivedFiled(events: seq<Event>, level: Level, u: nat, id: nat)
    requires id in Arrived(events, level, u)
    ensures 1 <= id <= |DueTimes(events)| && Rank(FileLevel(Delays(events)[id - 1])) >= Rank(level)
    decreases |events|, 3 - Rank(level)
  {
    hide Order, Chosen, Due, FileLevel;
    var before, e := events[..|events| - 1], events[|events| - 1];
    assert events == before + [e];
    match e {
      case Add(delay) =>
        AddedLast(before, delay);
        ArrivedAfterAdd(before, delay, level, u);
        if id in Arrived(before, level, u) {
          ArrivedFiled(before, level, u, id);
        }
      case SecondPasses =>
        NoneAdded(before);
        ArrivedInSecond(events, level, u);
        if id in Arrived(before, level, u) {
          ArrivedFiled(before, level, u, id);
        } else {
          var above := Arrived(events, Upper(level), UpperUnit(level, u));
          ChosenMembers(Order(above), DueTimes(events), level, u, id);
          OrderMembers(above, id);
          ArrivedFiled(events, Upper(level), UpperUnit(level, u), id);
        }
    }
  }

  lemma AlikeBefore(dues: seq<int>, delays: seq<nat>, due: int, delay: nat, filed: Level, level: Level, u: nat)
    requires |delays| == |dues| && FiledAlike(dues + [due], delays + [delay], filed, level, u)
    ensures FiledAlike(dues, delays, filed, level, u)
    ensures due >= 0 && Unit(level, due) == u ==> FileLevel(delay) == filed
  {
    forall k | 0 <= k < |dues| && dues[k] >= 0 && Unit(level, dues[k]) == u
      ensures FileLevel(delays[k]) == filed
    {
      assert (dues + [due])[k] == dues[k] && (delays + [delay])[k] == delays[k];
    }
    assert (dues + [due])[|dues|] == due && (delays + [delay])[|dues|] == delay;
  }

  lemma InTurnAdd(dues: seq<int>, due: int, level: Level, u: nat)
    ensures InTurn(dues + [due], level, u) ==
            InTurn(dues, level, u) + if due >= 0 && Unit(level, due) == u then [|dues| + 1] else []
  {
    var n := |dues|;
    ChosenSnoc(Numbers(n), n + 1, dues + [due], level, u);
    ChosenStays(Numbers(n), dues, [due], level, u);
    assert (dues + [due])[n] == due;
    assert [n + 1][1..] == [];
  }

  /** If all timers due in a unit are filed at its level, they come in turn. */
  lemma {:induction false} ComesInTurn(events: seq<Event>, level: Level, u: nat)
    requires FiledAlike(DueTimes(events), Delays(events), level, level, u)
    ensures Arrived(events, level, u) == InTurn(DueTimes(events), level, u)
    decreases |events|
  {
    hide Order, Chosen, Due, FileLevel, InTurn, DueTimes, Delays, Seconds;
    if events == [] {
      NoneInTurn(level, u);
    } else {
      var before, e := events[..|events| - 1], events[|events| - 1];
      assert events == before + [e];
      match e {
        case Add(delay) =>
          var due := Due(Seconds(before), delay);
          AddedLast(before, delay);
          ArrivedAfterAdd(before, delay, level, u);
          AlikeBefore(DueTimes(before), Delays(before), due, delay, level, level, u);
          ComesInTurn(before, level, u);
          InTurnAdd(DueTimes(before), due, level, u);
        case SecondPasses =>
          NoneAdded(before);
          ComesInTurn(before, level, u);
          ArrivedInSecond(events, level, u);
          if level != Day {
            NoneFromAbove(events, level, level, u);
          }
      }
    }
  }

  lemma NoneInTurn(level: Level, u: nat)
    ensures InTurn(DueTimes([]), level, u) == [] == Arrived([], level, u)
  {
  }

  lemma NoneFromAbove(events: seq<Event>, filed: Level, level: Level, u: nat)
    requires level != Day && Rank(filed) <= Rank(level)
    requires FiledAlike(DueTimes(events), Delays(events), filed, level, u)
    ensures Chosen(Order(Arrived(events, Upper(level), UpperUnit(level, u))), DueTimes(events), level, u) == []
  {
    hide Order, Chosen, FileLevel, Arrived, DueTimes, Delays;
    var above := Arrived(events, Upper(level), UpperUnit(level, u));
    var chosen := Chosen(Order(above), DueTimes(events), level, u);
    forall id
      ensures id !in chosen
    {
      ChosenMembers(Order(above), DueTimes(events), level, u, id);
      OrderMembers(above, id);
      if id in above {
        ArrivedFiled(events, Upper(level), UpperUnit(level, u), id);
      }
    }
    FirstMember(chosen);
  }

  lemma FirstMember(q: seq<nat>)
    ensures q == [] || exists id :: id in q
  {
    assert q == [] || q[0] in q;
  }

  /** If every timer due at a second has a delay below 60, the first one added fires first,
      and then the others, the latest first. */
  lemma ShortDelaysFire(events: seq<Event>, t: nat)
    requires 1 <= t <= Seconds(events)
    requires forall k :: 0 <= k < |DueTimes(events)| && DueTimes(events)[k] == t ==> Delays(events)[k] < 60
    ensures |Exec(events).fired| == Seconds(events)
    ensures Ids(Exec(events).fired[t - 1]) == Order(InTurn(DueTimes(events), Second, t))
  {
    FiresInOrder(events, t);
    ComesInTurn(events, Second, t);
  }

  lemma {:induction false} NoFirstMinute(events: seq<Event>)
    ensures Arrived(events, Minute, 0) == []
    decreases |events|
  {
    hide Order, Chosen, Due, FileLevel;
    if events != [] {
      var before, e := events[..|events| - 1], events[|events| - 1];
      assert events == before + [e];
      NoFirstMinute(before);
      match e {
        case Add(delay) =>
          ArrivedAfterAdd(before, delay, Minute, 0);
          DueUnits(Seconds(before), delay);
        case SecondPasses =>
          ArrivedInSecond(events, Minute, 0);
          assert Rolls(Hour, Seconds(events)) ==> Seconds(events) == 3600 * (Seconds(events) / 3600);
      }
    }
  }

  /** Before the minute of a second begins, nothing has come for the second; then the minute
      comes down. */
  lemma {:induction false} MinuteComesDown(events: seq<Event>, t: nat)
    requires FiledAlike(DueTimes(events), Delays(events), Minute, Minute, t / 60)
    ensures Arrived(events, Second, t) ==
            if Seconds(events) >= 60 * (t / 60) then
              Chosen(Order(Arrived(events, Minute, t / 60)), DueTimes(events), Second, t)
            else []
    decreases |events|
  {
    hide Order, Chosen, Due, FileLevel, DueTimes, Delays, Seconds;
    if events == [] {
      NothingPassed();
      NoneChosen(DueTimes([]), t);
    } else {
      var before, e := events[..|events| - 1], events[|events| - 1];
      assert events == before + [e];
      match e {
        case Add(delay) =>
          var due := Due(Seconds(before), delay);
          AddedLast(before, delay);
          AlikeBefore(DueTimes(before), Delays(before), due, delay, Minute, Minute, t / 60);
          MinuteComesDown(before, t);
          MinuteAfterAdd(before, delay, t);
          ArrivedChosenStays(before, due, t);
        case SecondPasses =>
          NoneAdded(before);
          MinuteComesDown(before, t);
          NoFirstMinute(before);
          NoFirstMinute(events);
          NoneChosen(DueTimes(events), t);
          MinuteBegins(events, t);
      }
    }
  }

  lemma NothingPassed()
    ensures Seconds([]) == 0 && forall level, u :: Arrived([], level, u) == []
  {
  }

  lemma NoneChosen(dues: seq<int>, t: nat)
    ensures Chosen(Order([]), dues, Second, t) == []
  {
  }

  /** An addition goes neither to the second itself nor to a minute that has begun. */
  lemma MinuteAfterAdd(before: seq<Event>, delay: nat, t: nat)
    requires var due := Due(Seconds(before), delay);
      due >= 0 && Unit(Minute, due) == t / 60 ==> FileLevel(delay) == Minute
    ensures Arrived(before + [Add(delay)], Second, t) == Arrived(before, Second, t)
    ensures Seconds(before) >= 60 * (t / 60) ==>
            Arrived(before + [Add(delay)], Minute, t / 60) == Arrived(before, Minute, t / 60)
  {
    hide Order, Chosen, Due, FileLevel, DueTimes, Arrived;
    DueUnits(Seconds(before), delay);
    ArrivedAfterAdd(before, delay, Second, t);
    ArrivedAfterAdd(before, delay, Minute, t / 60);
    assert Arrived(before, Second, t) + [] == Arrived(before, Second, t);
    assert Arrived(before, Minute, t / 60) + [] == Arrived(before, Minute, t / 60);
  }

  lemma ArrivedChosenStays(events: seq<Event>, due: int, t: nat)
    ensures Chosen(Order(Arrived(events, Minute, t / 60)), DueTimes(events) + [due], Second, t) ==
            Chosen(Order(Arrived(events, Minute, t / 60)), DueTimes(events), Second, t)
  {
    hide Order, Chosen, Arrived, DueTimes;
    var q := Arrived(events, Minute, t / 60);
    forall id | id in Order(q)
      ensures id <= |DueTimes(events)|
    {
      OrderMembers(q, id);
      ArrivedFiled(events, Minute, t / 60, id);
    }
    ChosenStays(Order(q), DueTimes(events), [due], Second, t);
  }

  lemma MinuteBegins(events: seq<Event>, t: nat)
    requires events != [] && events[|events| - 1].SecondPasses?
    requires var before := events[..|events| - 1];
      && Seconds(events) == Seconds(before) + 1 && DueTimes(events) == DueTimes(before)
      && Arrived(before, Second, t) ==
         if Seconds(before) >= 60 * (t / 60) then
           Chosen(Order(Arrived(before, Minute, t / 60)), DueTimes(before), Second, t)
         else []
    requires t / 60 == 0 ==> Chosen(Order(Arrived(events, Minute, 0)), DueTimes(events), Second, t) == []
    requires t / 60 == 0 ==> Arrived(events[..|events| - 1], Second, t) == []
    ensures Arrived(events, Second, t) ==
            if Seconds(events) >= 60 * (t / 60) then
              Chosen(Order(Arrived(events, Minute, t / 60)), DueTimes(events), Second, t)
            else []
  {
    hide Order, Chosen, DueTimes, Seconds, Arrived, Rolls;
    var m, now := t / 60, Seconds(events);
    ArrivedInSecond(events, Second, t);
    if now < 60 * m {
      NotYet(now, m);
    } else if now == 60 * m {
      RollsAt(now, m);
    } else {
      Over(events, now, m);
    }
  }

  lemma NotYet(now: nat, m: nat)
    requires now < 60 * m
    ensures Unit(Minute, now) != m
  {
  }

  lemma RollsAt(now: nat, m: nat)
    requires now == 60 * m
    ensures Rolls(Minute, now) && Unit(Minute, now) == m
  {
  }

  /** A minute that has begun gets nothing more. */
  lemma Over(events: seq<Event>, now: nat, m: nat)
    requires events != [] && events[|events| - 1].SecondPasses?
    requires now == Seconds(events) > 60 * m
    ensures Rolls(Minute, now) ==> Unit(Minute, now) != m
    ensures Arrived(events, Minute, m) == Arrived(events[..|events| - 1], Minute, m)
  {
    hide Order, Chosen, DueTimes, Seconds, Arrived;
    RollsNest(now);
    assert Rolls(Minute, now) ==> now == 60 * (now / 60);
    ArrivedInSecond(events, Minute, m);
    if Rolls(Hour, now) {
      UpperBegins(Minute, now, m);
    }
  }

  /** If every timer due in the minute of a second has a delay of one minute or more and
      less than an hour, those of the second come down with the minute: of the minute's
      timers, in the order of their slot, those due at the second, in the order of theirs. */
  lemma MinuteDelaysFire(events: seq<Event>, t: nat)
    requires 1 <= t <= Seconds(events)
    requires var dues := DueTimes(events);
      forall k :: 0 <= k < |dues| && dues[k] >= 0 && dues[k] / 60 == t / 60 ==> 60 <= Delays(events)[k] < 3600
    ensures |Exec(events).fired| == Seconds(events)
    ensures Ids(Exec(events).fired[t - 1]) ==
            Order(Chosen(Order(InTurn(DueTimes(events), Minute, t / 60)), DueTimes(events), Second, t))
  {
    hide Order, Chosen, DueTimes, Delays, Seconds, Arrived, InTurn, Exec, Ids;
    FiresInOrder(events, t);
    assert FiledAlike(DueTimes(events), Delays(events), Minute, Minute, t / 60);
    MinuteComesDown(events, t);
    ComesInTurn(events, Minute, t / 60);
  }

  /** Three timers of five seconds fire in the order 1, 3, 2. */
  lemma ThreeTimers(events: seq<Event>)
    requires events == [Add(5), Add(5), Add(5), SecondPasses, SecondPasses, SecondPasses, SecondPasses, SecondPasses]
    ensures Seconds(events) == 5 && |Exec(events).fired| == 5 && Ids(Exec(events).fired[4]) == [1, 3, 2]
  {
    var added: seq<Event> := [] + [Add(5)] + [Add(5)] + [Add(5)];
    hide Exec, Order;
    AddedLast([], 5);
    AddedLast([] + [Add(5)], 5);
    AddedLast([] + [Add(5)] + [Add(5)], 5);
    NoneAdded(added);
    NoneAdded(added + [SecondPasses]);
    NoneAdded(added + [SecondPasses] + [SecondPasses]);
    NoneAdded(added + [SecondPasses] + [SecondPasses] + [SecondPasses]);
    NoneAdded(added + [SecondPasses] + [SecondPasses] + [SecondPasses] + [SecondPasses]);
    assert events == added + [SecondPasses] + [SecondPasses] + [SecondPasses] + [SecondPasses] + [SecondPasses];
    assert DueTimes(events) == [5, 5, 5];
    ShortDelaysFire(events, 5);
    InTurnAdd([], 5, Second, 5);
    InTurnAdd([5], 5, Second, 5);
    InTurnAdd([5, 5], 5, Second, 5);
    assert [5] + [5] == [5, 5] && [5, 5] + [5] == [5, 5, 5] && [] + [5] == [5];
    ThreeInOrder();
  }

  lemma ThreeInOrder()
    ensures Order([1, 2, 3]) == [1, 3, 2]
  {
    assert [1, 2, 3][1..] == [2, 3] && [2, 3][1..] == [3];
  }
}
