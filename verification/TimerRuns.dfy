/** Every run of the timer wheel fires exactly what a map from timers to due
    seconds would fire. */
module TimerRuns {
  import opened TimerWheel
  import opened TimerAgenda

  // ----- what the wheel holds -----

  function Bag(slots: Slots): multiset<Timer> {
    if slots == [] then multiset{} else multiset(slots[0]) + Bag(slots[1..])
  }

  /** Every pending timer, with multiplicity. */
  function All(rows: Rows): multiset<Timer> {
    Bag(rows.seconds) + Bag(rows.minutes) + Bag(rows.hours) + Bag(rows.days)
  }

  lemma AddToBoth(a: multiset<Timer>, b: multiset<Timer>, x: multiset<Timer>, c: multiset<Timer>, y: multiset<Timer>)
    requires b + x == c + y
    ensures (a + b) + x == (a + c) + y
  {
    assert (a + b) + x == a + (b + x);
    assert (a + c) + y == a + (c + y);
  }

  lemma Cancel(a: multiset<Timer>, b: multiset<Timer>, x: multiset<Timer>)
    requires a + x == b + x
    ensures a == b
  {
    assert a == (a + x) - x;
    assert b == (b + x) - x;
  }

  lemma {:induction false} BagUpdate(slots: Slots, i: nat, list: seq<Timer>)
    requires i < |slots|
    ensures Bag(slots[i := list]) + multiset(slots[i]) == Bag(slots) + multiset(list)
  {
    if i == 0 {
      assert slots[i := list][1..] == slots[1..];
    } else {
      var rest := slots[1..];
      BagUpdate(rest, i - 1, list);
      assert rest[i - 1] == slots[i];
      assert slots[i := list][1..] == rest[i - 1 := list];
      AddToBoth(multiset(slots[0]), Bag(rest[i - 1 := list]), multiset(slots[i]), Bag(rest), multiset(list));
    }
  }

  lemma {:induction false} BagHolds(slots: Slots, timer: Timer) returns (i: nat)
    requires timer in Bag(slots)
    ensures i < |slots| && timer in slots[i]
  {
    if timer in slots[0] {
      i := 0;
    } else {
      i := BagHolds(slots[1..], timer);
      i := i + 1;
    }
  }

  lemma {:induction false} BagContains(slots: Slots, i: nat)
    requires i < |slots|
    ensures multiset(slots[i]) <= Bag(slots)
  {
    if i > 0 {
      BagContains(slots[1..], i - 1);
    }
  }

  lemma InsertBag(list: seq<Timer>, x: Timer)
    ensures multiset(Insert(list, x)) == multiset(list) + multiset{x}
  {
    if list != [] {
      assert list == [list[0]] + list[1..];
      assert Insert(list, x) == [list[0]] + [x] + list[1..];
    }
  }

  lemma InsertAt(slots: Slots, i: nat, x: Timer)
    requires i < |slots|
    ensures Bag(slots[i := Insert(slots[i], x)]) == Bag(slots) + multiset{x}
  {
    var slots' := slots[i := Insert(slots[i], x)];
    BagUpdate(slots, i, Insert(slots[i], x));
    InsertBag(slots[i], x);
    assert Bag(slots') + multiset(slots[i]) == (Bag(slots) + multiset{x}) + multiset(slots[i]);
    Cancel(Bag(slots'), Bag(slots) + multiset{x}, multiset(slots[i]));
  }

  lemma {:induction false} CascadeBag(level: Level, slots: Slots, list: seq<Timer>)
    requires level != Day && |slots| == Size(level)
    requires forall timer :: timer in list ==> WellPacked(timer)
    ensures Bag(Cascade(level, slots, list)) == Bag(slots) + multiset(list)
    decreases |list|
  {
    if list != [] {
      hide UnpackSlot, Insert, Bag;
      assert WellPacked(list[0]);
      UnpackInRange(level, list[0]);
      var i := UnpackSlot(level, list[0]);
      var slots' := slots[i := Insert(slots[i], list[0])];
      InsertAt(slots, i, list[0]);
      CascadeBag(level, slots', list[1..]);
      assert Cascade(level, slots, list) == Cascade(level, slots', list[1..]);
      assert multiset(list) == multiset{list[0]} + multiset(list[1..]) by {
        assert list == [list[0]] + list[1..];
      }
    }
  }

  /** A cascade neither loses nor duplicates a timer. */
  lemma DropConserves(rows: Rows, level: Level, i: nat)
    requires rows.Valid() && level != Second && i < Size(level)
    ensures All(Drop(rows, level, i)) == All(rows)
  {
    var low := Lower(level);
    assert |rows.At(low)| == Size(low) && |rows.At(level)| == Size(level);
    CascadeBag(low, rows.At(low), rows.At(level)[i]);
    BagUpdate(rows.At(level), i, []);
    var d := Drop(rows, level, i);
    assert Bag(d.At(low)) == Bag(rows.At(low)) + multiset(rows.At(level)[i]);
    assert Bag(d.At(level)) + multiset(rows.At(level)[i]) == Bag(rows.At(level));
  }

  // ----- where the wheel holds it -----

  /** The slot fields of a timer are the digits of its due second, below `level`. */
  ghost predicate Coded(level: Level, timer: Timer, due: nat) {
    && (Rank(level) > 0 ==> UnpackSlot(Second, timer) == Digit(Second, due))
    && (Rank(level) > 1 ==> UnpackSlot(Minute, timer) == Digit(Minute, due))
    && (Rank(level) > 2 ==> UnpackSlot(Hour, timer) == Digit(Hour, due))
  }

  /** A timer in slot `i` of `level` comes up within one turn of that row. A level
      of rank below `rolled` has its hand already moved and its slot not yet emptied. */
  ghost predicate Placed(level: Level, i: nat, timer: Timer, due: nat, now: nat, rolled: nat) {
    && Digit(level, due) == i
    && Coded(level, timer, due)
    && if Rank(level) < rolled then Unit(level, now) <= Unit(level, due) < Unit(level, now) + Size(level)
       else Unit(level, now) < Unit(level, due) <= Unit(level, now) + Size(level)
  }

  type Agenda = map<Timer, nat>

  ghost predicate AllPlaced(rows: Rows, agenda: Agenda, now: nat, rolled: nat) {
    rows.Sized() && forall level: Level, i, timer :: 0 <= i < Size(level) && timer in rows.At(level)[i] ==>
      timer in agenda && Placed(level, i, timer, agenda[timer], now, rolled)
  }

  ghost predicate Hands(w: Wheel, now: nat) {
    && w.second == Digit(Second, now)
    && w.minute == Digit(Minute, now)
    && w.hour == Digit(Hour, now)
    && w.day == Digit(Day, now)
  }

  /** The wheel at second `now` holds exactly the agenda, each timer once. */
  ghost predicate Holds(w: Wheel, agenda: Agenda, now: nat) {
    && w.rows.Valid()
    && Hands(w, now)
    && All(w.rows) == multiset(agenda.Keys)
    && AllPlaced(w.rows, agenda, now, 0)
  }

  lemma SameDigit(u: nat, v: nat)
    requires u <= v
    ensures v < u + 60 && u % 60 == v % 60 ==> u == v
    ensures v < u + 24 && u % 24 == v % 24 ==> u == v
    ensures v < u + 30 && u % 30 == v % 30 ==> u == v
  {
    assert u % 60 == v % 60 ==> v - u == 60 * (v / 60 - u / 60);
    assert u % 24 == v % 24 ==> v - u == 24 * (v / 24 - u / 24);
    assert u % 30 == v % 30 ==> v - u == 30 * (v / 30 - u / 30);
  }

  lemma UnitIsDigit(level: Level, now: nat, due: nat)
    requires Digit(level, due) == Digit(level, now)
    requires Unit(level, now) <= Unit(level, due) < Unit(level, now) + Size(level)
    ensures Unit(level, due) == Unit(level, now)
  {
    SameDigit(Unit(level, now), Unit(level, due));
  }

  /** The hand of `level` moves on exactly the multiples of its unit. */
  predicate Rolls(level: Level, now: nat) {
    match level
    case Second => true
    case Minute => now % 60 == 0
    case Hour => now % 3600 == 0
    case Day => now % 86400 == 0
  }

  lemma LowerUnits(level: Level, now: nat, due: nat)
    requires level != Second && Rolls(level, now) && Unit(level, due) == Unit(level, now)
    ensures Unit(Lower(level), now) <= Unit(Lower(level), due) < Unit(Lower(level), now) + Size(Lower(level))
  {
    match level {
      case Minute =>
      case Hour => Decompose(now); Decompose(due);
      case Day => Decompose(now); Decompose(due);
    }
  }

  /** Emptying the slot the hand of `level` just reached puts that row in order. */
  lemma DropPlaces(rows: Rows, agenda: Agenda, now: nat, level: Level)
    requires rows.Valid() && level != Second && Rolls(level, now)
    requires AllPlaced(rows, agenda, now, Rank(level) + 1)
    requires Digit(level, now) < Size(level)
    ensures AllPlaced(Drop(rows, level, Digit(level, now)), agenda, now, Rank(level))
  {
    hide Drop, UnpackSlot, WellPacked, Rolls;
    var i := Digit(level, now);
    var d := Drop(rows, level, i);
    forall l: Level, j, timer | 0 <= j < Size(l) && timer in d.At(l)[j]
      ensures timer in agenda && Placed(l, j, timer, agenda[timer], now, Rank(level))
    {
      DropMembers(rows, level, i, l, j, timer);
      if l == Lower(level) && timer in rows.At(level)[i] && UnpackSlot(l, timer) == j {
        assert Placed(level, i, timer, agenda[timer], now, Rank(level) + 1);
        UnitIsDigit(level, now, agenda[timer]);
        LowerUnits(level, now, agenda[timer]);
      } else {
        assert timer in rows.At(l)[j];
        assert Placed(l, j, timer, agenda[timer], now, Rank(level) + 1);
      }
    }
  }

  // ----- one tick -----

  /** How many hands move when second `now` begins. */
  function Rolled(now: nat): nat {
    if now % 86400 == 0 then 4 else if now % 3600 == 0 then 3 else if now % 60 == 0 then 2 else 1
  }

  lemma RollsNest(now: nat)
    ensures Rolls(Day, now) ==> Rolls(Hour, now)
    ensures Rolls(Hour, now) ==> Rolls(Minute, now)
  {
    if now % 86400 == 0 {
      assert now == 3600 * (24 * (now / 86400));
    }
    if now % 3600 == 0 {
      assert now == 60 * (60 * (now / 3600));
    }
  }

  lemma RolledRank(level: Level, now: nat)
    ensures Rank(level) < Rolled(now) <==> Rolls(level, now)
  {
    RollsNest(now);
  }

  lemma UnitStep(level: Level, now: nat)
    ensures Unit(level, now + 1) == Unit(level, now) + (if Rolls(level, now + 1) then 1 else 0)
  {
    match level case Second => case Minute => case Hour => case Day =>
  }

  /** A new second: the rows whose hand moves are now relaxed, the others unaffected. */
  lemma BeginSecond(rows: Rows, agenda: Agenda, now: nat)
    requires AllPlaced(rows, agenda, now, 0)
    ensures AllPlaced(rows, agenda, now + 1, Rolled(now + 1))
  {
    forall level: Level, i, timer | 0 <= i < Size(level) && timer in rows.At(level)[i]
      ensures timer in agenda && Placed(level, i, timer, agenda[timer], now + 1, Rolled(now + 1))
    {
      assert Placed(level, i, timer, agenda[timer], now, 0);
      RolledRank(level, now + 1);
      UnitStep(level, now);
    }
  }

  lemma DropStage(rows: Rows, agenda: Agenda, now: nat, level: Level, i: nat)
    requires rows.Valid() && level != Second && Rolls(level, now)
    requires AllPlaced(rows, agenda, now, Rank(level) + 1)
    requires i == Digit(level, now) < Size(level)
    ensures var d := Drop(rows, level, i);
            d.Valid() && AllPlaced(d, agenda, now, Rank(level)) && All(d) == All(rows)
  {
    DropValid(rows, level, i);
    DropPlaces(rows, agenda, now, level);
    DropConserves(rows, level, i);
  }

  lemma ProcDayHolds(w: Wheel, agenda: Agenda, now: nat)
    requires w.rows.Valid() && AllPlaced(w.rows, agenda, now, 4)
    requires now > 0 && Rolls(Day, now) && w.hour == 24 && w.day == Digit(Day, now - 1)
    ensures var r := ProcDay(w);
            && r == w.(day := Digit(Day, now), rows := r.rows)
            && AllPlaced(r.rows, agenda, now, 3) && All(r.rows) == All(w.rows)
  {
    assert (w.day + 1) % 30 == Digit(Day, now) by {
      UnitStep(Day, now - 1);
      DigitSum30(now - 1, 1);
      DigitSum30((now - 1) / 86400, 1);
    }
    DropStage(w.rows, agenda, now, Day, Digit(Day, now));
  }

  lemma ProcHourHolds(w: Wheel, agenda: Agenda, now: nat)
    requires w.rows.Valid() && AllPlaced(w.rows, agenda, now, Rolled(now))
    requires now > 0 && Rolls(Hour, now) && w.minute == 60
    requires w.hour == Digit(Hour, now - 1) && w.day == Digit(Day, now - 1)
    ensures var r := ProcHour(w);
            && r.rows.Valid() && r == w.(hour := Digit(Hour, now), day := Digit(Day, now), rows := r.rows)
            && AllPlaced(r.rows, agenda, now, 2) && All(r.rows) == All(w.rows)
  {
    var w2 := HourCarry(w, agenda, now);
    HourUnfolds(w, w2, Digit(Hour, now));
    DropStage(w2.rows, agenda, now, Hour, Digit(Hour, now));
  }

  lemma HourUnfolds(w: Wheel, w2: Wheel, i: nat)
    requires w.rows.Valid() && w.minute == 60
    requires var w1 := w.(hour := w.hour + 1); w2 == if w1.hour >= 24 then ProcDay(w1) else w1
    requires w2.rows.Valid() && w2.hour % 24 == i
    ensures ProcHour(w) == w2.(hour := i, rows := Drop(w2.rows, Hour, i))
  {
  }

  lemma HourCarry(w: Wheel, agenda: Agenda, now: nat) returns (w2: Wheel)
    requires w.rows.Valid() && AllPlaced(w.rows, agenda, now, Rolled(now))
    requires now > 0 && Rolls(Hour, now) && w.hour == Digit(Hour, now - 1) && w.day == Digit(Day, now - 1)
    ensures var w1 := w.(hour := w.hour + 1); w2 == if w1.hour >= 24 then ProcDay(w1) else w1
    ensures w2.hour % 24 == Digit(Hour, now) < 24
    ensures w2 == w.(hour := w2.hour, day := Digit(Day, now), rows := w2.rows)
    ensures w2.rows.Valid() && AllPlaced(w2.rows, agenda, now, 3) && All(w2.rows) == All(w.rows)
  {
    var w1 := w.(hour := w.hour + 1);
    HourTurns(now);
    if w1.hour >= 24 {
      ProcDayHolds(w1, agenda, now);
      w2 := ProcDay(w1);
    } else {
      w2 := w1;
    }
  }

  /** A hand steps by one, and comes round exactly when the next hand moves. */
  lemma DigitTurns60(t: nat)
    ensures t % 60 + 1 <= 60 && (t % 60 + 1) % 60 == (t + 1) % 60
    ensures t % 60 + 1 == 60 <==> (t + 1) % 60 == 0
  {
    DigitSum60(t, 1);
  }

  lemma DigitTurns24(t: nat)
    ensures t % 24 + 1 <= 24 && (t % 24 + 1) % 24 == (t + 1) % 24
    ensures t % 24 + 1 == 24 <==> (t + 1) % 24 == 0
  {
    DigitSum24(t, 1);
  }

  lemma HourTurns(now: nat)
    requires now > 0 && Rolls(Hour, now)
    ensures Digit(Hour, now - 1) + 1 == 24 <==> Rolls(Day, now)
    ensures Digit(Hour, now - 1) + 1 <= 24
    ensures (Digit(Hour, now - 1) + 1) % 24 == Digit(Hour, now) < 24
    ensures !Rolls(Day, now) ==> Digit(Day, now) == Digit(Day, now - 1)
  {
    UnitStep(Hour, now - 1);
    UnitStep(Day, now - 1);
    DigitTurns24((now - 1) / 3600);
    assert now == 3600 * (now / 3600);
    Decompose(now);
  }

  lemma MinuteTurns(now: nat)
    requires now > 0 && Rolls(Minute, now)
    ensures Digit(Minute, now - 1) + 1 == 60 <==> Rolls(Hour, now)
    ensures Digit(Minute, now - 1) + 1 <= 60
    ensures (Digit(Minute, now - 1) + 1) % 60 == Digit(Minute, now) < 60
    ensures !Rolls(Hour, now) ==> Digit(Hour, now) == Digit(Hour, now - 1) && Digit(Day, now) == Digit(Day, now - 1)
  {
    UnitStep(Minute, now - 1);
    UnitStep(Hour, now - 1);
    UnitStep(Day, now - 1);
    RollsNest(now);
    DigitTurns60((now - 1) / 60);
    assert now == 60 * (now / 60);
    assert now / 60 == 60 * (now / 3600) + now / 60 % 60 by {
      Decompose(now);
    }
  }

  lemma SecondTurns(now: nat)
    requires now > 0
    ensures Digit(Second, now - 1) + 1 == 60 <==> Rolls(Minute, now)
    ensures Digit(Second, now - 1) + 1 <= 60
    ensures (Digit(Second, now - 1) + 1) % 60 == Digit(Second, now) < 60
    ensures !Rolls(Minute, now) ==>
      && Digit(Minute, now) == Digit(Minute, now - 1)
      && Digit(Hour, now) == Digit(Hour, now - 1) && Digit(Day, now) == Digit(Day, now - 1)
  {
    UnitStep(Minute, now - 1);
    UnitStep(Hour, now - 1);
    UnitStep(Day, now - 1);
    RollsNest(now);
    DigitTurns60(now - 1);
  }

  lemma ProcMinuteHolds(w: Wheel, agenda: Agenda, now: nat)
    requires w.rows.Valid() && AllPlaced(w.rows, agenda, now, Rolled(now))
    requires now > 0 && Rolls(Minute, now) && w.second == 60
    requires w.minute == Digit(Minute, now - 1) && w.hour == Digit(Hour, now - 1) && w.day == Digit(Day, now - 1)
    ensures var r := ProcMinute(w);
            && r.rows.Valid()
            && r == w.(minute := Digit(Minute, now), hour := Digit(Hour, now), day := Digit(Day, now), rows := r.rows)
            && AllPlaced(r.rows, agenda, now, 1) && All(r.rows) == All(w.rows)
  {
    var w2 := MinuteCarry(w, agenda, now);
    MinuteUnfolds(w, w2, Digit(Minute, now));
    DropStage(w2.rows, agenda, now, Minute, Digit(Minute, now));
  }

  lemma MinuteUnfolds(w: Wheel, w2: Wheel, i: nat)
    requires w.rows.Valid() && w.second == 60
    requires var w1 := w.(minute := w.minute + 1); w2 == if w1.minute >= 60 then ProcHour(w1) else w1
    requires w2.rows.Valid() && w2.minute % 60 == i
    ensures ProcMinute(w) == w2.(minute := i, rows := Drop(w2.rows, Minute, i))
  {
  }

  lemma MinuteCarry(w: Wheel, agenda: Agenda, now: nat) returns (w2: Wheel)
    requires w.rows.Valid() && AllPlaced(w.rows, agenda, now, Rolled(now))
    requires now > 0 && Rolls(Minute, now)
    requires w.minute == Digit(Minute, now - 1) && w.hour == Digit(Hour, now - 1) && w.day == Digit(Day, now - 1)
    ensures var w1 := w.(minute := w.minute + 1); w2 == if w1.minute >= 60 then ProcHour(w1) else w1
    ensures w2.minute % 60 == Digit(Minute, now) < 60
    ensures w2 == w.(minute := w2.minute, hour := Digit(Hour, now), day := Digit(Day, now), rows := w2.rows)
    ensures w2.rows.Valid() && AllPlaced(w2.rows, agenda, now, 2) && All(w2.rows) == All(w.rows)
  {
    var w1 := w.(minute := w.minute + 1);
    MinuteTurns(now);
    RolledRank(Hour, now);
    if w1.minute >= 60 {
      ProcHourHolds(w1, agenda, now);
      w2 := ProcHour(w1);
    } else {
      w2 := w1;
    }
  }

  /** The timers of an agenda that are due at `now`. */
  ghost function DueAt(agenda: Agenda, now: nat): set<Timer> {
    set timer | timer in agenda && agenda[timer] == now
  }

  ghost function Later(agenda: Agenda, now: nat): Agenda {
    map timer | timer in agenda && agenda[timer] != now :: agenda[timer]
  }

  /** With only the seconds row still to empty, its slot under the hand holds exactly the due timers. */
  lemma SlotIsDue(rows: Rows, agenda: Agenda, now: nat, timer: Timer)
    requires rows.Valid() && AllPlaced(rows, agenda, now, 1)
    requires All(rows) == multiset(agenda.Keys)
    requires Digit(Second, now) < 60
    ensures timer in rows.seconds[Digit(Second, now)] <==> timer in DueAt(agenda, now)
  {
    var i := Digit(Second, now);
    if timer in rows.At(Second)[i] {
      assert Placed(Second, i, timer, agenda[timer], now, 1);
      UnitIsDigit(Second, now, agenda[timer]);
    }
    if timer in DueAt(agenda, now) {
      assert timer in All(rows);
      var level, j := Locate(rows, timer);
      assert Placed(level, j, timer, agenda[timer], now, 1);
    }
  }

  lemma Locate(rows: Rows, timer: Timer) returns (level: Level, i: nat)
    requires rows.Sized() && timer in All(rows)
    ensures i < Size(level) && timer in rows.At(level)[i]
  {
    if timer in Bag(rows.seconds) {
      level := Second;
    } else if timer in Bag(rows.minutes) {
      level := Minute;
    } else if timer in Bag(rows.hours) {
      level := Hour;
    } else {
      level := Day;
    }
    i := BagHolds(rows.At(level), timer);
  }

  /** One second: the wheel fires the due timers, each once, and holds the rest. */
  lemma TickHolds(w: Wheel, agenda: Agenda, now: nat)
    requires Holds(w, agenda, now)
    ensures var (w', fired) := Tick(w);
            && multiset(fired) == multiset(DueAt(agenda, now + 1))
            && Holds(w', Later(agenda, now + 1), now + 1)
  {
    var now' := now + 1;
    BeginSecond(w.rows, agenda, now);
    var w2 := SecondCarry(w, agenda, now');
    TickUnfolds(w, w2, Digit(Second, now'));
    FiredIsDue(w2.rows, agenda, now');
    RestIsLater(w2.rows, agenda, now', Digit(Second, now'));
    RestIsPlaced(w2.rows, agenda, now');
  }

  lemma TickUnfolds(w: Wheel, w2: Wheel, i: nat)
    requires w.rows.Valid()
    requires var w1 := w.(second := w.second + 1); w2 == if w1.second >= 60 then ProcMinute(w1) else w1
    requires w2.rows.Sized() && w2.second % 60 == i
    ensures Tick(w) == (w2.(second := i, rows := w2.rows.With(Second, w2.rows.seconds[i := []])), w2.rows.seconds[i])
  {
  }

  lemma SecondCarry(w: Wheel, agenda: Agenda, now: nat) returns (w2: Wheel)
    requires w.rows.Valid() && AllPlaced(w.rows, agenda, now, Rolled(now))
    requires now > 0 && Hands(w, now - 1)
    ensures var w1 := w.(second := w.second + 1); w2 == if w1.second >= 60 then ProcMinute(w1) else w1
    ensures w2.second % 60 == Digit(Second, now) < 60
    ensures w2.minute == Digit(Minute, now) && w2.hour == Digit(Hour, now) && w2.day == Digit(Day, now)
    ensures w2.rows.Valid() && AllPlaced(w2.rows, agenda, now, 1) && All(w2.rows) == All(w.rows)
  {
    var w1 := w.(second := w.second + 1);
    SecondTurns(now);
    RolledRank(Minute, now);
    if w1.second >= 60 {
      ProcMinuteHolds(w1, agenda, now);
      w2 := ProcMinute(w1);
    } else {
      w2 := w1;
    }
  }

  lemma FiredIsDue(rows: Rows, agenda: Agenda, now: nat)
    requires rows.Valid() && AllPlaced(rows, agenda, now, 1)
    requires All(rows) == multiset(agenda.Keys)
    requires Digit(Second, now) < 60
    ensures multiset(rows.seconds[Digit(Second, now)]) == multiset(DueAt(agenda, now))
  {
    var i := Digit(Second, now);
    var fired := rows.seconds[i];
    forall timer
      ensures timer in fired <==> timer in DueAt(agenda, now)
    {
      SlotIsDue(rows, agenda, now, timer);
    }
    BagContains(rows.seconds, i);
    assert multiset(fired) <= multiset(agenda.Keys);
    forall timer
      ensures multiset(fired)[timer] == multiset(DueAt(agenda, now))[timer]
    {
      assert timer in fired <==> timer in multiset(fired);
      assert multiset(fired)[timer] <= multiset(agenda.Keys)[timer] <= 1;
    }
  }

  lemma AgendaSplits(agenda: Agenda, now: nat)
    ensures multiset(agenda.Keys) == multiset(Later(agenda, now).Keys) + multiset(DueAt(agenda, now))
  {
  }

  lemma RestIsLater(rows: Rows, agenda: Agenda, now: nat, i: nat)
    requires i < |rows.seconds|
    requires All(rows) == multiset(agenda.Keys)
    requires multiset(rows.seconds[i]) == multiset(DueAt(agenda, now))
    ensures All(rows.With(Second, rows.seconds[i := []])) == multiset(Later(agenda, now).Keys)
  {
    var rows' := rows.With(Second, rows.seconds[i := []]);
    var fired := multiset(rows.seconds[i]);
    var upper := Bag(rows.minutes) + Bag(rows.hours) + Bag(rows.days);
    assert All(rows) == upper + Bag(rows.seconds);
    assert All(rows') == upper + Bag(rows'.seconds);
    assert Bag(rows'.seconds) + fired == Bag(rows.seconds) + multiset{} by {
      BagUpdate(rows.seconds, i, []);
    }
    assert All(rows') + fired == All(rows) + multiset{} by {
      AddToBoth(upper, Bag(rows'.seconds), fired, Bag(rows.seconds), multiset{});
    }
    AgendaSplits(agenda, now);
    Cancel(All(rows'), multiset(Later(agenda, now).Keys), fired);
  }

  lemma RestIsPlaced(rows: Rows, agenda: Agenda, now: nat)
    requires rows.Valid() && AllPlaced(rows, agenda, now, 1) && Digit(Second, now) < 60
    ensures var rows' := rows.With(Second, rows.seconds[Digit(Second, now) := []]);
            rows'.Valid() && AllPlaced(rows', Later(agenda, now), now, 0)
  {
    var rows' := rows.With(Second, rows.seconds[Digit(Second, now) := []]);
    forall level: Level, j, timer | 0 <= j < Size(level) && timer in rows'.At(level)[j]
      ensures WellPacked(timer) && timer in Later(agenda, now) && Placed(level, j, timer, agenda[timer], now, 0)
    {
      assert timer in rows.At(level)[j];
      assert Placed(level, j, timer, agenda[timer], now, 1);
    }
  }

  // ----- adding a timer -----

  lemma AddKeepsValid(w: Wheel, id: nat, delay: nat)
    requires w.rows.Valid()
    ensures AddTimer(w, id, delay).rows.Valid()
    ensures !Repeats(NewTimer(w, id, delay))
  {
    var new' := NewTimer(w, id, delay);
    UnpackPacked(id, delay, SlotFor(Day, w.day, delay), SlotFor(Hour, w.hour, delay),
      SlotFor(Minute, w.minute, delay), SlotFor(Second, w.second, delay));
    var rows' := AddTimer(w, id, delay).rows;
    forall l: Level, j, timer | 0 <= j < Size(l) && timer in rows'.At(l)[j]
      ensures WellPacked(timer)
    {
      AddMembers(w, id, delay, l, j, timer);
    }
  }

  lemma AddMembers(w: Wheel, id: nat, delay: nat, l: Level, j: nat, timer: Timer)
    requires w.rows.Sized() && j < Size(l)
    ensures var level := FileLevel(delay);
            timer in AddTimer(w, id, delay).rows.At(l)[j] <==>
              timer in w.rows.At(l)[j]
              || (timer == NewTimer(w, id, delay) && l == level && j == SlotFor(level, w.Index(level), delay))
  {
    var level := FileLevel(delay);
    var i := SlotFor(level, w.Index(level), delay);
    InsertMembers(w.rows.At(level)[i], NewTimer(w, id, delay), timer);
  }

  lemma NewTimerPlaced(w: Wheel, id: nat, delay: nat, now: nat)
    requires Hands(w, now)
    ensures var level := FileLevel(delay);
            Due(now, delay) > now
            && Placed(level, SlotFor(level, w.Index(level), delay), NewTimer(w, id, delay), Due(now, delay), now, 0)
  {
    var level := FileLevel(delay);
    UnpackPacked(id, delay, SlotFor(Day, w.day, delay), SlotFor(Hour, w.hour, delay),
      SlotFor(Minute, w.minute, delay), SlotFor(Second, w.second, delay));
    DueUnits(now, delay);
    DueDigit(now, delay, level);
    if level != Second { DueDigit(now, delay, Second); }
    if level == Hour || level == Day { DueDigit(now, delay, Minute); }
    if level == Day { DueDigit(now, delay, Hour); }
  }

  lemma AddBag(w: Wheel, id: nat, delay: nat)
    requires w.rows.Sized()
    ensures All(AddTimer(w, id, delay).rows) == All(w.rows) + multiset{NewTimer(w, id, delay)}
  {
    hide Bag, Insert, NewTimer;
    var level := FileLevel(delay);
    InsertAt(w.rows.At(level), SlotFor(level, w.Index(level), delay), NewTimer(w, id, delay));
  }

  lemma AddPlaced(w: Wheel, agenda: Agenda, now: nat, id: nat, delay: nat)
    requires Hands(w, now) && AllPlaced(w.rows, agenda, now, 0) && NewTimer(w, id, delay) !in agenda
    ensures Due(now, delay) > now
    ensures AllPlaced(AddTimer(w, id, delay).rows, agenda[NewTimer(w, id, delay) := Due(now, delay)], now, 0)
  {
    NewTimerPlaced(w, id, delay, now);
    var agenda' := agenda[NewTimer(w, id, delay) := Due(now, delay)];
    var rows' := AddTimer(w, id, delay).rows;
    assert rows'.Sized();
    forall l: Level, j, timer | 0 <= j < Size(l) && timer in rows'.At(l)[j]
      ensures timer in agenda' && Placed(l, j, timer, agenda'[timer], now, 0)
    {
      AddMembers(w, id, delay, l, j, timer);
      if timer in w.rows.At(l)[j] {
        assert Placed(l, j, timer, agenda[timer], now, 0);
      }
    }
  }

  /** Adding a timer enters it into the agenda at its due second. */
  lemma AddHolds(w: Wheel, agenda: Agenda, now: nat, id: nat, delay: nat)
    requires Holds(w, agenda, now) && NewTimer(w, id, delay) !in agenda
    ensures Due(now, delay) > now
    ensures Holds(AddTimer(w, id, delay), agenda[NewTimer(w, id, delay) := Due(now, delay)], now)
  {
    AddPlaced(w, agenda, now, id, delay);
    AddKeepsValid(w, id, delay);
    AddBag(w, id, delay);
    assert agenda[NewTimer(w, id, delay) := Due(now, delay)].Keys == agenda.Keys + {NewTimer(w, id, delay)};
  }

  // ----- whole runs -----

  /** What happens to the wheel: a one-shot timer is added, or a second passes. */
  datatype Event = Add(delay: nat) | SecondPasses

  /** The wheel, the timers added so far, and the timers fired at second 1, 2, ... */
  datatype History = History(wheel: Wheel, added: seq<Timer>, fired: seq<seq<Timer>>)

  function EmptyRow(n: nat): (r: Slots)
    ensures |r| == n && forall i :: 0 <= i < n ==> r[i] == []
  {
    seq(n, i => [])
  }

  /** The wheel after `clean_up` and `init`. */
  function InitialWheel(): (w: Wheel)
    ensures w.rows.Valid() && Empty(w.rows)
  {
    var w := Wheel(0, 0, 0, 0, Rows(EmptyRow(60), EmptyRow(60), EmptyRow(24), EmptyRow(30)));
    assert forall level: Level, i :: 0 <= i < Size(level) ==> w.rows.At(level)[i] == [];
    w
  }

  function Exec(events: seq<Event>): (h: History)
    ensures h.wheel.rows.Valid()
  {
    if events == [] then History(InitialWheel(), [], [])
    else
      var h := Exec(events[..|events| - 1]);
      match events[|events| - 1]
      case Add(delay) =>
        var id := |h.added| + 1;
        AddKeepsValid(h.wheel, id, delay);
        History(AddTimer(h.wheel, id, delay), h.added + [NewTimer(h.wheel, id, delay)], h.fired)
      case SecondPasses =>
        var (w, list) := Tick(h.wheel);
        h.(wheel := w, fired := h.fired + [list])
  }

  /** The independent account of a run: the seconds passed, and the second each
      timer is due at, by order of arrival. */
  function Seconds(events: seq<Event>): nat {
    if events == [] then 0
    else Seconds(events[..|events| - 1]) + (if events[|events| - 1].SecondPasses? then 1 else 0)
  }

  function DueTimes(events: seq<Event>): seq<int> {
    if events == [] then []
    else
      var before := events[..|events| - 1];
      match events[|events| - 1]
      case Add(delay) => DueTimes(before) + [Due(Seconds(before), delay)]
      case SecondPasses => DueTimes(before)
  }

  ghost predicate Numbered(added: seq<Timer>) {
    forall k :: 0 <= k < |added| ==> added[k].id == k + 1
  }

  /** The timers added whose due second is after `now`. */
  ghost function Pending(added: seq<Timer>, dues: seq<int>, now: nat): Agenda
    requires |dues| == |added| && Numbered(added)
  {
    map timer | timer in added && dues[timer.id - 1] > now :: dues[timer.id - 1]
  }

  ghost function FallDue(added: seq<Timer>, dues: seq<int>, now: nat): set<Timer>
    requires |dues| == |added| && Numbered(added)
  {
    set timer | timer in added && dues[timer.id - 1] == now
  }

  /** What the run `h` has done by its last second, against the due times. */
  ghost predicate Follows(h: History, dues: seq<int>) {
    && |h.added| == |dues| && Numbered(h.added)
    && Holds(h.wheel, Pending(h.added, dues, |h.fired|), |h.fired|)
    && forall t :: 1 <= t <= |h.fired| ==> multiset(h.fired[t - 1]) == multiset(FallDue(h.added, dues, t))
  }

  lemma AddFollows(h: History, dues: seq<int>, delay: nat)
    requires Follows(h, dues)
    ensures var new' := NewTimer(h.wheel, |h.added| + 1, delay);
            Follows(History(AddTimer(h.wheel, |h.added| + 1, delay), h.added + [new'], h.fired),
              dues + [Due(|h.fired|, delay)])
  {
    hide AddTimer, Holds, FallDue, Due;
    var now := |h.fired|;
    var new' := NewTimer(h.wheel, |h.added| + 1, delay);
    AddHolds(h.wheel, Pending(h.added, dues, now), now, |h.added| + 1, delay);
    PendingAdds(h.added, dues, now, new', Due(now, delay));
  }

  lemma PendingAdds(added: seq<Timer>, dues: seq<int>, now: nat, timer: Timer, due: int)
    requires |dues| == |added| && Numbered(added) && timer.id == |added| + 1 && due > now
    ensures Numbered(added + [timer])
    ensures Pending(added + [timer], dues + [due], now) == Pending(added, dues, now)[timer := due]
    ensures forall t :: 1 <= t <= now ==>
      FallDue(added + [timer], dues + [due], t) == FallDue(added, dues, t)
  {
  }

  lemma SecondFollows(h: History, dues: seq<int>)
    requires Follows(h, dues)
    ensures Follows(History(Tick(h.wheel).0, h.added, h.fired + [Tick(h.wheel).1]), dues)
  {
    hide Pending, FallDue, Later, DueAt, ProcMinute;
    var now := |h.fired|;
    TickHolds(h.wheel, Pending(h.added, dues, now), now);
    PendingSteps(h.added, dues, now);
    var fired' := h.fired + [Tick(h.wheel).1];
    forall t | 1 <= t <= now + 1
      ensures multiset(fired'[t - 1]) == multiset(FallDue(h.added, dues, t))
    {
      if t <= now {
        assert fired'[t - 1] == h.fired[t - 1];
      }
    }
  }

  lemma PendingSteps(added: seq<Timer>, dues: seq<int>, now: nat)
    requires |dues| == |added| && Numbered(added)
    ensures Later(Pending(added, dues, now), now + 1) == Pending(added, dues, now + 1)
    ensures DueAt(Pending(added, dues, now), now + 1) == FallDue(added, dues, now + 1)
  {
  }

  /** At every point of every run the wheel holds the agenda of the timers still to
      come, and each second so far has fired exactly the timers due at it. */
  lemma {:induction false} RunHolds(events: seq<Event>)
    ensures Follows(Exec(events), DueTimes(events)) && |Exec(events).fired| == Seconds(events)
  {
    if events == [] {
      InitialFollows(Exec(events), DueTimes(events));
    } else {
      var before := events[..|events| - 1];
      RunHolds(before);
      match events[|events| - 1] {
        case Add(delay) => AddFollows(Exec(before), DueTimes(before), delay);
        case SecondPasses => SecondFollows(Exec(before), DueTimes(before));
      }
    }
  }

  lemma InitialFollows(h: History, dues: seq<int>)
    requires h == History(InitialWheel(), [], []) && dues == []
    ensures Follows(h, dues)
  {
    EmptyHolds(h.wheel);
    assert Pending(h.added, dues, 0) == map[];
  }

  ghost predicate Empty(rows: Rows) {
    rows.Sized() && forall level: Level, i :: 0 <= i < Size(level) ==> rows.At(level)[i] == []
  }

  lemma EmptyHolds(w: Wheel)
    requires Hands(w, 0) && Empty(w.rows)
    ensures Holds(w, map[], 0)
  {
    EmptyAll(w.rows);
  }

  lemma EmptyAll(rows: Rows)
    requires Empty(rows)
    ensures All(rows) == multiset{}
  {
    assert rows.At(Second) == rows.seconds && rows.At(Minute) == rows.minutes;
    assert rows.At(Hour) == rows.hours && rows.At(Day) == rows.days;
    EmptyBag(rows.seconds);
    EmptyBag(rows.minutes);
    EmptyBag(rows.hours);
    EmptyBag(rows.days);
  }

  lemma {:induction false} EmptyBag(slots: Slots)
    requires forall i :: 0 <= i < |slots| ==> slots[i] == []
    ensures Bag(slots) == multiset{}
  {
    if slots != [] {
      EmptyBag(slots[1..]);
    }
  }

  // ----- the theorem -----

  function Ids(list: seq<Timer>): seq<nat> {
    if list == [] then [] else [list[0].id] + Ids(list[1..])
  }

  lemma {:induction false} IdsOfSet(list: seq<Timer>, timers: set<Timer>)
    requires multiset(list) == multiset(timers)
    requires forall x, y :: x in timers && y in timers && x.id == y.id ==> x == y
    ensures multiset(Ids(list)) == multiset(set timer | timer in timers :: timer.id)
  {
    if list == [] {
      assert forall x :: x in timers ==> x in multiset(timers);
      assert timers == {};
    } else {
      var x := list[0];
      assert list == [x] + list[1..];
      assert x in multiset(timers);
      assert multiset(timers) == multiset(timers - {x}) + multiset{x};
      Cancel(multiset(list[1..]), multiset(timers - {x}), multiset{x});
      IdsOfSet(list[1..], timers - {x});
      assert (set timer | timer in timers :: timer.id) == (set timer | timer in timers - {x} :: timer.id) + {x.id};
    }
  }

  /** The ids of the timers due at `t`: the k-th timer added has id k. */
  function IdsDueAt(dues: seq<int>, t: nat): set<nat> {
    set k | 0 <= k < |dues| && dues[k] == t :: k + 1
  }

  /** For every run of additions and seconds, and every second `t` of it: the
      timers fired at `t` are exactly those due at `t`, each of them once. */
  lemma WheelFiresTheAgenda(events: seq<Event>, t: nat)
    requires 1 <= t <= Seconds(events)
    ensures |Exec(events).fired| == Seconds(events)
    ensures multiset(Ids(Exec(events).fired[t - 1]))
            == multiset(IdsDueAt(DueTimes(events), t))
  {
    RunHolds(events);
    var h, dues := Exec(events), DueTimes(events);
    FallDueIds(h.added, dues, t);
    IdsOfSet(h.fired[t - 1], FallDue(h.added, dues, t));
  }

  lemma FallDueIds(added: seq<Timer>, dues: seq<int>, t: nat)
    requires |dues| == |added| && Numbered(added)
    ensures var due := FallDue(added, dues, t);
      && (set timer | timer in due :: timer.id) == IdsDueAt(dues, t)
      && forall x, y :: x in due && y in due && x.id == y.id ==> x == y
  {
    var due := FallDue(added, dues, t);
    forall id | id in IdsDueAt(dues, t)
      ensures id in (set timer | timer in due :: timer.id)
    {
      assert added[id - 1] in due;
    }
  }

  /** The k-th event of a run, if it adds a timer, makes it due `Due` seconds
      counted from the seconds before it, whatever happens later. */
  lemma {:induction false} DueTimeOf(events: seq<Event>, k: nat)
    requires k < |events| && events[k].Add?
    ensures |DueTimes(events[..k])| < |DueTimes(events)|
    ensures DueTimes(events)[|DueTimes(events[..k])|] == Due(Seconds(events[..k]), events[k].delay)
    decreases |events|
  {
    var before := events[..|events| - 1];
    if k == |events| - 1 {
      assert events[..k] == before;
    } else {
      assert before[..k] == events[..k];
      DueTimeOf(before, k);
    }
  }

  lemma IdsCount(list: seq<Timer>, ids: set<nat>, id: nat)
    requires multiset(Ids(list)) == multiset(ids)
    ensures id in Ids(list) <==> id in ids
  {
    assert id in Ids(list) <==> id in multiset(Ids(list));
  }

  /** The timer that event `k` of a run adds fires at its due second and at no other. In
      particular it fires exactly `delay` seconds after it was added if and only if the
      delay is positive, below 31 days, and adds up without a carry. */
  lemma FiresWhenDue(events: seq<Event>, k: nat, t: nat)
    requires k < |events| && events[k].Add? && 1 <= t <= Seconds(events)
    ensures |Exec(events).fired| == Seconds(events)
    ensures var id, added, delay := |DueTimes(events[..k])| + 1, Seconds(events[..k]), events[k].delay;
      && (id in Ids(Exec(events).fired[t - 1]) <==> t == Due(added, delay))
      && (t == added + delay ==> (id in Ids(Exec(events).fired[t - 1]) <==> OnTime(added, delay)))
  {
    var id, added, delay := |DueTimes(events[..k])| + 1, Seconds(events[..k]), events[k].delay;
    WheelFiresTheAgenda(events, t);
    DueTimeOf(events, k);
    FiringLaw(added, delay);
    hide Exec, DueTimes, Due, OnTime, Seconds;
    IdsCount(Exec(events).fired[t - 1], IdsDueAt(DueTimes(events), t), id);
  }
}
