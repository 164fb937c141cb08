/** Timers that callbacks add while their slot is being fired: unless their delay is 0, it
    is as if they were added right after the second. */
module TimerCallbacks {
  import opened TimerWheel
  import opened TimerRuns

  /** `add_timer` for each of the delays in turn. */
  function AddAll(w: Wheel, first: nat, delays: seq<nat>): (r: Wheel)
    requires w.rows.Sized()
    ensures r.rows.Sized()
    decreases |delays|
  {
    if delays == [] then w else AddAll(AddTimer(w, first, delays[0]), first + 1, delays[1..])
  }

  /** The wheel with the slot of this second emptied. */
  function Emptied(w: Wheel): Wheel
    requires w.rows.Sized() && w.second < 60
  {
    w.(rows := w.rows.With(Second, w.rows.seconds[w.second := []]))
  }

  /** The wheel when the callbacks of a second begin: the hands have moved on, and the slot
      still holds the timers that fire. */
  function Firing(w: Wheel): (r: Wheel)
    requires w.rows.Valid()
    ensures r.rows.Valid() && r.second < 60
  {
    var w1 := w.(second := w.second + 1);
    var w2 := if w1.second >= 60 then ProcMinute(w1) else w1;
    w2.(second := w2.second % 60)
  }

  /** `proc_second_nodes` with callbacks that add timers of the given delays; the slot is
      emptied when all have run. */
  function TickAdding(w: Wheel, first: nat, delays: seq<nat>): (Wheel, seq<Timer>)
    requires w.rows.Valid()
  {
    var w1 := Firing(w);
    var w2 := AddAll(w1, first, delays);
    AddAllKeepsHands(w1, first, delays);
    (Emptied(w2), w1.rows.seconds[w1.second])
  }

  lemma {:induction false} AddAllKeepsHands(w: Wheel, first: nat, delays: seq<nat>)
    requires w.rows.Sized()
    ensures AddAll(w, first, delays).second == w.second
    decreases |delays|
  {
    if delays != [] {
      AddAllKeepsHands(AddTimer(w, first, delays[0]), first + 1, delays[1..]);
    }
  }

  /** A positive delay does not go into the slot of this second. */
  lemma AddElsewhere(w: Wheel, id: nat, delay: nat)
    requires w.rows.Sized() && w.second < 60 && delay > 0
    ensures AddTimer(Emptied(w), id, delay) == Emptied(AddTimer(w, id, delay))
    ensures AddTimer(w, id, delay).rows.seconds[w.second] == w.rows.seconds[w.second]
  {
    if FileLevel(delay) == Second {
      var i := SlotFor(Second, w.second, delay);
      assert i != w.second;
      var s, x := w.rows.seconds, NewTimer(w, id, delay);
      assert s[w.second := []][i := Insert(s[i], x)] == s[i := Insert(s[i], x)][w.second := []];
    }
  }

  lemma {:induction false} AddAllElsewhere(w: Wheel, first: nat, delays: seq<nat>)
    requires w.rows.Sized() && w.second < 60 && forall k :: 0 <= k < |delays| ==> delays[k] > 0
    ensures AddAll(w, first, delays).second == w.second
    ensures AddAll(Emptied(w), first, delays) == Emptied(AddAll(w, first, delays))
    ensures AddAll(w, first, delays).rows.seconds[w.second] == w.rows.seconds[w.second]
    decreases |delays|
  {
    if delays != [] {
      hide AddTimer, Emptied;
      var w' := AddTimer(w, first, delays[0]);
      AddKeepsSecond(w, first, delays[0]);
      AddElsewhere(w, first, delays[0]);
      AddAllElsewhere(w', first + 1, delays[1..]);
    }
  }

  lemma AddKeepsSecond(w: Wheel, id: nat, delay: nat)
    requires w.rows.Sized()
    ensures AddTimer(w, id, delay).second == w.second && AddTimer(w, id, delay).rows.Sized()
  {
  }

  lemma TickIsEmptied(w: Wheel)
    requires w.rows.Valid()
    ensures Tick(w) == (Emptied(Firing(w)), Firing(w).rows.seconds[Firing(w).second])
  {
    hide ProcMinute;
  }

  /** Callbacks that add timers of positive delay: the same timers fire, the callbacks add
      none to them, and the wheel is as if the timers had been added after the second. */
  lemma AddingWhileFiring(w: Wheel, first: nat, delays: seq<nat>)
    requires w.rows.Valid() && forall k :: 0 <= k < |delays| ==> delays[k] > 0
    ensures TickAdding(w, first, delays) == (AddAll(Tick(w).0, first, delays), Tick(w).1)
    ensures AddAll(Firing(w), first, delays).rows.seconds[Firing(w).second] == Tick(w).1
  {
    TickIsEmptied(w);
    AddAllElsewhere(Firing(w), first, delays);
  }

  // ----- runs -----

  function Additions(delays: seq<nat>): seq<Event> {
    seq(|delays|, k requires 0 <= k < |delays| => Add(delays[k]))
  }

  lemma ExecMore(events: seq<Event>, e: Event)
    ensures Exec(events + [e]) == (
      var h := Exec(events);
      match e
      case Add(delay) =>
        var id := |h.added| + 1;
        History(AddTimer(h.wheel, id, delay), h.added + [NewTimer(h.wheel, id, delay)], h.fired)
      case SecondPasses => History(Tick(h.wheel).0, h.added, h.fired + [Tick(h.wheel).1]))
  {
    hide Tick, AddTimer, NewTimer;
    assert (events + [e])[..|events|] == events;
  }

  lemma {:induction false} AdditionsRun(events: seq<Event>, delays: seq<nat>)
    ensures var h, h' := Exec(events), Exec(events + Additions(delays));
      && h'.wheel == AddAll(h.wheel, |h.added| + 1, delays)
      && h'.fired == h.fired && |h'.added| == |h.added| + |delays|
    decreases |delays|
  {
    hide Exec, AddTimer, NewTimer, Tick;
    if delays == [] {
      assert events + Additions(delays) == events;
    } else {
      var e := Add(delays[0]);
      ExecMore(events, e);
      AdditionsRun(events + [e], delays[1..]);
      assert events + Additions(delays) == events + [e] + Additions(delays[1..]);
    }
  }

  /** A second whose callbacks add timers of positive delay leads to the wheel of the run in
      which the additions come right after the second; so what holds of all runs, each timer
      firing at its due second alone, holds of the timers that callbacks add. */
  lemma CallbacksAddToRuns(events: seq<Event>, delays: seq<nat>)
    requires forall k :: 0 <= k < |delays| ==> delays[k] > 0
    ensures var h, h' := Exec(events), Exec(events + [SecondPasses] + Additions(delays));
      && TickAdding(h.wheel, |h.added| + 1, delays).0 == h'.wheel
      && h'.fired == h.fired + [TickAdding(h.wheel, |h.added| + 1, delays).1]
  {
    hide Exec, Tick, TickAdding;
    ExecMore(events, SecondPasses);
    AdditionsRun(events + [SecondPasses], delays);
    AddingWhileFiring(Exec(events).wheel, |Exec(events).added| + 1, delays);
  }
}
