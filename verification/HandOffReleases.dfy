/** Which runs end with a socket deleted twice, or deleted while it is in use: exactly
    those that close a socket that is not in `m_sockets`. */
module HandOffReleases {
  import opened HandOff
  import opened HandOffSafety

  // ----- runs in two parts -----

  lemma {:induction false} RunJoin(s: State, a: seq<Event>, b: seq<Event>)
    requires IsRun(s, a)
    ensures IsRun(s, a + b) <==> IsRun(After(s, a), b)
    ensures IsRun(s, a + b) ==> After(s, a + b) == After(After(s, a), b)
    decreases |a|
  {
    hide Enabled, Step;
    if a == [] {
      assert a + b == b;
    } else {
      RunJoin(Step(s, a[0]), a[1..], b);
      assert (a + b)[0] == a[0] && (a + b)[1..] == a[1..] + b;
    }
  }

  lemma {:induction false} ProperJoin(s: State, a: seq<Event>, b: seq<Event>, i: Index)
    requires IsRun(s, a) && IsRun(s, a + b) && IsRun(After(s, a), b)
    ensures Proper(s, a + b, i) <==> Proper(s, a, i) && Proper(After(s, a), b, i)
    decreases |a|
  {
    hide Enabled, Step, ClosesPresent;
    if a == [] {
      assert a + b == b;
    } else {
      assert (a + b)[0] == a[0] && (a + b)[1..] == a[1..] + b;
      ProperJoin(Step(s, a[0]), a[1..], b, i);
    }
  }

  /** Nothing is closed but by kicks and failed reads of sockets that are there. */
  ghost predicate ClosesNothing(events: seq<Event>) {
    forall k :: 0 <= k < |events| ==> !events[k].NetClose?
  }

  lemma {:induction false} QuietIsProper(s: State, events: seq<Event>, i: Index)
    requires IsRun(s, events) && ClosesNothing(events)
    ensures Proper(s, events, i)
    decreases |events|
  {
    hide Enabled, Step;
    if events != [] {
      QuietIsProper(Step(s, events[0]), events[1..], i);
    }
  }

  // ----- working everything off -----

  /** What working off leaves as it is. */
  ghost predicate Kept(s: State, t: State) {
    && t.m.sockets == s.m.sockets && t.m.newSockets == s.m.newSockets
    && t.h.added == s.h.added && t.h.deleted == s.h.deleted
  }

  lemma OneMore(s: State, e: Event, events: seq<Event>)
    requires Enabled(s, e) && IsRun(Step(s, e), events)
    ensures IsRun(s, [e] + events) && After(s, [e] + events) == After(Step(s, e), events)
  {
    hide Enabled, Step;
    assert ([e] + events)[1..] == events;
  }

  /** The logic thread makes all the calls of its turn. */
  lemma {:induction false} FinishTurn(s: State) returns (events: seq<Event>)
    ensures IsRun(s, events) && ClosesNothing(events)
    ensures var t := After(s, events);
      Idle(t.logic) && t.m == s.m && t.net == s.net && Kept(s, t)
    decreases |s.logic.finished|, |s.logic.inits|, |s.logic.packets|, |s.logic.closes|
  {
    var l := s.logic;
    if Idle(l) {
      events := [];
    } else {
      var e := if l.finished != [] then Free else if l.inits != [] then CallInit
               else if l.packets != [] then CallHandle else CallClose;
      events := FinishTurn(Step(s, e));
      OneMore(s, e, events);
      events := [e] + events;
    }
  }

  /** The net thread deletes the sockets it has taken over. */
  lemma {:induction false} ReleaseAll(s: State) returns (events: seq<Event>)
    ensures IsRun(s, events) && ClosesNothing(events)
    ensures var t := After(s, events);
      t.net.releasing == [] && t.m == s.m && t.logic == s.logic && Kept(s, t)
    decreases |s.net.releasing|
  {
    if s.net.releasing == [] {
      events := [];
    } else {
      events := ReleaseAll(Step(s, NetRelease));
      OneMore(s, NetRelease, events);
      events := [NetRelease] + events;
    }
  }

  /** Nothing is on its way to deletion any more. */
  ghost predicate Drained(s: State) {
    && s.net.releasing == [] && s.m.deleteSockets == [] && s.logic.closed == []
    && s.logic.closes == [] && s.m.waitDeleteSockets == []
  }

  /** From between two turns, one more turn hands everything back, and it is deleted. */
  lemma DrainTurn(s: State) returns (events: seq<Event>)
    requires Idle(s.logic) && s.logic.handled == [] && s.logic.closed == []
    ensures IsRun(s, events) && ClosesNothing(events)
    ensures Drained(After(s, events)) && Kept(s, After(s, events))
  {
    var s1 := Step(s, SwapIn);
    var turn := FinishTurn(s1);
    var s2 := After(s1, turn);
    var s3 := Step(s2, SwapOut);
    var s4 := Step(s3, NetTakeDeletes);
    var release := ReleaseAll(s4);
    OneMore(s3, NetTakeDeletes, release);
    OneMore(s2, SwapOut, [NetTakeDeletes] + release);
    RunJoin(s1, turn, [SwapOut] + ([NetTakeDeletes] + release));
    OneMore(s, SwapIn, turn + ([SwapOut] + ([NetTakeDeletes] + release)));
    events := [SwapIn] + (turn + ([SwapOut] + ([NetTakeDeletes] + release)));
  }

  /** From anywhere, everything on its way to deletion can be deleted. */
  lemma Drain(s: State) returns (events: seq<Event>)
    requires Inv(s)
    ensures IsRun(s, events) && ClosesNothing(events) && Kept(s, After(s, events))
    ensures After(s, events).h.released == s.h.deleted
  {
    var turn := FinishTurn(s);
    var s1 := After(s, turn);
    var s2 := Step(s1, SwapOut);
    var rest := DrainTurn(s2);
    OneMore(s1, SwapOut, rest);
    RunJoin(s, turn, [SwapOut] + rest);
    events := turn + ([SwapOut] + rest);
    RunKeepsInv(s, events);
  }

  // ----- the result -----

  /** The socket, if it is deleted from memory, is deleted once, and nothing refers to it. */
  ghost predicate SafelyReleased(s: State, i: Index) {
    i in s.h.released ==>
      multiset(s.h.released)[i] == 1 && i in s.h.added && i !in s.m.sockets && i !in s.m.newSockets
  }

  lemma OnceIsSafe(s: State, i: Index)
    requires Inv(s) && Once(s, i)
    ensures SafelyReleased(s, i)
  {
    if i in s.h.released {
      ReleasedIsGone(s, i);
      AddedIsNotNew(s, i);
    }
  }

  lemma MoreIsUnsafe(s: State, t: State, i: Index)
    requires Sockets(s) && !Once(s, i) && Kept(s, t) && t.h.released == s.h.deleted
    ensures !SafelyReleased(t, i)
  {
  }

  /** For every run, every socket: it is closed only while it is in `m_sockets` if and only
      if, however the run goes on without further closes from outside, the socket is deleted
      at most once, and only after it was added and when nothing refers to it. */
  lemma SafeIffProper(index: nat, events: seq<Event>, i: Index)
    requires IsRun(Start(index), events)
    ensures Proper(Start(index), events, i) <==>
            forall more :: ClosesNothing(more) && IsRun(Start(index), events + more) ==>
              SafelyReleased(After(Start(index), events + more), i)
  {
    hide IsRun, After, Proper, Inv, Once, SafelyReleased;
    var s := Start(index);
    if Proper(s, events, i) {
      forall more | ClosesNothing(more) && IsRun(s, events + more)
        ensures SafelyReleased(After(s, events + more), i)
      {
        RunJoin(s, events, more);
        QuietIsProper(After(s, events), more, i);
        ProperJoin(s, events, more, i);
        TakenOutOnce(index, events + more, i);
        Reachable(index, events + more);
        OnceIsSafe(After(s, events + more), i);
      }
    } else {
      TakenOutOnce(index, events, i);
      Reachable(index, events);
      HasSockets(After(s, events));
      var more := Drain(After(s, events));
      RunJoin(s, events, more);
      MoreIsUnsafe(After(s, events), After(s, events + more), i);
    }
  }

  // ----- two runs that go wrong -----

  lemma OneAdded() returns (events: seq<Event>)
    ensures IsRun(Start(0), events)
    ensures var t := After(Start(0), events);
      t.m.sockets == map[1 := Sock(true, [])] && t == Start(0).(m := t.m, h := t.h)
      && t.h.deleted == [] && t.m.waitKickSockets == []
  {
    OneMore(Step(Start(0), NetAccept), NetAdd, []);
    OneMore(Start(0), NetAccept, [NetAdd] + []);
    events := [NetAccept] + ([NetAdd] + []);
  }

  /** The service asks for a kick, and the net thread takes it over. */
  lemma AskForKick(s: State, i: Index) returns (events: seq<Event>)
    requires Idle(s.logic) && s.logic.waitKickSockets == [] && s.m.waitKickSockets == [] && s.net.kicking == []
    ensures IsRun(s, events)
    ensures var t := After(s, events);
      t.net.kicking == [i] && t.m.sockets == s.m.sockets && t.h.deleted == s.h.deleted
  {
    var s1 := Step(s, PushKick(i));
    var s2 := Step(s1, SwapOut);
    OneMore(s2, NetTakeKicks, []);
    OneMore(s1, SwapOut, [NetTakeKicks] + []);
    OneMore(s, PushKick(i), [SwapOut] + ([NetTakeKicks] + []));
    events := [PushKick(i)] + ([SwapOut] + ([NetTakeKicks] + []));
  }

  lemma KickThenClose() returns (events: seq<Event>)
    ensures IsRun(Start(0), events) && After(Start(0), events).h.deleted == [1, 1]
  {
    var added := OneAdded();
    var ask := AskForKick(After(Start(0), added), 1);
    RunJoin(Start(0), added, ask);
    var front := added + ask;
    var s := After(Start(0), front);
    OneMore(Step(s, NetKick), NetClose(1), []);
    OneMore(s, NetKick, [NetClose(1)] + []);
    RunJoin(Start(0), front, [NetKick] + ([NetClose(1)] + []));
    events := front + ([NetKick] + ([NetClose(1)] + []));
  }

  /** A socket is kicked, and its close handler then closes it again: it is deleted twice. */
  lemma KickedThenClosed()
    ensures exists events :: IsRun(Start(0), events) && After(Start(0), events).h.released == [1, 1]
  {
    var events := KickThenClose();
    Reachable(0, events);
    var more := Drain(After(Start(0), events));
    RunJoin(Start(0), events, more);
    assert IsRun(Start(0), events + more);
  }

  lemma CloseThenAdd() returns (events: seq<Event>)
    ensures IsRun(Start(0), events)
    ensures After(Start(0), events).h.deleted == [1] && 1 in After(Start(0), events).m.sockets
  {
    var s0 := Start(0);
    var s1 := Step(s0, NetAccept);
    var s2 := Step(s1, NetClose(1));
    var s3 := Step(s2, NetAdd);
    assert s3.h.deleted == [1] && 1 in s3.m.sockets;
    hide Step;
    events := [];
    OneMore(s2, NetAdd, events);
    events := [NetAdd] + events;
    OneMore(s1, NetClose(1), events);
    events := [NetClose(1)] + events;
    OneMore(s0, NetAccept, events);
    events := [NetAccept] + events;
  }

  /** A client goes before its socket has been added: the socket is deleted while it is
      in `m_sockets`. */
  lemma ClosedThenAdded()
    ensures exists events :: IsRun(Start(0), events) &&
              1 in After(Start(0), events).h.released && 1 in After(Start(0), events).m.sockets
  {
    var events := CloseThenAdd();
    Reachable(0, events);
    var more := Drain(After(Start(0), events));
    RunJoin(Start(0), events, more);
    assert IsRun(Start(0), events + more);
  }
}
