/** What holds in every state that any interleaving of the two threads can reach. */
module HandOffSafety {
  import opened Sequences
  import opened HandOff

  // ----- the ways of a packet to be sent, of a packet read, of a socket closed -----

  /** Every packet pushed is at one point of its way, in the order in which they were pushed. */
  ghost predicate WritePipe(s: State) {
    && Done(s) + s.net.writing + s.m.writePackets + s.logic.writePackets == s.h.pushed
    && forall k :: 0 <= k < |s.h.pushed| ==> s.h.pushed[k].id == k
  }

  /** Every packet read is at one point of its way, in the order in which they were read. */
  ghost predicate ReadPipe(s: State) {
    s.h.releasedPackets + s.net.releasingPackets + s.m.finishReadPackets
    + s.logic.handled + s.logic.packets + s.m.readPackets == s.h.unpacked
  }

  /** Every socket given to `del_socket` is at one point of its way, as often and in the order in
      which they were given. */
  ghost predicate ClosePipe(s: State) {
    s.h.released + s.net.releasing + s.m.deleteSockets
    + s.logic.closed + s.logic.closes + s.m.waitDeleteSockets == s.h.deleted
  }

  lemma StepKeepsDone(s: State, event: Event)
    requires Enabled(s, event)
    ensures Done(Step(s, event)) ==
            if event.SwapIn? then s.h.freed + s.m.finishWritePackets + s.net.sent
            else if event.NetSend? then Done(s) + [s.net.writing[0]]
            else Done(s)
  {
    var s' := Step(s, event);
    match event {
      case NetSend =>
        assert Done(s') == Done(s) + [s.net.writing[0]];
      case Free =>
        assert s'.h.freed + s'.logic.finished == s.h.freed + s.logic.finished;
      case _ =>
    }
  }

  lemma StepKeepsWritePipe(s: State, event: Event)
    requires Enabled(s, event) && WritePipe(s)
    ensures WritePipe(Step(s, event))
    ensures Done(Step(s, event)) == if event.NetSend? then Done(s) + [s.net.writing[0]] else Done(s)
  {
    var s' := Step(s, event);
    StepKeepsDone(s, event);
    var done := Done(s) + s.net.writing;
    if event.SwapIn? {
      assert Done(s') == Done(s);
    } else {
      hide Done;
      match event {
        case NetSend =>
          assert Done(s') + s'.net.writing == done;
        case NetTakeWrites =>
          assert Done(s) + (s.net.writing + s.m.writePackets) == done + s.m.writePackets;
        case SwapOut =>
          assert done + (s.m.writePackets + s.logic.writePackets) + []
              == done + s.m.writePackets + s.logic.writePackets;
        case PushWrite(socket) =>
          var w, info := done + s.m.writePackets, SendInfo(|s.h.pushed|, socket);
          assert w + (s.logic.writePackets + [info]) == w + s.logic.writePackets + [info];
        case _ =>
      }
    }
  }

  lemma StepKeepsReadPipe(s: State, event: Event)
    requires Enabled(s, event) && ReadPipe(s)
    ensures ReadPipe(Step(s, event))
  {
    var s' := Step(s, event);
    var done := s.h.releasedPackets + s.net.releasingPackets;
    match event {
      case NetReleasePackets =>
        assert s'.h.releasedPackets + [] == done;
      case NetTakeFinishRead =>
        assert s'.h.releasedPackets + s'.net.releasingPackets + [] == done + s.m.finishReadPackets;
      case SwapOut =>
        assert done + (s.m.finishReadPackets + s.logic.handled) + [] == done + s.m.finishReadPackets + s.logic.handled;
      case CallHandle =>
        var mid := done + s.m.finishReadPackets;
        assert s.logic.packets == [s.logic.packets[0]] + s'.logic.packets;
        assert mid + s'.logic.handled + s'.logic.packets == mid + s.logic.handled + s.logic.packets;
      case SwapIn =>
      case NetUnpack(i, packets) =>
        var mid := done + s.m.finishReadPackets + s.logic.handled + s.logic.packets;
        assert mid + (s.m.readPackets + packets) == mid + s.m.readPackets + packets;
      case _ =>
    }
  }

  lemma StepKeepsClosePipe(s: State, event: Event)
    requires Enabled(s, event) && ClosePipe(s)
    ensures ClosePipe(Step(s, event))
  {
    var s' := Step(s, event);
    var done := s.h.released + s.net.releasing;
    match event {
      case NetRelease =>
        assert s.net.releasing == [s.net.releasing[0]] + s'.net.releasing;
        assert s'.h.released + s'.net.releasing == done;
      case NetTakeDeletes =>
        assert s'.h.released + s'.net.releasing + [] == done + s.m.deleteSockets;
      case SwapOut =>
        assert done + (s.m.deleteSockets + s.logic.closed) + [] == done + s.m.deleteSockets + s.logic.closed;
      case CallClose =>
        var mid := done + s.m.deleteSockets;
        assert s.logic.closes == [s.logic.closes[0]] + s'.logic.closes;
        assert mid + s'.logic.closed + s'.logic.closes == mid + s.logic.closed + s.logic.closes;
      case SwapIn =>
      case NetClose(i) => Appended(s, s', i);
      case NetKick =>
        if s.net.kicking[0] in s.m.sockets {
          Appended(s, s', s.net.kicking[0]);
        }
      case _ =>
    }
  }

  lemma Appended(s: State, s': State, i: Index)
    requires ClosePipe(s)
    requires s'.h.released == s.h.released && s'.net.releasing == s.net.releasing
    requires s'.m.deleteSockets == s.m.deleteSockets && s'.logic.closed == s.logic.closed
    requires s'.logic.closes == s.logic.closes && s'.m.waitDeleteSockets == s.m.waitDeleteSockets + [i]
    requires s'.h.deleted == s.h.deleted + [i]
    ensures ClosePipe(s')
  {
    var mid := s.h.released + s.net.releasing + s.m.deleteSockets + s.logic.closed + s.logic.closes;
    assert mid + (s.m.waitDeleteSockets + [i]) == mid + s.m.waitDeleteSockets + [i];
  }

  // ----- which sockets there are -----

  ghost predicate Rising(q: seq<Index>, last: Index) {
    && (forall a, b :: 0 <= a < b < |q| ==> q[a] < q[b])
    && (forall a :: 0 <= a < |q| ==> q[a] <= last)
  }

  ghost predicate Distinct<T(!new)>(q: seq<T>) {
    forall a, b :: 0 <= a < b < |q| ==> q[a] != q[b]
  }

  /** Indices never repeat, and a socket that was added and not taken out is in `m_sockets`. */
  ghost predicate Sockets(s: State) {
    && Rising(s.h.added + s.m.newSockets, s.m.sequenceIndex)
    && (forall i :: i in s.m.sockets ==> i in s.h.added)
    && (forall i :: i in s.h.added && i !in s.h.deleted ==> i in s.m.sockets)
    && (forall k :: 0 <= k < |s.h.unpacked| ==> s.h.unpacked[k].socket in s.h.added)
  }

  /** A socket is taken out once at most, after it was added, and is then not in `m_sockets`. */
  ghost predicate Once(s: State, i: Index) {
    && (i in s.m.sockets <==> i in s.h.added && i !in s.h.deleted)
    && (i in s.h.deleted ==> i in s.h.added)
    && multiset(s.h.deleted)[i] <= 1
  }

  /** The branch of `add_socket` for a repeated index is never taken. */
  lemma NextIsNew(s: State)
    requires Sockets(s) && s.m.newSockets != []
    ensures s.m.newSockets[0] !in s.h.added && s.m.newSockets[0] !in s.m.sockets
  {
    var q := s.h.added + s.m.newSockets;
    assert q[|s.h.added|] == s.m.newSockets[0];
    forall i | i in s.h.added
      ensures i < s.m.newSockets[0]
    {
      var a :| 0 <= a < |s.h.added| && s.h.added[a] == i;
      assert q[a] == i;
    }
  }

  lemma StepKeepsSockets(s: State, event: Event)
    requires Enabled(s, event) && Sockets(s)
    ensures Sockets(Step(s, event))
  {
    var s' := Step(s, event);
    match event {
      case NetAdd =>
        NextIsNew(s);
        assert s'.h.added + s'.m.newSockets == s.h.added + s.m.newSockets;
      case NetAccept =>
        assert s'.h.added + s'.m.newSockets == (s.h.added + s.m.newSockets) + [s'.m.sequenceIndex];
      case _ =>
    }
  }

  /** `del_socket` does not ask whether a socket is in `m_sockets`; the net thread calls it
      in handling kicks, which does ask, and from elsewhere. */
  ghost predicate ClosesPresent(s: State, event: Event, i: Index) {
    event == NetClose(i) ==> i in s.m.sockets
  }

  /** A step keeps a socket from being taken out twice, or before it is added, if and only
      if it does not close the socket when it is not there; and what has happened stays so. */
  lemma StepKeepsOnce(s: State, event: Event, i: Index)
    requires Enabled(s, event) && Sockets(s)
    ensures Once(Step(s, event), i) <==> Once(s, i) && ClosesPresent(s, event, i)
  {
    hide Enabled, Step, Once, Sockets;
    var t := Step(s, event);
    match event {
      case NetAdd => AddKeepsOnce(s, i);
      case NetClose(x) =>
        CloseTakesOut(s, x);
        TakenOut(s, t, x, i);
      case NetKick =>
        KickTakesOut(s);
        if s.net.kicking[0] in s.m.sockets {
          TakenOut(s, t, s.net.kicking[0], i);
        } else {
          NotTakenOut(s, t, i);
        }
      case _ =>
        OthersTakeNothing(s, event);
        NotTakenOut(s, t, i);
    }
  }

  lemma TakenOut(s: State, t: State, x: Index, i: Index)
    requires Sockets(s) && t.m.sockets.Keys == s.m.sockets.Keys - {x}
    requires t.h.added == s.h.added && t.h.deleted == s.h.deleted + [x]
    ensures Once(t, i) <==> Once(s, i) && (i == x ==> i in s.m.sockets)
  {
    TakenOutMore(s.h.deleted, x, i);
    assert i in t.m.sockets <==> i in s.m.sockets && i != x;
  }

  lemma NotTakenOut(s: State, t: State, i: Index)
    requires t.m.sockets.Keys == s.m.sockets.Keys && t.h.added == s.h.added && t.h.deleted == s.h.deleted
    ensures Once(t, i) <==> Once(s, i)
  {
    assert i in t.m.sockets <==> i in s.m.sockets;
  }

  lemma TakenOutMore(deleted: seq<Index>, x: Index, i: Index)
    ensures multiset(deleted + [x])[i] == multiset(deleted)[i] + if i == x then 1 else 0
    ensures i in deleted <==> multiset(deleted)[i] > 0
  {
  }

  lemma AddKeepsOnce(s: State, i: Index)
    requires Enabled(s, NetAdd) && Sockets(s)
    ensures Once(Step(s, NetAdd), i) <==> Once(s, i)
  {
    NextIsNew(s);
  }

  lemma CloseTakesOut(s: State, x: Index)
    requires Enabled(s, NetClose(x))
    ensures var t := Step(s, NetClose(x));
      t.m.sockets.Keys == s.m.sockets.Keys - {x} && t.h.added == s.h.added && t.h.deleted == s.h.deleted + [x]
  {
  }

  lemma KickTakesOut(s: State)
    requires Enabled(s, NetKick)
    ensures s.net.kicking != []
    ensures var t, x := Step(s, NetKick), s.net.kicking[0];
      && t.m.sockets.Keys == s.m.sockets.Keys - {x} && t.h.added == s.h.added
      && t.h.deleted == s.h.deleted + if x in s.m.sockets then [x] else []
  {
  }

  lemma OthersTakeNothing(s: State, event: Event)
    requires Enabled(s, event) && !event.NetAdd? && !event.NetClose? && !event.NetKick?
    ensures var t := Step(s, event);
      t.m.sockets.Keys == s.m.sockets.Keys && t.h.added == s.h.added && t.h.deleted == s.h.deleted
  {
  }

  // ----- the calls for each socket -----

  function Inits(q: seq<Index>): seq<Call> {
    seq(|q|, k requires 0 <= k < |q| => Init(q[k]))
  }

  function Handles(q: seq<Packet>): seq<Call> {
    seq(|q|, k requires 0 <= k < |q| => Handle(q[k].socket, q[k].data))
  }

  function Closes(q: seq<Index>): seq<Call> {
    seq(|q|, k requires 0 <= k < |q| => Close(q[k]))
  }

  /** The calls for one socket. */
  function CallsOf(calls: seq<Call>, i: Index): seq<Call> {
    if calls == [] then [] else (if calls[0].socket == i then [calls[0]] else []) + CallsOf(calls[1..], i)
  }

  /** The calls one turn of `do_loop` makes, in its order. */
  function Batch(inits: seq<Index>, packets: seq<Packet>, closes: seq<Index>): seq<Call> {
    Inits(inits) + Handles(packets) + Closes(closes)
  }

  /** The calls made and those this turn still makes. */
  function Front(s: State): seq<Call> {
    s.h.calls + Batch(s.logic.inits, s.logic.packets, s.logic.closes)
  }

  /** The calls made, those this turn still makes, and those in store for the next turn. */
  function Queue(s: State): seq<Call> {
    Front(s) + Batch(s.m.waitInitSockets, s.m.readPackets, s.m.waitDeleteSockets)
  }

  /** What the life of a socket so far asks for: one init when it was added, one handle
      for each of its packets in the order read, one close when it was taken out. */
  function Story(h: History, i: Index): seq<Call> {
    (if i in h.added then [Init(i)] else []) + CallsOf(Handles(h.unpacked), i)
    + (if i in h.deleted then [Close(i)] else [])
  }

  ghost predicate Follows(s: State, i: Index) {
    CallsOf(Queue(s), i) == Story(s.h, i)
  }

  lemma {:induction false} CallsOfJoin(c: seq<Call>, d: seq<Call>, i: Index)
    ensures CallsOf(c + d, i) == CallsOf(c, i) + CallsOf(d, i)
  {
    if c == [] {
      assert c + d == d;
    } else {
      CallsOfJoin(c[1..], d, i);
      assert (c + d)[1..] == c[1..] + d;
      var own := if c[0].socket == i then [c[0]] else [];
      assert own + (CallsOf(c[1..], i) + CallsOf(d, i)) == own + CallsOf(c[1..], i) + CallsOf(d, i);
    }
  }

  lemma {:induction false} CallsOfNone(c: seq<Call>, i: Index)
    requires forall k :: 0 <= k < |c| ==> c[k].socket != i
    ensures CallsOf(c, i) == []
  {
    if c != [] {
      CallsOfNone(c[1..], i);
    }
  }

  lemma CallsOfOne(c: Call, i: Index)
    ensures CallsOf([c], i) == if c.socket == i then [c] else []
  {
    assert [c][1..] == [];
  }

  lemma BatchInit(a: seq<Index>, b: seq<Packet>, c: seq<Index>)
    requires a != []
    ensures Batch(a, b, c) == [Init(a[0])] + Batch(a[1..], b, c)
  {
  }

  lemma BatchHandle(b: seq<Packet>, c: seq<Index>)
    requires b != []
    ensures Batch([], b, c) == [Handle(b[0].socket, b[0].data)] + Batch([], b[1..], c)
  {
  }

  lemma BatchClose(c: seq<Index>)
    requires c != []
    ensures Batch([], [], c) == [Close(c[0])] + Batch([], [], c[1..])
  {
  }

  /** The logic thread makes the calls in the order in which they are queued. */
  lemma LogicKeepsQueue(s: State, event: Event)
    requires Enabled(s, event) && ByLogic(event)
    ensures Queue(Step(s, event)) == Queue(s)
  {
    var s' := Step(s, event);
    var l := s.logic;
    assert Batch([], [], []) == [];
    if event.CallInit? {
      BatchInit(l.inits, l.packets, l.closes);
    } else if event.CallHandle? {
      BatchHandle(l.packets, l.closes);
    } else if event.CallClose? {
      BatchClose(l.closes);
    }
    hide Batch;
    var now := Batch(s'.logic.inits, s'.logic.packets, s'.logic.closes);
    match event {
      case CallInit => Associative(s.h.calls, [Init(l.inits[0])], now);
      case CallHandle => Associative(s.h.calls, [Handle(l.packets[0].socket, l.packets[0].data)], now);
      case CallClose => Associative(s.h.calls, [Close(l.closes[0])], now);
      case _ =>
    }
  }

  /** The calls for a socket, part by part. */
  lemma QueueParts(s: State, i: Index)
    ensures CallsOf(Queue(s), i) ==
            CallsOf(Front(s), i) + CallsOf(Inits(s.m.waitInitSockets), i)
            + CallsOf(Handles(s.m.readPackets), i) + CallsOf(Closes(s.m.waitDeleteSockets), i)
  {
    var a, b, c := Inits(s.m.waitInitSockets), Handles(s.m.readPackets), Closes(s.m.waitDeleteSockets);
    assert Queue(s) == Front(s) + a + b + c by {
      hide Inits, Handles, Closes, CallsOf;
      assert Front(s) + (a + b + c) == Front(s) + a + b + c;
    }
    hide Queue, Front, Inits, Handles, Closes, CallsOf;
    CallsOfJoin(Front(s) + a + b, c, i);
    CallsOfJoin(Front(s) + a, b, i);
    CallsOfJoin(Front(s), a, i);
  }

  lemma PartsJoin(a: seq<Index>, b: seq<Packet>, c: seq<Packet>, x: Index)
    ensures Inits(a + [x]) == Inits(a) + [Init(x)]
    ensures Handles(b + c) == Handles(b) + Handles(c)
    ensures Closes(a + [x]) == Closes(a) + [Close(x)]
  {
  }

  /** How a part that is added to one of the four shows in the whole. */
  lemma AddedInit(f: seq<Call>, a: seq<Call>, b: seq<Call>, c: seq<Call>, n: seq<Call>)
    requires f + a + b + c == []
    ensures f + (a + n) + b + c == n + [] + []
  {
  }

  lemma AddedHandles(f: seq<Call>, a: seq<Call>, b: seq<Call>, c: seq<Call>, init: seq<Call>, h: seq<Call>,
                     close: seq<Call>, n: seq<Call>)
    requires f + a + b + c == init + h + close
    requires n == [] || (c == [] && close == [])
    ensures f + a + (b + n) + c == init + (h + n) + close
  {
    if n == [] {
      assert b + n == b && h + n == h;
    } else {
      assert f + a + (b + n) + [] == (f + a + b + []) + n;
      assert init + (h + n) + [] == (init + h + []) + n;
    }
  }

  lemma AddedClose(f: seq<Call>, a: seq<Call>, b: seq<Call>, c: seq<Call>, init: seq<Call>, h: seq<Call>, n: seq<Call>)
    requires f + a + b + c == init + h + []
    ensures f + a + b + (c + n) == init + h + n
  {
    assert f + a + b + (c + n) == (f + a + b + c) + n;
  }

  lemma AddKeepsCalls(s: State, i: Index)
    requires Enabled(s, NetAdd) && Sockets(s) && Once(s, i) && Follows(s, i)
    ensures Follows(Step(s, NetAdd), i)
  {
    hide CallsOf, Queue, Front, Inits, Handles, Closes, Batch, Sockets, Once;
    var s' := Step(s, NetAdd);
    var x := s.m.newSockets[0];
    NextIsNew(s);
    QueueParts(s, i);
    QueueParts(s', i);
    FrontSame(s, s');
    PartsJoin(s.m.waitInitSockets, [], [], x);
    CallsOfJoin(Inits(s.m.waitInitSockets), [Init(x)], i);
    CallsOfOne(Init(x), i);
    if i == x {
      NoLife(s, i);
      AddedInit(CallsOf(Front(s), i), CallsOf(Inits(s.m.waitInitSockets), i),
        CallsOf(Handles(s.m.readPackets), i), CallsOf(Closes(s.m.waitDeleteSockets), i), [Init(i)]);
    } else {
      assert CallsOf(Inits(s'.m.waitInitSockets), i) == CallsOf(Inits(s.m.waitInitSockets), i);
      assert i in s'.h.added <==> i in s.h.added;
    }
  }

  /** Nothing has happened to a socket that was not added. */
  lemma NoLife(s: State, i: Index)
    requires Sockets(s) && Once(s, i) && i !in s.h.added
    ensures i !in s.h.deleted && CallsOf(Handles(s.h.unpacked), i) == [] && Story(s.h, i) == []
  {
    CallsOfNone(Handles(s.h.unpacked), i);
  }

  lemma UnpackKeepsCalls(s: State, x: Index, packets: seq<Packet>, i: Index)
    requires Enabled(s, NetUnpack(x, packets)) && Once(s, i) && ClosePipe(s) && Follows(s, i)
    ensures Follows(Step(s, NetUnpack(x, packets)), i)
  {
    hide CallsOf, Queue, Front, Inits, Handles, Closes, Batch, ClosePipe, Once;
    var s' := Step(s, NetUnpack(x, packets));
    QueueParts(s, i);
    QueueParts(s', i);
    FrontSame(s, s');
    PartsJoin([], s.m.readPackets, packets, x);
    PartsJoin([], s.h.unpacked, packets, x);
    if i == x {
      NoCloseYet(s, i);
    } else {
      HandlesOfOthers(packets, x, i);
    }
    CallsOfJoin(Handles(s.m.readPackets), Handles(packets), i);
    CallsOfJoin(Handles(s.h.unpacked), Handles(packets), i);
    AddedHandles(CallsOf(Front(s), i), CallsOf(Inits(s.m.waitInitSockets), i),
      CallsOf(Handles(s.m.readPackets), i), CallsOf(Closes(s.m.waitDeleteSockets), i),
      if i in s.h.added then [Init(i)] else [], CallsOf(Handles(s.h.unpacked), i),
      if i in s.h.deleted then [Close(i)] else [], CallsOf(Handles(packets), i));
  }

  lemma HandlesOfOthers(packets: seq<Packet>, x: Index, i: Index)
    requires i != x && forall k :: 0 <= k < |packets| ==> packets[k].socket == x
    ensures CallsOf(Handles(packets), i) == []
  {
    CallsOfNone(Handles(packets), i);
  }

  lemma NoCloseYet(s: State, i: Index)
    requires Once(s, i) && ClosePipe(s) && i in s.m.sockets
    ensures i !in s.h.deleted && CallsOf(Closes(s.m.waitDeleteSockets), i) == []
  {
    assert i !in s.m.waitDeleteSockets;
    CallsOfNone(Closes(s.m.waitDeleteSockets), i);
  }

  lemma RemoveKeepsCalls(s: State, s': State, x: Index, i: Index)
    requires Once(s, i) && Follows(s, i) && (i == x ==> x in s.m.sockets)
    requires s'.m.waitInitSockets == s.m.waitInitSockets && s'.m.readPackets == s.m.readPackets
    requires s'.m.waitDeleteSockets == s.m.waitDeleteSockets + [x]
    requires s'.logic == s.logic && s'.h == s.h.(deleted := s.h.deleted + [x])
    ensures Follows(s', i)
  {
    QueueParts(s, i);
    QueueParts(s', i);
    FrontSame(s, s');
    PartsJoin(s.m.waitDeleteSockets, [], [], x);
    CallsOfOne(Close(x), i);
    hide CallsOf, Queue, Front, Inits, Handles, Closes, Batch;
    CallsOfJoin(Closes(s.m.waitDeleteSockets), [Close(x)], i);
    if i == x {
      AddedClose(CallsOf(Front(s), i), CallsOf(Inits(s.m.waitInitSockets), i),
        CallsOf(Handles(s.m.readPackets), i), CallsOf(Closes(s.m.waitDeleteSockets), i),
        [Init(i)], CallsOf(Handles(s.h.unpacked), i), [Close(i)]);
    } else {
      assert CallsOf(Closes(s'.m.waitDeleteSockets), i) == CallsOf(Closes(s.m.waitDeleteSockets), i);
    }
  }

  lemma FrontSame(s: State, s': State)
    requires s'.logic == s.logic && s'.h.calls == s.h.calls
    ensures Front(s') == Front(s)
  {
  }

  /** No other step of the net thread changes what is queued. */
  lemma OthersKeepQueue(s: State, event: Event)
    requires Enabled(s, event) && !ByLogic(event)
    requires !event.NetAdd? && !event.NetUnpack? && !event.NetClose?
    requires event.NetKick? ==> s.net.kicking[0] !in s.m.sockets
    ensures Queue(Step(s, event)) == Queue(s)
    ensures Step(s, event).h.(releasedPackets := s.h.releasedPackets, released := s.h.released) == s.h
  {
    hide Batch, Done;
  }

  lemma LogicKeepsStory(s: State, event: Event)
    requires Enabled(s, event) && ByLogic(event)
    ensures var h := Step(s, event).h; h.added == s.h.added && h.unpacked == s.h.unpacked && h.deleted == s.h.deleted
  {
  }

  lemma LogicKeepsCalls(s: State, event: Event, i: Index)
    requires Enabled(s, event) && ByLogic(event) && Follows(s, i)
    ensures Follows(Step(s, event), i)
  {
    hide CallsOf, Queue, Handles, Step;
    LogicKeepsQueue(s, event);
    LogicKeepsStory(s, event);
  }

  lemma OthersKeepCalls(s: State, event: Event, i: Index)
    requires Enabled(s, event) && !ByLogic(event) && Follows(s, i)
    requires !event.NetAdd? && !event.NetUnpack? && !event.NetClose?
    requires event.NetKick? ==> s.net.kicking[0] !in s.m.sockets
    ensures Follows(Step(s, event), i)
  {
    hide CallsOf, Queue, Handles, Step;
    OthersKeepQueue(s, event);
  }

  lemma CloseKeepsCalls(s: State, x: Index, i: Index)
    requires Once(s, i) && Follows(s, i) && ClosesPresent(s, NetClose(x), i)
    ensures Follows(Step(s, NetClose(x)), i)
  {
    hide Follows, Once;
    RemoveKeepsCalls(s, Step(s, NetClose(x)), x, i);
  }

  lemma KickKeepsCalls(s: State, i: Index)
    requires Enabled(s, NetKick) && Once(s, i) && Follows(s, i) && s.net.kicking[0] in s.m.sockets
    ensures Follows(Step(s, NetKick), i)
  {
    hide Follows, Once;
    RemoveKeepsCalls(s, Step(s, NetKick), s.net.kicking[0], i);
  }

  lemma StepKeepsCalls(s: State, event: Event, i: Index)
    requires Enabled(s, event) && Sockets(s) && ClosePipe(s) && Once(s, i) && Follows(s, i)
    requires ClosesPresent(s, event, i)
    ensures Follows(Step(s, event), i)
  {
    hide Follows, Step, Sockets, ClosePipe, Once, ClosesPresent;
    if ByLogic(event) {
      LogicKeepsCalls(s, event, i);
    } else {
      match event {
        case NetAdd => AddKeepsCalls(s, i);
        case NetUnpack(x, packets) => UnpackKeepsCalls(s, x, packets, i);
        case NetClose(x) => CloseKeepsCalls(s, x, i);
        case NetKick =>
          if s.net.kicking[0] in s.m.sockets {
            KickKeepsCalls(s, i);
          } else {
            OthersKeepCalls(s, event, i);
          }
        case _ => OthersKeepCalls(s, event, i);
      }
    }
  }

  // ----- what the handlers were given -----

  /** The packets handled, in order. */
  function Handled(calls: seq<Call>): seq<Packet> {
    if calls == [] then []
    else
      var c := calls[|calls| - 1];
      Handled(calls[..|calls| - 1]) + (if c.Handle? then [Packet(c.socket, c.data)] else [])
  }

  /** The packets handled are those on their way back to the net thread, or released by it. */
  ghost predicate HandledPipe(s: State) {
    Handled(s.h.calls) ==
    s.h.releasedPackets + s.net.releasingPackets + s.m.finishReadPackets + s.logic.handled
  }

  lemma HandledOne(calls: seq<Call>, c: Call)
    ensures Handled(calls + [c]) == Handled(calls) + if c.Handle? then [Packet(c.socket, c.data)] else []
  {
    assert (calls + [c])[..|calls|] == calls;
  }

  lemma StepKeepsHandledPipe(s: State, event: Event)
    requires Enabled(s, event) && HandledPipe(s)
    ensures HandledPipe(Step(s, event))
  {
    hide Handled;
    var s' := Step(s, event);
    if |s'.h.calls| > |s.h.calls| {
      HandledOne(s.h.calls, s'.h.calls[|s.h.calls|]);
    }
    var done := s.h.releasedPackets + s.net.releasingPackets;
    match event {
      case NetReleasePackets =>
        assert s'.h.releasedPackets + [] == done;
      case NetTakeFinishRead =>
        assert s'.h.releasedPackets + s'.net.releasingPackets + [] == done + s.m.finishReadPackets;
      case SwapOut =>
        assert done + (s.m.finishReadPackets + s.logic.handled) + [] == done + s.m.finishReadPackets + s.logic.handled;
      case CallHandle =>
        var mid, p := done + s.m.finishReadPackets, s.logic.packets[0];
        assert mid + (s.logic.handled + [p]) == mid + s.logic.handled + [p];
      case _ =>
    }
  }

  // ----- what reaches a socket's stream -----

  /** The packets for one socket. */
  function For(infos: seq<SendInfo>, i: Index): seq<SendInfo> {
    if infos == [] then []
    else
      var last := infos[|infos| - 1];
      For(infos[..|infos| - 1], i) + (if last.socket == i then [last] else [])
  }

  /** The packets for a socket that the net thread has sent since the socket was added. */
  function Due(s: State, i: Index): seq<SendInfo>
    requires i in s.h.since && s.h.since[i] <= |Done(s)|
  {
    For(Done(s)[s.h.since[i]..], i)
  }

  /** A socket's stream has got a first part of the packets due; an active one all of them. */
  ghost predicate Streams(s: State) {
    forall i :: i in s.m.sockets ==>
      && i in s.h.since && s.h.since[i] <= |Done(s)|
      && s.m.sockets[i].stream <= Due(s, i)
      && (s.m.sockets[i].active ==> s.m.sockets[i].stream == Due(s, i))
  }

  lemma ForOne(infos: seq<SendInfo>, x: SendInfo, i: Index)
    ensures For(infos + [x], i) == For(infos, i) + if x.socket == i then [x] else []
  {
    assert (infos + [x])[..|infos|] == infos;
  }

  lemma SendKeepsStream(s: State, i: Index)
    requires Enabled(s, NetSend) && WritePipe(s) && Streams(s) && i in s.m.sockets
    requires Done(Step(s, NetSend)) == Done(s) + [s.net.writing[0]]
    ensures var s' := Step(s, NetSend);
      && i in s'.m.sockets && s'.h.since == s.h.since
      && s'.m.sockets[i].stream <= Due(s', i)
      && (s'.m.sockets[i].active ==> s'.m.sockets[i].stream == Due(s', i))
  {
    hide For, Done, WritePipe;
    var s' := Step(s, NetSend);
    var x := s.net.writing[0];
    assert Done(s')[s.h.since[i]..] == Done(s)[s.h.since[i]..] + [x];
    ForOne(Done(s)[s.h.since[i]..], x, i);
    assert s.m.sockets[i].stream <= Due(s, i);
    assert Due(s', i) == Due(s, i) + if x.socket == i then [x] else [];
  }

  lemma OtherKeepsStream(s: State, event: Event, i: Index)
    requires Enabled(s, event) && !event.NetSend? && WritePipe(s) && Streams(s)
    requires i in Step(s, event).m.sockets && Done(Step(s, event)) == Done(s)
    ensures var s' := Step(s, event);
      && i in s'.h.since && s'.h.since[i] <= |Done(s')|
      && s'.m.sockets[i].stream <= Due(s', i)
      && (s'.m.sockets[i].active ==> s'.m.sockets[i].stream == Due(s', i))
  {
    var s' := Step(s, event);
    SocketKept(s, event, i);
    hide For, Done, WritePipe, Step, Enabled;
    if i !in s.m.sockets {
      assert Done(s)[|Done(s)|..] == [];
      ForNothing(i);
    } else {
      assert Due(s', i) == Due(s, i);
    }
  }

  lemma SocketKept(s: State, event: Event, i: Index)
    requires Enabled(s, event) && !event.NetSend? && i in Step(s, event).m.sockets
    ensures var s' := Step(s, event);
      if i in s.m.sockets then
        && s'.m.sockets[i].stream == s.m.sockets[i].stream
        && (s'.m.sockets[i].active ==> s.m.sockets[i].active)
        && (i in s.h.since ==> i in s'.h.since && s'.h.since[i] == s.h.since[i])
      else s'.m.sockets[i].stream == [] && i in s'.h.since && s'.h.since[i] == |Done(s)|
  {
    hide Done;
  }

  lemma StepKeepsStreams(s: State, event: Event)
    requires Enabled(s, event) && WritePipe(s) && Streams(s)
    ensures Streams(Step(s, event))
  {
    StepKeepsWritePipe(s, event);
    var s' := Step(s, event);
    hide For, Done, Due, WritePipe, Step, Enabled;
    forall i | i in s'.m.sockets
      ensures i in s'.h.since && s'.h.since[i] <= |Done(s')| && s'.m.sockets[i].stream <= Due(s', i)
      ensures s'.m.sockets[i].active ==> s'.m.sockets[i].stream == Due(s', i)
    {
      if event.NetSend? {
        SendAddsNoSocket(s);
        SendKeepsStream(s, i);
      } else {
        OtherKeepsStream(s, event, i);
      }
    }
  }

  lemma SendAddsNoSocket(s: State)
    requires Enabled(s, NetSend)
    ensures Step(s, NetSend).m.sockets.Keys == s.m.sockets.Keys
  {
  }

  lemma ForNothing(i: Index)
    ensures For([], i) == []
  {
  }

  // ----- runs -----

  ghost predicate Inv(s: State) {
    WritePipe(s) && ReadPipe(s) && HandledPipe(s) && ClosePipe(s) && Sockets(s) && Streams(s)
  }

  lemma StepKeepsInv(s: State, event: Event)
    requires Enabled(s, event) && Inv(s)
    ensures Inv(Step(s, event))
  {
    StepKeepsWritePipe(s, event);
    StepKeepsReadPipe(s, event);
    StepKeepsHandledPipe(s, event);
    StepKeepsClosePipe(s, event);
    StepKeepsSockets(s, event);
    StepKeepsStreams(s, event);
  }

  lemma {:induction false} RunKeepsInv(s: State, events: seq<Event>)
    requires IsRun(s, events) && Inv(s)
    ensures Inv(After(s, events))
    decreases |events|
  {
    if events != [] {
      StepKeepsInv(s, events[0]);
      RunKeepsInv(Step(s, events[0]), events[1..]);
    }
  }

  lemma Reachable(index: nat, events: seq<Event>)
    requires IsRun(Start(index), events)
    ensures Inv(After(Start(index), events))
  {
    RunKeepsInv(Start(index), events);
  }

  /** The run closes the socket only while it is in `m_sockets`. */
  ghost predicate Proper(s: State, events: seq<Event>, i: Index)
    requires IsRun(s, events)
    decreases |events|
  {
    events == [] || (ClosesPresent(s, events[0], i) && Proper(Step(s, events[0]), events[1..], i))
  }

  lemma {:induction false} OnceOverRun(s: State, events: seq<Event>, i: Index)
    requires IsRun(s, events) && Inv(s)
    ensures Once(After(s, events), i) <==> Once(s, i) && Proper(s, events, i)
    decreases |events|
  {
    if events != [] {
      StepKeepsOnce(s, events[0], i);
      StepKeepsInv(s, events[0]);
      hide Once, Inv, Step, Enabled, ClosesPresent;
      OnceOverRun(Step(s, events[0]), events[1..], i);
    }
  }

  lemma {:induction false} CallsOverRun(s: State, events: seq<Event>, i: Index)
    requires IsRun(s, events) && Inv(s) && Once(s, i) && Follows(s, i) && Proper(s, events, i)
    ensures Once(After(s, events), i) && Follows(After(s, events), i)
    decreases |events|
  {
    if events != [] {
      hide Once, Follows, Step, Enabled, ClosesPresent;
      StepKeepsOnce(s, events[0], i);
      StepKeepsCalls(s, events[0], i);
      StepKeepsInv(s, events[0]);
      hide Inv;
      CallsOverRun(Step(s, events[0]), events[1..], i);
    }
  }

  lemma LifeOf(index: nat, events: seq<Event>, i: Index)
    requires IsRun(Start(index), events) && Proper(Start(index), events, i)
    ensures var s := After(Start(index), events); Inv(s) && Once(s, i) && Follows(s, i)
  {
    Reachable(index, events);
    assert Follows(Start(index), i) && Once(Start(index), i);
    hide Once, Follows, Inv, Proper, IsRun, After;
    StartInv(index);
    CallsOverRun(Start(index), events, i);
  }

  lemma StartInv(index: nat)
    ensures Inv(Start(index))
  {
  }

  // ----- the main results -----

  /** In every interleaving, a socket is taken out once at most, after it was added, and is
      then not in `m_sockets`, if and only if the run closes it only while it is there. */
  lemma TakenOutOnce(index: nat, events: seq<Event>, i: Index)
    requires IsRun(Start(index), events)
    ensures Once(After(Start(index), events), i) <==> Proper(Start(index), events, i)
  {
    StartInv(index);
    assert Once(Start(index), i);
    OnceOverRun(Start(index), events, i);
  }

  /** The calls of the logic thread for each socket are, in this order and with no gap:
      one init, one handle for each packet read from it in the order read, one close. */
  lemma CallsFollowTheLife(index: nat, events: seq<Event>, i: Index)
    requires IsRun(Start(index), events) && Proper(Start(index), events, i)
    ensures var h := After(Start(index), events).h;
            CallsOf(h.calls, i) <= [Init(i)] + CallsOf(Handles(h.unpacked), i) + [Close(i)]
  {
    hide CallsOf, Queue, Rest, Handles, Inv, Proper, IsRun, After;
    LifeOf(index, events, i);
    var s := After(Start(index), events);
    QueueIsCallsFirst(s, i);
    if i !in s.h.added {
      HasSockets(s);
      NoLife(s, i);
    }
    var most := [Init(i)] + CallsOf(Handles(s.h.unpacked), i);
    assert i in s.h.added ==> Story(s.h, i) == most || Story(s.h, i) == most + [Close(i)];
  }

  lemma HasSockets(s: State)
    requires Inv(s)
    ensures Sockets(s)
  {
  }

  /** The calls still to be made. */
  function Rest(s: State): seq<Call> {
    Batch(s.logic.inits, s.logic.packets, s.logic.closes)
    + Batch(s.m.waitInitSockets, s.m.readPackets, s.m.waitDeleteSockets)
  }

  lemma QueueIsCallsFirst(s: State, i: Index)
    ensures CallsOf(Queue(s), i) == CallsOf(s.h.calls, i) + CallsOf(Rest(s), i)
  {
    assert Queue(s) == s.h.calls + Rest(s) by {
      hide Batch;
    }
    hide Queue, Rest, CallsOf;
    CallsOfJoin(s.h.calls, Rest(s), i);
  }

  lemma {:induction false} CallsOfHas(calls: seq<Call>, c: Call, i: Index)
    ensures c in CallsOf(calls, i) <==> c in calls && c.socket == i
  {
    if calls != [] {
      CallsOfHas(calls[1..], c, i);
    }
  }

  /** Once a socket has been handed back for deletion, all its calls have been made. */
  lemma AllCallsMade(s: State, i: Index)
    requires Inv(s) && Once(s, i) && Follows(s, i)
    requires i in s.h.released + s.net.releasing + s.m.deleteSockets + s.logic.closed
    ensures CallsOf(Rest(s), i) == []
    ensures CallsOf(s.h.calls, i) == [Init(i)] + CallsOf(Handles(s.h.unpacked), i) + [Close(i)]
  {
    var gone := s.h.released + s.net.releasing + s.m.deleteSockets + s.logic.closed;
    assert s.h.deleted == gone + s.logic.closes + s.m.waitDeleteSockets;
    OnceInOne(gone, s.logic.closes, s.m.waitDeleteSockets, s.h.deleted, i);
    QueueIsCallsFirst(s, i);
    NoCloseLeft(s, i);
    CallsOfHas(Rest(s), Close(i), i);
    hide CallsOf, Queue, Rest, Handles;
    EndsBefore(CallsOf(s.h.calls, i), CallsOf(Rest(s), i), [Init(i)] + CallsOf(Handles(s.h.unpacked), i), Close(i));
  }

  lemma OnceInOne(a: seq<Index>, b: seq<Index>, c: seq<Index>, all: seq<Index>, i: Index)
    requires all == a + b + c && multiset(all)[i] <= 1 && i in a
    ensures i in all && i !in b && i !in c && multiset(a)[i] == 1
  {
    assert i in multiset(a);
    assert i in b ==> i in multiset(b);
    assert i in c ==> i in multiset(c);
  }

  lemma EndsBefore(a: seq<Call>, b: seq<Call>, front: seq<Call>, last: Call)
    requires a + b == front + [last] && last !in b
    ensures b == [] && a == front + [last]
  {
    LastIn(a, b);
  }

  lemma LastIn(a: seq<Call>, b: seq<Call>)
    ensures b == [] || (a + b)[|a + b| - 1] in b
  {
    if b != [] {
      assert (a + b)[|a + b| - 1] == b[|b| - 1];
    }
  }

  lemma NoCloseLeft(s: State, i: Index)
    requires i !in s.logic.closes && i !in s.m.waitDeleteSockets
    ensures Close(i) !in Rest(s)
  {
  }

  /** On the way from being taken out to deletion a socket is in one list at a time. */
  lemma ReleasedIsGone(s: State, i: Index)
    requires ClosePipe(s) && multiset(s.h.deleted)[i] <= 1 && i in s.h.released
    ensures i !in s.net.releasing && i !in s.m.deleteSockets && i !in s.logic.closed
    ensures i !in s.logic.closes && i !in s.m.waitDeleteSockets
    ensures i in s.h.deleted && multiset(s.h.released)[i] == 1
  {
    var r, n, m, l := s.h.released, s.net.releasing, s.m, s.logic;
    OnceInOne(r + n + m.deleteSockets + l.closed, l.closes, m.waitDeleteSockets, s.h.deleted, i);
    OnceInOne(r + n, m.deleteSockets, l.closed, r + n + m.deleteSockets + l.closed, i);
    OnceInOne(r, n, [], r + n, i);
  }

  /** A socket that the run closes only while it is there is deleted from memory at most
      once, however often it is kicked, and when it is, its close has been handled, it is in
      none of the lists that sockets go through, and no packet of it waits to be handled. */
  lemma ReleasedOnceAndLast(index: nat, events: seq<Event>, i: Index)
    requires IsRun(Start(index), events) && Proper(Start(index), events, i)
    ensures var s := After(Start(index), events);
      i in s.h.released ==>
        && multiset(s.h.released)[i] == 1
        && i !in s.m.sockets && i !in s.m.newSockets
        && CallsOf(s.h.calls, i) == [Init(i)] + CallsOf(Handles(s.h.unpacked), i) + [Close(i)]
        && i !in s.logic.inits && i !in s.m.waitInitSockets
        && i !in s.m.waitDeleteSockets && i !in s.logic.closes && i !in s.logic.closed
        && i !in s.m.deleteSockets && i !in s.net.releasing
        && forall p :: p in s.logic.packets || p in s.m.readPackets ==> p.socket != i
  {
    LifeOf(index, events, i);
    var s := After(Start(index), events);
    hide CallsOf, Rest, Handles, Proper, IsRun, After;
    if i in s.h.released {
      ReleasedIsGone(s, i);
      AllCallsMade(s, i);
      NothingLeft(s, i);
      AddedIsNotNew(s, i);
    }
  }

  lemma AddedIsNotNew(s: State, i: Index)
    requires Sockets(s) && i in s.h.added
    ensures i !in s.m.newSockets
  {
    var q := s.h.added + s.m.newSockets;
    var a :| 0 <= a < |s.h.added| && s.h.added[a] == i;
    assert q[a] == i;
    forall b | 0 <= b < |s.m.newSockets|
      ensures s.m.newSockets[b] != i
    {
      assert q[|s.h.added| + b] == s.m.newSockets[b];
    }
  }

  lemma NothingLeft(s: State, i: Index)
    requires CallsOf(Rest(s), i) == []
    ensures i !in s.logic.inits && i !in s.m.waitInitSockets
    ensures forall p :: p in s.logic.packets || p in s.m.readPackets ==> p.socket != i
  {
    CallsOfHas(Rest(s), Init(i), i);
    forall p | p in s.logic.packets || p in s.m.readPackets
      ensures p.socket != i
    {
      CallsOfHas(Rest(s), Handle(p.socket, p.data), i);
      InRest(s, p);
    }
    InitInRest(s, i);
  }

  lemma InRest(s: State, p: Packet)
    requires p in s.logic.packets || p in s.m.readPackets
    ensures Handle(p.socket, p.data) in Rest(s)
  {
    BatchHas(s.logic.inits, s.logic.packets, s.logic.closes, p);
    BatchHas(s.m.waitInitSockets, s.m.readPackets, s.m.waitDeleteSockets, p);
  }

  lemma BatchHas(a: seq<Index>, b: seq<Packet>, c: seq<Index>, p: Packet)
    ensures p in b ==> Handle(p.socket, p.data) in Batch(a, b, c)
  {
    if p in b {
      var k :| 0 <= k < |b| && b[k] == p;
      assert Handles(b)[k] == Handle(p.socket, p.data);
    }
  }

  lemma InitInRest(s: State, i: Index)
    ensures i in s.logic.inits || i in s.m.waitInitSockets ==> Init(i) in Rest(s)
  {
    if i in s.logic.inits {
      var k :| 0 <= k < |s.logic.inits| && s.logic.inits[k] == i;
      assert Inits(s.logic.inits)[k] == Init(i);
    }
    if i in s.m.waitInitSockets {
      var k :| 0 <= k < |s.m.waitInitSockets| && s.m.waitInitSockets[k] == i;
      assert Inits(s.m.waitInitSockets)[k] == Init(i);
    }
  }

  /** How often a packet is counted over the places it can be in. */
  function Count(s: State, x: SendInfo): nat {
    multiset(s.h.freed)[x] + multiset(s.logic.finished)[x] + multiset(s.m.finishWritePackets)[x]
    + multiset(s.net.sent)[x] + multiset(s.net.writing)[x] + multiset(s.m.writePackets)[x]
    + multiset(s.logic.writePackets)[x]
  }

  /** Every packet pushed is in exactly one of the lists or freed; so it is freed at most
      once, and never while the net thread still has it. */
  lemma InExactlyOnePlace(index: nat, events: seq<Event>, x: SendInfo)
    requires IsRun(Start(index), events)
    ensures var s := After(Start(index), events); Count(s, x) == if x in s.h.pushed then 1 else 0
  {
    Reachable(index, events);
    var s := After(Start(index), events);
    assert Count(s, x) == multiset(s.h.pushed)[x];
    OnceEach(s.h.pushed, x);
  }

  lemma {:induction false} OnceEach(q: seq<SendInfo>, x: SendInfo)
    requires forall k :: 0 <= k < |q| ==> q[k].id == k
    ensures multiset(q)[x] == if x in q then 1 else 0
  {
    if q != [] {
      var front, last := q[..|q| - 1], q[|q| - 1];
      assert q == front + [last];
      OnceEach(front, x);
    }
  }

  /** The stream of an active socket has got exactly the packets pushed for it that were
      sent since it was added, in the order pushed; another socket's a first part of them. */
  lemma StreamsGetWhatWasPushed(index: nat, events: seq<Event>, i: Index)
    requires IsRun(Start(index), events) && i in After(Start(index), events).m.sockets
    ensures var s := After(Start(index), events);
      && i in s.h.since && s.h.since[i] <= |Done(s)| <= |s.h.pushed|
      && var due := For(s.h.pushed[s.h.since[i]..|Done(s)|], i);
         s.m.sockets[i].stream <= due && (s.m.sockets[i].active ==> s.m.sockets[i].stream == due)
  {
    Reachable(index, events);
    var s := After(Start(index), events);
    assert s.h.pushed[s.h.since[i]..|Done(s)|] == Done(s)[s.h.since[i]..];
  }

  /** A packet read is released only after it was handled, and each at most as often as it was read. */
  lemma ReleasedAfterHandled(index: nat, events: seq<Event>)
    requires IsRun(Start(index), events)
    ensures var h := After(Start(index), events).h;
            h.releasedPackets <= Handled(h.calls) <= h.unpacked
  {
    Reachable(index, events);
  }
}
