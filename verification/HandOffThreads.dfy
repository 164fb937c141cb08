/** `socket_manager` and the part of `service` that works with it, as objects. A ghost
    record of the run ties their fields to the transition system: each method adds the
    steps it takes, so what is proved of all runs holds of the objects. The methods take
    each critical section as a whole; that the other thread's steps can come in between
    is covered by the transition system. */
module HandOffThreads {
  import opened Sequences
  import opened HandOff
  import opened HandOffSafety

  lemma {:induction false} RunGrows(s: State, events: seq<Event>, e: Event)
    requires IsRun(s, events) && Enabled(After(s, events), e)
    ensures IsRun(s, events + [e]) && After(s, events + [e]) == Step(After(s, events), e)
    decreases |events|
  {
    if events == [] {
      assert [e][1..] == [];
    } else {
      RunGrows(Step(s, events[0]), events[1..], e);
      assert (events + [e])[1..] == events[1..] + [e];
    }
  }

  /** The net thread between two of its handlers. */
  const RESTING := Net([], [], [], [], [])

  lemma StreamsStart(packets: seq<SendInfo>)
    ensures packets[..0] == [] && forall i :: For(packets[..0], i) == []
  {
  }

  lemma StreamsGrow(packets: seq<SendInfo>, k: nat)
    requires k < |packets|
    ensures packets[..k + 1] == packets[..k] + [packets[k]]
    ensures forall i ::
      For(packets[..k + 1], i) == For(packets[..k], i) + if packets[k].socket == i then [packets[k]] else []
  {
    forall i
      ensures For(packets[..k + 1], i) == For(packets[..k], i) + if packets[k].socket == i then [packets[k]] else []
    {
      ForOne(packets[..k], packets[k], i);
      assert packets[..k + 1] == packets[..k] + [packets[k]];
    }
  }

  /** After the sockets but `todo` have been looked through, those to close are in `dels`. */
  ghost predicate Scanned(before: map<Index, Sock>, now: map<Index, Sock>, todo: set<Index>, dels: seq<Index>,
                          failing: set<Index>)
  {
    && todo <= before.Keys && now.Keys == before.Keys && Distinct(dels)
    && (forall i :: i in now && i !in dels ==> now[i] == before[i])
    && (forall i :: i in dels <==> i in before && i !in todo && before[i].active && i in failing)
  }

  lemma ScanStarts(before: map<Index, Sock>, failing: set<Index>)
    ensures Scanned(before, before, before.Keys, [], failing)
  {
  }

  lemma ScanGoesOn(before: map<Index, Sock>, now: map<Index, Sock>, todo: set<Index>, dels: seq<Index>,
                   failing: set<Index>, i: Index)
    requires Scanned(before, now, todo, dels, failing) && i in todo
    ensures i in before && i in now && now[i] == before[i]
    ensures !now[i].active ==> Scanned(before, now, todo - {i}, dels, failing)
    ensures now[i].active ==>
      Scanned(before, now[i := now[i].(active := i !in failing)], todo - {i},
              if i in failing then dels + [i] else dels, failing)
  {
  }

  lemma ScanEnds(before: map<Index, Sock>, now: map<Index, Sock>, todo: set<Index>, dels: seq<Index>,
                 failing: set<Index>)
    requires Scanned(before, now, todo, dels, failing) && todo == {}
    ensures now.Keys == before.Keys && Distinct(dels)
    ensures forall i :: i in now && i !in dels ==> now[i] == before[i]
    ensures forall i :: i in dels <==> i in before && before[i].active && i in failing
  {
  }

  /** The packets read from a socket. */
  function From(packets: seq<Packet>, i: Index): seq<Packet> {
    if packets == [] then []
    else (if packets[0].socket == i then [packets[0]] else []) + From(packets[1..], i)
  }

  lemma {:induction false} FromJoin(a: seq<Packet>, b: seq<Packet>, i: Index)
    ensures From(a + b, i) == From(a, i) + From(b, i)
  {
    if a == [] {
      assert a + b == b;
    } else {
      FromJoin(a[1..], b, i);
      assert (a + b)[1..] == a[1..] + b;
      Associative(if a[0].socket == i then [a[0]] else [], From(a[1..], i), From(b, i));
    }
  }

  lemma {:induction false} FromOne(packets: seq<Packet>, socket: Index, i: Index)
    requires forall k :: 0 <= k < |packets| ==> packets[k].socket == socket
    ensures From(packets, i) == if i == socket then packets else []
  {
    if packets != [] {
      FromOne(packets[1..], socket, i);
    }
  }

  /** Of the sockets `among`, the packets read are those found in the input of the active
      ones, each socket's in the order found; none is read from others. */
  ghost predicate Received(before: map<Index, Sock>, found: map<Index, seq<Packet>>, among: set<Index>,
                           packets: seq<Packet>)
  {
    forall i :: From(packets, i) ==
      if i in among && i in before && before[i].active && i in found then found[i] else []
  }

  lemma ReceivedNone(before: map<Index, Sock>, found: map<Index, seq<Packet>>)
    ensures Received(before, found, before.Keys - before.Keys, [])
  {
  }

  lemma ReceivedOne(before: map<Index, Sock>, found: map<Index, seq<Packet>>, among: set<Index>,
                    packets: seq<Packet>, i: Index, more: seq<Packet>)
    requires Received(before, found, among, packets) && i in before && i !in among
    requires more == if before[i].active && i in found then found[i] else []
    requires forall k :: 0 <= k < |more| ==> more[k].socket == i
    ensures Received(before, found, among + {i}, packets + more)
  {
    forall j
      ensures From(packets + more, j) == From(packets, j) + if j == i then more else []
    {
      FromJoin(packets, more, j);
      FromOne(more, i, j);
    }
  }

  /** The sockets that a list of kicks takes out: those present, each at its first mention. */
  function Kicked(present: set<Index>, kicks: seq<Index>): seq<Index> {
    if kicks == [] then []
    else
      var n := |kicks| - 1;
      Kicked(present, kicks[..n]) + if kicks[n] in present && kicks[n] !in kicks[..n] then [kicks[n]] else []
  }

  /** Each kicked socket that is present is taken out once, in the order of first mention. */
  lemma {:induction false} KickedOnce(present: set<Index>, kicks: seq<Index>)
    ensures var r := Kicked(present, kicks);
      && Distinct(r) && (forall i :: i in r <==> i in present && i in kicks)
      && forall a, b :: 0 <= a < b < |r| ==> exists k :: 0 <= k <= |kicks| && r[a] in kicks[..k] && r[b] !in kicks[..k]
  {
    if kicks != [] {
      var n := |kicks| - 1;
      var front, r := Kicked(present, kicks[..n]), Kicked(present, kicks);
      KickedOnce(present, kicks[..n]);
      assert kicks == kicks[..n] + [kicks[n]];
      forall a, b | 0 <= a < b < |r|
        ensures exists k :: 0 <= k <= |kicks| && r[a] in kicks[..k] && r[b] !in kicks[..k]
      {
        if b < |front| {
          var k :| 0 <= k <= n && front[a] in kicks[..n][..k] && front[b] !in kicks[..n][..k];
          assert kicks[..n][..k] == kicks[..k];
        } else {
          assert front[a] in front && r[a] in kicks[..n] && r[b] !in kicks[..n];
        }
      }
    }
  }

  lemma KickedNext(present: set<Index>, kicks: seq<Index>, k: nat)
    requires k < |kicks|
    ensures kicks[..k + 1] == kicks[..k] + [kicks[k]]
    ensures Kicked(present, kicks[..k + 1]) ==
            Kicked(present, kicks[..k]) + if kicks[k] in present && kicks[k] !in kicks[..k] then [kicks[k]] else []
  {
    assert kicks[..k + 1][..k] == kicks[..k];
  }

  class SocketManager {
    var socketSequenceIndex: nat
    var newSockets: seq<Index>
    var sockets: map<Index, Sock>
    var readPackets: seq<Packet>
    var finishReadPackets: seq<Packet>
    var writePackets: seq<SendInfo>
    var finishWritePackets: seq<SendInfo>
    var waitInitSockets: seq<Index>
    var waitKickSockets: seq<Index>
    var waitDeleteSockets: seq<Index>
    var deleteSockets: seq<Index>
    ghost const first: nat
    ghost var events: seq<Event>
    ghost var state: State

    ghost function View(): Manager
      reads this
    {
      Manager(socketSequenceIndex, newSockets, sockets, readPackets, finishReadPackets, writePackets,
              finishWritePackets, waitInitSockets, waitKickSockets, waitDeleteSockets, deleteSockets)
    }

    /** The events so far are a run, and the fields are those of the state it ends in. */
    ghost predicate Valid()
      reads this
    {
      && IsRun(Start(first), events) && After(Start(first), events) == state
      && View() == state.m && Inv(state)
    }

    constructor (index: nat)
      ensures Valid() && state == Start(index)
    {
      socketSequenceIndex, newSockets, sockets := index, [], map[];
      readPackets, finishReadPackets, writePackets, finishWritePackets := [], [], [], [];
      waitInitSockets, waitKickSockets, waitDeleteSockets, deleteSockets := [], [], [], [];
      first, events, state := index, [], Start(index);
      new;
      Reachable(first, events);
    }

    /** Records a step. */
    ghost method Note(e: Event)
      requires IsRun(Start(first), events) && After(Start(first), events) == state && Inv(state)
      requires Enabled(state, e) && View() == Step(state, e).m
      modifies `events, `state
      ensures Valid() && state == Step(old(state), e) && events == old(events) + [e]
    {
      hide IsRun, After, Enabled, Step, Inv;
      RunGrows(Start(first), events, e);
      StepKeepsInv(state, e);
      events, state := events + [e], Step(state, e);
    }

    /** `gen_socket_index` and `on_accept` */
    method OnAccept()
      requires Valid()
      modifies `socketSequenceIndex, `newSockets, `events, `state
      ensures Valid() && events == old(events) + [NetAccept]
      ensures socketSequenceIndex == old(socketSequenceIndex) + 1
      ensures newSockets == old(newSockets) + [socketSequenceIndex]
    {
      hide IsRun, After, Inv;
      socketSequenceIndex := socketSequenceIndex + 1;
      newSockets := newSockets + [socketSequenceIndex];
      Note(NetAccept);
    }

    /** `add_socket` of the first new socket; the branch for a repeated index is never taken. */
    method AddSocket(i: Index)
      requires Valid() && newSockets != [] && newSockets[0] == i
      modifies `newSockets, `sockets, `waitInitSockets, `events, `state
      ensures Valid() && events == old(events) + [NetAdd] && newSockets == old(newSockets)[1..]
      ensures sockets == old(sockets)[i := Sock(true, [])] && i !in old(sockets)
      ensures waitInitSockets == old(waitInitSockets) + [i]
      ensures state.logic == old(state.logic) && state.net == old(state.net)
    {
      NextIsNew(state);
      hide IsRun, After, Inv;
      newSockets := newSockets[1..];
      if i in sockets {
      } else {
        sockets := sockets[i := Sock(true, [])];
        waitInitSockets := waitInitSockets + [i];
      }
      Note(NetAdd);
    }

    method HandleNewSocket()
      requires Valid()
      modifies `newSockets, `sockets, `waitInitSockets, `events, `state
      ensures Valid() && newSockets == []
      ensures waitInitSockets == old(waitInitSockets) + old(newSockets)
      ensures forall i :: i in old(newSockets) ==> i in sockets && sockets[i] == Sock(true, [])
      ensures forall i :: i in old(sockets) ==> i in sockets && sockets[i] == old(sockets)[i]
      ensures state.logic == old(state.logic) && state.net == old(state.net)
    {
      hide IsRun, After, Inv, Valid;
      ghost var k := 0;
      while newSockets != []
        invariant k <= |old(newSockets)| && newSockets == old(newSockets)[k..]
        invariant Valid() && waitInitSockets == old(waitInitSockets) + old(newSockets)[..k]
        invariant forall j :: 0 <= j < k ==>
          old(newSockets)[j] in sockets && sockets[old(newSockets)[j]] == Sock(true, [])
        invariant forall i :: i in old(sockets) ==> i in sockets && sockets[i] == old(sockets)[i]
        invariant state.logic == old(state.logic) && state.net == old(state.net)
        decreases |newSockets|
      {
        AddSocket(newSockets[0]);
        k := k + 1;
      }
    }

    /** `del_socket` */
    method DelSocket(i: Index, ghost e: Event)
      requires Valid() && Enabled(state, e) && Step(state, e).m == HandOff.DelSocket(View(), i)
      modifies `sockets, `waitDeleteSockets, `events, `state
      ensures Valid() && events == old(events) + [e] && state == Step(old(state), e)
    {
      hide IsRun, After, Inv;
      sockets := sockets - {i};
      waitDeleteSockets := waitDeleteSockets + [i];
      Note(e);
    }

    /** `handle_unpack`, given what unpacking finds in each socket's input and which
        sockets it leaves inactive. */
    method HandleUnpack(found: map<Index, seq<Packet>>, failing: set<Index>)
      returns (ghost packets: seq<Packet>, ghost closed: seq<Index>)
      requires Valid()
      requires forall i :: i in found ==> forall k :: 0 <= k < |found[i]| ==> found[i][k].socket == i
      modifies `sockets, `readPackets, `waitDeleteSockets, `events, `state
      ensures Valid() && old(events) <= events
      ensures state.logic == old(state.logic) && state.net == old(state.net)
      ensures forall i :: i in sockets <==> i in old(sockets) && !(old(sockets)[i].active && i in failing)
      ensures forall i :: i in sockets ==> sockets[i] == old(sockets)[i]
      ensures readPackets == old(readPackets) + packets && Received(old(sockets), found, old(sockets).Keys, packets)
      ensures waitDeleteSockets == old(waitDeleteSockets) + closed && Distinct(closed)
      ensures forall i :: i in closed <==> i in old(sockets) && old(sockets)[i].active && i in failing
    {
      hide IsRun, After, Inv, Valid, Received;
      var delSockets;
      delSockets, packets := UnpackAll(found, failing);
      closed := delSockets;
      ghost var arrived := readPackets;
      var k := 0;
      while k < |delSockets|
        invariant k <= |delSockets| && Valid() && old(events) <= events
        invariant waitDeleteSockets == old(waitDeleteSockets) + delSockets[..k]
        invariant state.logic == old(state.logic) && state.net == old(state.net)
        invariant forall i :: i in sockets <==> i in old(sockets) && i !in delSockets[..k]
        invariant forall i :: i in sockets && i !in delSockets ==> sockets[i] == old(sockets)[i]
        invariant readPackets == arrived
      {
        assert delSockets[k] in delSockets && delSockets[k] !in delSockets[..k];
        assert delSockets[..k + 1] == delSockets[..k] + [delSockets[k]];
        HandleCloseSocket(delSockets[k]);
        k := k + 1;
      }
      assert delSockets[..k] == delSockets;
    }

    /** The first loop of `handle_unpack`: the sockets to close. */
    method UnpackAll(found: map<Index, seq<Packet>>, failing: set<Index>)
      returns (delSockets: seq<Index>, ghost packets: seq<Packet>)
      requires Valid()
      requires forall i :: i in found ==> forall k :: 0 <= k < |found[i]| ==> found[i][k].socket == i
      modifies `sockets, `readPackets, `events, `state
      ensures Valid() && old(events) <= events && Distinct(delSockets)
      ensures state.logic == old(state.logic) && state.net == old(state.net)
      ensures sockets.Keys == old(sockets).Keys
      ensures forall i :: i in delSockets <==> i in old(sockets) && old(sockets)[i].active && i in failing
      ensures forall i :: i in sockets && i !in delSockets ==> sockets[i] == old(sockets)[i]
      ensures readPackets == old(readPackets) + packets && Received(old(sockets), found, old(sockets).Keys, packets)
    {
      hide IsRun, After, Inv, Valid;
      hide Scanned, Distinct, Received;
      delSockets, packets := [], [];
      var todo := sockets.Keys;
      ReceivedNone(sockets, found);
      ScanStarts(sockets, failing);
      while todo != {}
        invariant Valid() && old(events) <= events && readPackets == old(readPackets) + packets
        invariant todo <= old(sockets).Keys
        invariant state.logic == old(state.logic) && state.net == old(state.net)
        invariant Scanned(old(sockets), sockets, todo, delSockets, failing)
        invariant Received(old(sockets), found, old(sockets).Keys - todo, packets)
        decreases |todo|
      {
        var i :| i in todo;
        ScanGoesOn(old(sockets), sockets, todo, delSockets, failing, i);
        ghost var more := if sockets[i].active && i in found then found[i] else [];
        ReceivedOne(old(sockets), found, old(sockets).Keys - todo, packets, i, more);
        assert old(sockets).Keys - todo + {i} == old(sockets).Keys - (todo - {i});
        Associative(old(readPackets), packets, more);
        packets := packets + more;
        todo := todo - {i};
        if sockets[i].active {
          UnpackOne(i, if i in found then found[i] else [], i in failing);
          if !sockets[i].active {
            delSockets := delSockets + [i];
          }
        }
      }
      ScanEnds(old(sockets), sockets, todo, delSockets, failing);
      assert old(sockets).Keys - todo == old(sockets).Keys;
    }

    /** One turn of the first loop of `handle_unpack`. */
    method UnpackOne(i: Index, packets: seq<Packet>, fails: bool)
      requires Valid() && i in sockets && sockets[i].active
      requires forall k :: 0 <= k < |packets| ==> packets[k].socket == i
      modifies `sockets, `readPackets, `events, `state
      ensures Valid() && old(events) <= events
      ensures state.logic == old(state.logic) && state.net == old(state.net)
      ensures readPackets == old(readPackets) + packets
      ensures sockets == old(sockets)[i := old(sockets)[i].(active := !fails)]
    {
      hide IsRun, After, Inv, Valid;
      if packets != [] {
        HandleSocketUnpack(i, packets);
      }
      if fails {
        Deactivate(i);
      }
      assert sockets.Keys == old(sockets).Keys;
    }

    method HandleSocketUnpack(i: Index, packets: seq<Packet>)
      requires Valid() && i in sockets && sockets[i].active
      requires forall k :: 0 <= k < |packets| ==> packets[k].socket == i
      modifies `readPackets, `events, `state
      ensures Valid() && old(events) <= events
      ensures state.logic == old(state.logic) && state.net == old(state.net)
      ensures sockets == old(sockets) && readPackets == old(readPackets) + packets
    {
      hide IsRun, After, Inv;
      if packets == [] {
        return;
      }
      readPackets := readPackets + packets;
      Note(NetUnpack(i, packets));
    }

    /** The socket fails while it is read. */
    method Deactivate(i: Index)
      requires Valid() && i in sockets
      modifies `sockets, `events, `state
      ensures Valid() && events == old(events) + [NetDeactivate(i)]
      ensures state.logic == old(state.logic) && state.net == old(state.net)
      ensures sockets == old(sockets)[i := old(sockets)[i].(active := false)] && readPackets == old(readPackets)
    {
      hide IsRun, After, Inv;
      sockets := sockets[i := sockets[i].(active := false)];
      Note(NetDeactivate(i));
    }

    method HandleCloseSocket(i: Index)
      requires Valid()
      modifies `sockets, `waitDeleteSockets, `events, `state
      ensures Valid() && events == old(events) + [NetClose(i)]
      ensures state.logic == old(state.logic) && state.net == old(state.net)
      ensures sockets == old(sockets) - {i} && readPackets == old(readPackets)
      ensures waitDeleteSockets == old(waitDeleteSockets) + [i]
    {
      hide IsRun, After, Inv;
      DelSocket(i, NetClose(i));
    }

    /** `swap_net_2_logic`, into the empty lists of a turn of `do_loop`. */
    method SwapNet2Logic()
      returns (packets: seq<Packet>, finished: seq<SendInfo>, inits: seq<Index>, dels: seq<Index>)
      requires Valid() && Enabled(state, SwapIn)
      modifies `readPackets, `finishWritePackets, `waitInitSockets, `waitDeleteSockets, `events, `state
      ensures Valid() && events == old(events) + [SwapIn] && state == Step(old(state), SwapIn)
      ensures packets == old(readPackets) && finished == old(finishWritePackets)
      ensures inits == old(waitInitSockets) && dels == old(waitDeleteSockets)
      ensures readPackets == [] && finishWritePackets == [] && waitInitSockets == [] && waitDeleteSockets == []
    {
      hide IsRun, After, Inv;
      packets := readPackets;
      readPackets := [];
      finished := finishWritePackets;
      finishWritePackets := [];
      inits := waitInitSockets;
      waitInitSockets := [];
      dels := waitDeleteSockets;
      waitDeleteSockets := [];
      Note(SwapIn);
    }

    /** `swap_login_2_net` */
    method SwapLogin2Net(writes: seq<SendInfo>, packets: seq<Packet>, kicks: seq<Index>, dels: seq<Index>)
      requires Valid() && Enabled(state, SwapOut)
      requires state.logic.writePackets == writes && state.logic.handled == packets
      requires state.logic.waitKickSockets == kicks && state.logic.closed == dels
      modifies `writePackets, `finishReadPackets, `waitKickSockets, `deleteSockets, `events, `state
      ensures Valid() && events == old(events) + [SwapOut] && state == Step(old(state), SwapOut)
      ensures writePackets == old(writePackets) + writes && finishReadPackets == old(finishReadPackets) + packets
      ensures waitKickSockets == old(waitKickSockets) + kicks && deleteSockets == old(deleteSockets) + dels
    {
      hide IsRun, After, Inv;
      writePackets := writePackets + writes;
      finishReadPackets := finishReadPackets + packets;
      waitKickSockets := waitKickSockets + kicks;
      deleteSockets := deleteSockets + dels;
      Note(SwapOut);
    }

    /** The critical section of `handle_kick_socket`. */
    method TakeKicks() returns (kickSockets: seq<Index>)
      requires Valid() && state.net == RESTING
      modifies `waitKickSockets, `events, `state
      ensures Valid() && events == old(events) + [NetTakeKicks] && state.logic == old(state.logic)
      ensures kickSockets == old(waitKickSockets) && waitKickSockets == []
      ensures state.net == RESTING.(kicking := kickSockets)
    {
      hide IsRun, After, Inv;
      kickSockets := waitKickSockets;
      waitKickSockets := [];
      Note(NetTakeKicks);
    }

    /** One turn of `handle_kick_socket`. */
    method KickSocket(i: Index)
      requires Valid() && state.net.kicking != [] && state.net.kicking[0] == i
      modifies `sockets, `waitDeleteSockets, `events, `state
      ensures Valid() && events == old(events) + [NetKick] && state.logic == old(state.logic)
      ensures state.net == old(state.net).(kicking := old(state.net.kicking)[1..])
      ensures sockets == old(sockets) - {i}
      ensures waitDeleteSockets == old(waitDeleteSockets) + if i in old(sockets) then [i] else []
    {
      hide IsRun, After, Inv;
      if i in sockets {
        DelSocket(i, NetKick);
      } else {
        Note(NetKick);
      }
    }

    method HandleKickSocket()
      requires Valid() && state.net == RESTING
      modifies `sockets, `waitKickSockets, `waitDeleteSockets, `events, `state
      ensures Valid() && state.net == RESTING && state.logic == old(state.logic)
      ensures waitKickSockets == []
      ensures waitDeleteSockets == old(waitDeleteSockets) + Kicked(old(sockets).Keys, old(waitKickSockets))
      ensures forall i :: i in sockets <==> i in old(sockets) && i !in old(waitKickSockets)
      ensures forall i :: i in sockets ==> sockets[i] == old(sockets)[i]
    {
      hide IsRun, After, Inv, Valid;
      var kickSockets := TakeKicks();
      var k := 0;
      while k < |kickSockets|
        invariant k <= |kickSockets| && Valid() && state.logic == old(state.logic)
        invariant state.net == RESTING.(kicking := kickSockets[k..])
        invariant waitKickSockets == []
        invariant waitDeleteSockets == old(waitDeleteSockets) + Kicked(old(sockets).Keys, kickSockets[..k])
        invariant forall i :: i in sockets <==> i in old(sockets) && i !in kickSockets[..k]
        invariant forall i :: i in sockets ==> sockets[i] == old(sockets)[i]
      {
        KickedNext(old(sockets).Keys, kickSockets, k);
        KickSocket(kickSockets[k]);
        k := k + 1;
      }
      assert kickSockets[..k] == kickSockets;
    }

    /** `send_packet` of the next packet taken over. */
    method SendPacket(info: SendInfo)
      requires Valid() && state.net.writing != [] && state.net.writing[0] == info
      modifies `sockets, `events, `state
      ensures Valid() && events == old(events) + [NetSend] && state.logic == old(state.logic)
      ensures state.net == old(state.net).(writing := old(state.net.writing)[1..], sent := old(state.net.sent) + [info])
      ensures sockets.Keys == old(sockets).Keys
      ensures forall i :: i in sockets ==>
        sockets[i] == if i == info.socket && old(sockets)[i].active
                      then Sock(true, old(sockets)[i].stream + [info]) else old(sockets)[i]
    {
      hide IsRun, After, Inv;
      if info.socket !in sockets {
      } else if sockets[info.socket].active {
        sockets := sockets[info.socket := Sock(true, sockets[info.socket].stream + [info])];
      }
      Note(NetSend);
    }

    /** The first critical section of `handle_write_msg`. */
    method TakeWrites() returns (packets: seq<SendInfo>)
      requires Valid() && state.net == RESTING
      modifies `writePackets, `events, `state
      ensures Valid() && events == old(events) + [NetTakeWrites] && state.logic == old(state.logic)
      ensures packets == old(writePackets) && writePackets == []
      ensures state.net == RESTING.(writing := packets)
    {
      hide IsRun, After, Inv;
      packets := writePackets;
      writePackets := [];
      Note(NetTakeWrites);
    }

    /** Its second critical section. */
    method PutFinished(finishPackets: seq<SendInfo>)
      requires Valid() && state.net == RESTING.(sent := finishPackets)
      modifies `finishWritePackets, `events, `state
      ensures Valid() && events == old(events) + [NetPutFinished] && state.logic == old(state.logic)
      ensures finishWritePackets == old(finishWritePackets) + finishPackets && state.net == RESTING
    {
      hide IsRun, After, Inv;
      finishWritePackets := finishWritePackets + finishPackets;
      Note(NetPutFinished);
    }

    method HandleWriteMsg()
      requires Valid() && state.net == RESTING
      modifies `sockets, `writePackets, `finishWritePackets, `events, `state
      ensures Valid() && state.net == RESTING && state.logic == old(state.logic)
      ensures writePackets == [] && finishWritePackets == old(finishWritePackets) + old(writePackets)
      ensures sockets.Keys == old(sockets).Keys
      ensures forall i :: i in sockets && old(sockets)[i].active ==>
                sockets[i] == Sock(true, old(sockets)[i].stream + For(old(writePackets), i))
      ensures forall i :: i in sockets && !old(sockets)[i].active ==> sockets[i] == old(sockets)[i]
    {
      hide IsRun, After, Inv, Valid, For;
      var packets := TakeWrites();
      var finishPackets: seq<SendInfo> := [];
      var k := 0;
      StreamsStart(packets);
      while k < |packets|
        invariant k <= |packets| && Valid() && state.logic == old(state.logic)
        invariant state.net == RESTING.(writing := packets[k..], sent := packets[..k])
        invariant finishPackets == packets[..k] && writePackets == []
        invariant finishWritePackets == old(finishWritePackets) && sockets.Keys == old(sockets).Keys
        invariant forall i :: i in sockets && old(sockets)[i].active ==>
                    sockets[i] == Sock(true, old(sockets)[i].stream + For(packets[..k], i))
        invariant forall i :: i in sockets && !old(sockets)[i].active ==> sockets[i] == old(sockets)[i]
      {
        StreamsGrow(packets, k);
        SendPacket(packets[k]);
        finishPackets := finishPackets + [packets[k]];
        k := k + 1;
      }
      assert packets[..k] == packets;
      PutFinished(finishPackets);
    }

    method HandleReleasePacket()
      requires Valid() && state.net == RESTING
      modifies `finishReadPackets, `events, `state
      ensures Valid() && state.net == RESTING && state.logic == old(state.logic)
      ensures finishReadPackets == [] && sockets == old(sockets)
      ensures state.h.releasedPackets == old(state.h.releasedPackets) + old(finishReadPackets)
    {
      hide IsRun, After, Inv;
      finishReadPackets := [];
      Note(NetTakeFinishRead);
      Note(NetReleasePackets);
    }

    /** One turn of `handle_release_socket`: the socket is deleted from memory. */
    method ReleaseSocket(i: Index)
      requires Valid() && state.net.releasing != [] && state.net.releasing[0] == i
      modifies `events, `state
      ensures Valid() && events == old(events) + [NetRelease]
      ensures state.logic == old(state.logic)
      ensures state.net == old(state.net).(releasing := old(state.net.releasing)[1..])
      ensures state.h.released == old(state.h.released) + [i]
    {
      hide IsRun, After, Inv;
      Note(NetRelease);
    }

    method HandleReleaseSocket()
      requires Valid() && state.net == RESTING
      modifies `deleteSockets, `events, `state
      ensures Valid() && state.net == RESTING && state.logic == old(state.logic)
      ensures deleteSockets == [] && sockets == old(sockets)
      ensures state.h.released == old(state.h.released) + old(deleteSockets)
    {
      hide IsRun, After, Inv;
      var dels := deleteSockets;
      deleteSockets := [];
      Note(NetTakeDeletes);
      var k := 0;
      while k < |dels|
        invariant k <= |dels| && Valid() && state.logic == old(state.logic)
        invariant state.net == RESTING.(releasing := dels[k..])
        invariant deleteSockets == [] && sockets == old(sockets)
        invariant state.h.released == old(state.h.released) + dels[..k]
      {
        assert dels[..k + 1] == dels[..k] + [dels[k]];
        ReleaseSocket(dels[k]);
        k := k + 1;
      }
      assert dels[..k] == dels;
    }

    /** The first three parts of `update`. */
    method TakeIn(found: map<Index, seq<Packet>>, failing: set<Index>)
      returns (ghost present: map<Index, Sock>, ghost packets: seq<Packet>, ghost closed: seq<Index>,
               ghost left: set<Index>)
      requires Valid() && state.net == RESTING
      requires forall i :: i in found ==> forall k :: 0 <= k < |found[i]| ==> found[i][k].socket == i
      modifies `newSockets, `sockets, `readPackets, `waitInitSockets, `waitKickSockets, `waitDeleteSockets
      modifies `events, `state
      ensures Valid() && state.net == RESTING && state.logic == old(state.logic)
      ensures newSockets == [] && waitKickSockets == []
      ensures waitInitSockets == old(waitInitSockets) + old(newSockets)
      ensures forall i :: i in old(newSockets) ==> i in present && present[i] == Sock(true, [])
      ensures forall i :: i in old(sockets) ==> i in present && present[i] == old(sockets)[i]
      ensures readPackets == old(readPackets) + packets && Received(present, found, present.Keys, packets)
      ensures Distinct(closed) && forall i :: i in closed <==> i in present && present[i].active && i in failing
      ensures forall i :: i in left <==> i in present && i !in closed
      ensures waitDeleteSockets == old(waitDeleteSockets) + closed + Kicked(left, old(waitKickSockets))
      ensures forall i :: i in sockets <==> i in left && i !in old(waitKickSockets)
      ensures forall i :: i in sockets ==> sockets[i] == present[i]
    {
      hide IsRun, After, Inv, Valid, Received, Kicked, Distinct;
      HandleNewSocket();
      present := sockets;
      packets, closed := HandleUnpack(found, failing);
      left := sockets.Keys;
      HandleKickSocket();
    }

    /** `update`, after the event loop: the waiting sockets are added, what is found in active
        sockets is read, the failed and the kicked ones are taken out, what was given back is
        released, and what was given over is sent. */
    method Update(found: map<Index, seq<Packet>>, failing: set<Index>)
      returns (ghost present: map<Index, Sock>, ghost packets: seq<Packet>, ghost closed: seq<Index>,
               ghost left: set<Index>)
      requires Valid() && state.net == RESTING
      requires forall i :: i in found ==> forall k :: 0 <= k < |found[i]| ==> found[i][k].socket == i
      modifies this
      ensures Valid() && state.net == RESTING && state.logic == old(state.logic)
      ensures newSockets == [] && waitKickSockets == [] && finishReadPackets == []
      ensures writePackets == [] && deleteSockets == []
      ensures waitInitSockets == old(waitInitSockets) + old(newSockets)
      ensures forall i :: i in old(newSockets) ==> i in present && present[i] == Sock(true, [])
      ensures forall i :: i in old(sockets) ==> i in present && present[i] == old(sockets)[i]
      ensures readPackets == old(readPackets) + packets && Received(present, found, present.Keys, packets)
      ensures Distinct(closed) && forall i :: i in closed <==> i in present && present[i].active && i in failing
      ensures forall i :: i in left <==> i in present && i !in closed
      ensures waitDeleteSockets == old(waitDeleteSockets) + closed + Kicked(left, old(waitKickSockets))
      ensures forall i :: i in sockets <==> i in left && i !in old(waitKickSockets)
      ensures forall i :: i in sockets ==>
                sockets[i] == if present[i].active then Sock(true, present[i].stream + For(old(writePackets), i))
                              else present[i]
      ensures finishWritePackets == old(finishWritePackets) + old(writePackets)
    {
      hide IsRun, After, Inv, Valid, Received, Kicked, Distinct, For;
      present, packets, closed, left := TakeIn(found, failing);
      HandleReleasePacket();
      HandleWriteMsg();
      HandleReleaseSocket();
    }
  }

  /** What a handler asks for while it is called. */
  datatype Push = Write(socket: Index) | Kick(i: Index)

  /** What the calls of handlers from number `from` up to number `to` ask for, in turn. */
  function Asked(asks: nat -> seq<Push>, from: nat, to: nat): seq<Push>
    requires from <= to
  {
    if from == to then [] else Asked(asks, from, to - 1) + asks(to - 1)
  }

  /** The sockets that are written to. */
  function Writes(pushes: seq<Push>): seq<Index> {
    if pushes == [] then [] else (if pushes[0].Write? then [pushes[0].socket] else []) + Writes(pushes[1..])
  }

  /** The sockets that are kicked. */
  function Kicks(pushes: seq<Push>): seq<Index> {
    if pushes == [] then [] else (if pushes[0].Kick? then [pushes[0].i] else []) + Kicks(pushes[1..])
  }

  /** New records for the sockets, numbered from `first` on. */
  function Records(first: nat, sockets: seq<Index>): seq<SendInfo> {
    seq(|sockets|, k requires 0 <= k < |sockets| => SendInfo(first + k, sockets[k]))
  }

  /** The lists of the service, once handlers have asked for `pushes`. */
  ghost predicate Served(writes: seq<SendInfo>, kicks: seq<Index>, taken: nat, pushes: seq<Push>,
                         writes': seq<SendInfo>, kicks': seq<Index>, taken': nat)
  {
    && writes' == writes + Records(taken, Writes(pushes)) && taken' == taken + |Writes(pushes)|
    && kicks' == kicks + Kicks(pushes)
  }

  lemma {:induction false} PushesJoin(a: seq<Push>, b: seq<Push>)
    ensures Writes(a + b) == Writes(a) + Writes(b) && Kicks(a + b) == Kicks(a) + Kicks(b)
  {
    if a == [] {
      assert a + b == b;
    } else {
      PushesJoin(a[1..], b);
      assert (a + b)[1..] == a[1..] + b && (a + b)[0] == a[0];
      Associative(if a[0].Write? then [a[0].socket] else [], Writes(a[1..]), Writes(b));
      Associative(if a[0].Kick? then [a[0].i] else [], Kicks(a[1..]), Kicks(b));
    }
  }

  lemma RecordsJoin(first: nat, a: seq<Index>, b: seq<Index>)
    ensures Records(first, a + b) == Records(first, a) + Records(first + |a|, b)
  {
  }

  lemma ServedNothing(writes: seq<SendInfo>, kicks: seq<Index>, taken: nat)
    ensures Served(writes, kicks, taken, [], writes, kicks, taken)
  {
  }

  lemma ServedIs(writes: seq<SendInfo>, kicks: seq<Index>, taken: nat, pushes: seq<Push>,
                 writes': seq<SendInfo>, kicks': seq<Index>, taken': nat)
    requires Served(writes, kicks, taken, pushes, writes', kicks', taken')
    ensures writes' == writes + Records(taken, Writes(pushes)) && taken' == taken + |Writes(pushes)|
    ensures kicks' == kicks + Kicks(pushes)
  {
  }

  lemma ServedOne(writes: seq<SendInfo>, kicks: seq<Index>, taken: nat, push: Push)
    ensures push.Write? ==>
      Served(writes, kicks, taken, [push], writes + [SendInfo(taken, push.socket)], kicks, taken + 1)
    ensures push.Kick? ==> Served(writes, kicks, taken, [push], writes, kicks + [push.i], taken)
  {
    assert [push][1..] == [];
    assert push.Write? ==> Writes([push]) == [push.socket] && Kicks([push]) == [];
    assert push.Kick? ==> Writes([push]) == [] && Kicks([push]) == [push.i];
    assert Records(taken, []) == [];
    assert push.Write? ==> Records(taken, [push.socket]) == [SendInfo(taken, push.socket)];
  }

  lemma ServedJoin(w0: seq<SendInfo>, k0: seq<Index>, t0: nat, a: seq<Push>, w1: seq<SendInfo>, k1: seq<Index>,
                   t1: nat, b: seq<Push>, w2: seq<SendInfo>, k2: seq<Index>, t2: nat)
    requires Served(w0, k0, t0, a, w1, k1, t1) && Served(w1, k1, t1, b, w2, k2, t2)
    ensures Served(w0, k0, t0, a + b, w2, k2, t2)
  {
    hide Writes, Kicks, Records;
    PushesJoin(a, b);
    RecordsJoin(t0, Writes(a), Writes(b));
    Associative(w0, Records(t0, Writes(a)), Records(t1, Writes(b)));
    Associative(k0, Kicks(a), Kicks(b));
  }

  lemma {:induction false} AskedJoin(asks: nat -> seq<Push>, a: nat, b: nat, c: nat)
    requires a <= b <= c
    ensures Asked(asks, a, c) == Asked(asks, a, b) + Asked(asks, b, c)
    decreases c - b
  {
    if b < c {
      AskedJoin(asks, a, b, c - 1);
      Associative(Asked(asks, a, b), Asked(asks, b, c - 1), asks(c - 1));
    }
  }

  /** The three parts of a turn. */
  lemma ServedTurn(asks: nat -> seq<Push>, n: nat, m: nat, last: nat, w: seq<SendInfo>, q: seq<Index>, t: nat,
                   w1: seq<SendInfo>, q1: seq<Index>, t1: nat, w2: seq<SendInfo>, q2: seq<Index>, t2: nat,
                   w3: seq<SendInfo>, q3: seq<Index>, t3: nat)
    requires n <= m <= last
    requires Served(w, q, t, Asked(asks, 0, n), w1, q1, t1) && Served(w1, q1, t1, Asked(asks, n, m), w2, q2, t2)
    requires Served(w2, q2, t2, Asked(asks, m, last), w3, q3, t3)
    ensures var pushes := Asked(asks, 0, last);
            w3 == w + Records(t, Writes(pushes)) && t3 == t + |Writes(pushes)| && q3 == q + Kicks(pushes)
  {
    hide Asked, Served, Records, Writes, Kicks;
    ServedJoin(w, q, t, Asked(asks, 0, n), w1, q1, t1, Asked(asks, n, m), w2, q2, t2);
    AskedJoin(asks, 0, n, m);
    ServedJoin(w, q, t, Asked(asks, 0, m), w2, q2, t2, Asked(asks, m, last), w3, q3, t3);
    AskedJoin(asks, 0, m, last);
    ServedIs(w, q, t, Asked(asks, 0, last), w3, q3, t3);
  }

  lemma NothingAsked(asks: nat -> seq<Push>, n: nat)
    ensures Asked(asks, n, n) == []
  {
  }

  lemma BatchJoins(calls: seq<Call>, inits: seq<Index>, packets: seq<Packet>, dels: seq<Index>)
    ensures calls + Inits(inits) + Handles(packets) + Closes(dels) == calls + Batch(inits, packets, dels)
  {
    hide Inits, Handles, Closes;
  }

  class Service {
    const net: SocketManager
    var writePackets: seq<SendInfo>
    var waitKickSockets: seq<Index>
    var taken: nat   // records taken from the packet pool

    /** The lists of the service are those of the state, and no turn of `do_loop` is under way. */
    ghost predicate Valid()
      reads this, net
    {
      && net.Valid() && taken == |net.state.h.pushed|
      && net.state.logic == Logic([], [], [], [], [], [], writePackets, waitKickSockets)
    }

    constructor (net: SocketManager)
      requires net.Valid() && net.state.logic == Logic([], [], [], [], [], [], [], []) && net.state.h.pushed == []
      ensures Valid() && this.net == net
    {
      this.net, writePackets, waitKickSockets, taken := net, [], [], 0;
    }

    /** `push_write_packets` of a new record for the socket. */
    method PushWritePackets(socket: Index)
      requires net.Valid() && Lists()
      modifies `writePackets, `taken, net`events, net`state
      ensures net.Valid() && Lists() && net.events == old(net.events) + [PushWrite(socket)]
      ensures writePackets == old(writePackets) + [SendInfo(old(taken), socket)] && taken == old(taken) + 1
      ensures waitKickSockets == old(waitKickSockets)
      ensures net.state.logic == old(net.state.logic).(writePackets := writePackets)
      ensures net.state.m == old(net.state.m) && net.state.net == old(net.state.net)
      ensures net.state.h == old(net.state.h).(pushed := net.state.h.pushed)
    {
      hide IsRun, After, Inv;
      writePackets := writePackets + [SendInfo(taken, socket)];
      taken := taken + 1;
      net.Note(PushWrite(socket));
    }

    /** `kick_socket` */
    method KickSocket(i: Index)
      requires net.Valid() && Lists()
      modifies `waitKickSockets, net`events, net`state
      ensures net.Valid() && Lists() && net.events == old(net.events) + [PushKick(i)]
      ensures waitKickSockets == old(waitKickSockets) + [i] && writePackets == old(writePackets) && taken == old(taken)
      ensures net.state == old(net.state).(logic := old(net.state.logic).(waitKickSockets := waitKickSockets))
    {
      hide IsRun, After, Inv;
      waitKickSockets := waitKickSockets + [i];
      net.Note(PushKick(i));
    }

    /** The calls of `push_write_packets` and `kick_socket` made by a handler. */
    method Serve(pushes: seq<Push>)
      requires net.Valid() && Lists()
      modifies this, net`events, net`state
      ensures net.Valid() && Lists() && old(net.events) <= net.events
      ensures net.state.logic == old(net.state.logic).(writePackets := writePackets, waitKickSockets := waitKickSockets)
      ensures net.state.m == old(net.state.m) && net.state.net == old(net.state.net)
      ensures net.state.h == old(net.state.h).(pushed := net.state.h.pushed)
      ensures Served(old(writePackets), old(waitKickSockets), old(taken), pushes, writePackets, waitKickSockets, taken)
    {
      hide IsRun, After, Inv, SocketManager.Valid, Served;
      var k := 0;
      ServedNothing(writePackets, waitKickSockets, taken);
      assert pushes[..0] == [];
      while k < |pushes|
        invariant k <= |pushes| && net.Valid() && Lists() && old(net.events) <= net.events
        invariant net.state.logic ==
                  old(net.state.logic).(writePackets := writePackets, waitKickSockets := waitKickSockets)
        invariant net.state.m == old(net.state.m) && net.state.net == old(net.state.net)
        invariant net.state.h == old(net.state.h).(pushed := net.state.h.pushed)
        invariant Served(old(writePackets), old(waitKickSockets), old(taken), pushes[..k],
                         writePackets, waitKickSockets, taken)
      {
        ghost var w, q, t := writePackets, waitKickSockets, taken;
        ServedOne(w, q, t, pushes[k]);
        match pushes[k] {
          case Write(socket) => PushWritePackets(socket);
          case Kick(i) => KickSocket(i);
        }
        ServedJoin(old(writePackets), old(waitKickSockets), old(taken), pushes[..k], w, q, t, [pushes[k]],
          writePackets, waitKickSockets, taken);
        assert pushes[..k + 1] == pushes[..k] + [pushes[k]];
        k := k + 1;
      }
      assert pushes[..k] == pushes;
    }

    /** What one more call of a handler asks for. */
    method ServeCall(asks: nat -> seq<Push>, ghost n: nat, n': nat, ghost writes: seq<SendInfo>,
                     ghost kicks: seq<Index>, ghost taken: nat)
      requires net.Valid() && Lists() && n <= n'
      requires Served(writes, kicks, taken, Asked(asks, n, n'), writePackets, waitKickSockets, this.taken)
      modifies this, net`events, net`state
      ensures net.Valid() && Lists() && old(net.events) <= net.events
      ensures net.state.logic == old(net.state.logic).(writePackets := writePackets, waitKickSockets := waitKickSockets)
      ensures net.state.m == old(net.state.m) && net.state.net == old(net.state.net)
      ensures net.state.h == old(net.state.h).(pushed := net.state.h.pushed)
      ensures Served(writes, kicks, taken, Asked(asks, n, n' + 1), writePackets, waitKickSockets, this.taken)
    {
      hide IsRun, After, Inv, Served, SocketManager.Valid, Lists;
      ghost var w, q, t := writePackets, waitKickSockets, this.taken;
      Serve(asks(n'));
      ServedJoin(writes, kicks, taken, Asked(asks, n, n'), w, q, t, asks(n'),
        writePackets, waitKickSockets, this.taken);
    }

    ghost predicate Lists()
      reads this, net
    {
      && net.state.logic.writePackets == writePackets && net.state.logic.waitKickSockets == waitKickSockets
      && taken == |net.state.h.pushed|
    }

    /** `do_loop`, given what the handler asks for at each call: frees what was sent, then
        calls every init, every handle and every close in store, then gives all back. */
    method DoLoop(asks: nat -> seq<Push>)
      requires Valid()
      modifies this, net
      ensures Valid() && old(net.events) <= net.events && net.state.net == old(net.state.net)
      ensures net.state.h.calls == old(net.state.h.calls)
              + Batch(old(net.waitInitSockets), old(net.readPackets), old(net.waitDeleteSockets))
      ensures net.state.h.freed == old(net.state.h.freed) + old(net.finishWritePackets)
      ensures net.finishReadPackets == old(net.finishReadPackets) + old(net.readPackets)
      ensures net.deleteSockets == old(net.deleteSockets) + old(net.waitDeleteSockets)
      ensures var pushes := Asked(asks, 0, |old(net.waitInitSockets)| + |old(net.readPackets)|
                                           + |old(net.waitDeleteSockets)|);
        && net.writePackets == old(net.writePackets) + (old(writePackets) + Records(old(taken), Writes(pushes)))
        && net.waitKickSockets == old(net.waitKickSockets) + (old(waitKickSockets) + Kicks(pushes))
        && taken == old(taken) + |Writes(pushes)| && writePackets == [] && waitKickSockets == []
      ensures net.sockets == old(net.sockets)
    {
      hide IsRun, After, Inv, Inits, Handles, Closes, Batch, Served, Asked, Records, Writes, Kicks;
      var packets, finished, inits, dels := net.SwapNet2Logic();
      FreeAll(finished);
      ghost var calls, w, q, t := net.state.h.calls, writePackets, waitKickSockets, taken;
      var n := CallInits(inits, asks, 0);
      ghost var w1, q1, t1 := writePackets, waitKickSockets, taken;
      var m := CallHandles(packets, asks, n);
      ghost var w2, q2, t2 := writePackets, waitKickSockets, taken;
      CallCloses(dels, asks, m);
      ServedTurn(asks, n, m, m + |dels|, w, q, t, w1, q1, t1, w2, q2, t2, writePackets, waitKickSockets, taken);
      BatchJoins(calls, inits, packets, dels);
      net.SwapLogin2Net(writePackets, packets, waitKickSockets, dels);
      writePackets := [];
      waitKickSockets := [];
    }

    method FreeAll(finished: seq<SendInfo>)
      requires net.Valid() && Lists() && net.state.logic.finished == finished
      modifies net`events, net`state
      ensures net.Valid() && Lists() && old(net.events) <= net.events
      ensures net.state.m == old(net.state.m) && net.state.net == old(net.state.net)
      ensures net.state.logic == old(net.state.logic).(finished := [])
      ensures net.state.h == old(net.state.h).(freed := old(net.state.h.freed) + finished)
    {
      hide IsRun, After, Inv;
      var k := 0;
      while k < |finished|
        invariant k <= |finished| && net.Valid() && Lists() && old(net.events) <= net.events
        invariant net.state.m == old(net.state.m) && net.state.net == old(net.state.net)
        invariant net.state.logic == old(net.state.logic).(finished := finished[k..])
        invariant net.state.h == old(net.state.h).(freed := old(net.state.h.freed) + finished[..k])
      {
        net.Note(Free);
        k := k + 1;
      }
      assert finished[..k] == finished;
    }

    method CallInits(inits: seq<Index>, asks: nat -> seq<Push>, n: nat) returns (n': nat)
      requires net.Valid() && Lists() && net.state.logic.finished == [] && net.state.logic.inits == inits
      modifies this, net`events, net`state
      ensures net.Valid() && Lists()
      ensures n' == n + |inits|
      ensures Since(old(net.events), old(net.state), old(writePackets), old(waitKickSockets), old(taken),
                    Asked(asks, n, n'))
      ensures net.state.logic == old(net.state.logic).(
                inits := [], writePackets := writePackets, waitKickSockets := waitKickSockets)
      ensures net.state.h.calls == old(net.state.h.calls) + Inits(inits)
    {
      hide IsRun, After, Inv, Served, Asked;
      n' := n;
      var k := 0;
      ServedNothing(writePackets, waitKickSockets, taken);
      NothingAsked(asks, n);
      while k < |inits|
        invariant k <= |inits| && net.Valid() && Lists()
        invariant n' == n + k && Since(old(net.events), old(net.state), old(writePackets), old(waitKickSockets),
                                       old(taken), Asked(asks, n, n'))
        invariant net.state.logic == old(net.state.logic).(
                    inits := inits[k..], writePackets := writePackets, waitKickSockets := waitKickSockets)
        invariant net.state.h.calls == old(net.state.h.calls) + Inits(inits[..k])
      {
        net.Note(CallInit);
        ServeCall(asks, n, n', old(writePackets), old(waitKickSockets), old(taken));
        PartsJoin(inits[..k], [], [], inits[k]);
        assert inits[..k + 1] == inits[..k] + [inits[k]];
        k, n' := k + 1, n' + 1;
      }
      assert inits[..k] == inits;
    }

    method CallHandles(packets: seq<Packet>, asks: nat -> seq<Push>, n: nat) returns (n': nat)
      requires net.Valid() && Lists() && net.state.logic.finished == [] && net.state.logic.inits == []
      requires net.state.logic.packets == packets && net.state.logic.handled == []
      modifies this, net`events, net`state
      ensures net.Valid() && Lists()
      ensures n' == n + |packets|
      ensures Since(old(net.events), old(net.state), old(writePackets), old(waitKickSockets), old(taken),
                    Asked(asks, n, n'))
      ensures net.state.logic == old(net.state.logic).(packets := [], handled := packets,
                writePackets := writePackets, waitKickSockets := waitKickSockets)
      ensures net.state.h.calls == old(net.state.h.calls) + Handles(packets)
    {
      hide IsRun, After, Inv, Served, Asked;
      n' := n;
      var k := 0;
      ServedNothing(writePackets, waitKickSockets, taken);
      NothingAsked(asks, n);
      while k < |packets|
        invariant k <= |packets| && net.Valid() && Lists()
        invariant n' == n + k && Since(old(net.events), old(net.state), old(writePackets), old(waitKickSockets),
                                       old(taken), Asked(asks, n, n'))
        invariant net.state.logic == old(net.state.logic).(packets := packets[k..], handled := packets[..k],
                    writePackets := writePackets, waitKickSockets := waitKickSockets)
        invariant net.state.h.calls == old(net.state.h.calls) + Handles(packets[..k])
      {
        net.Note(CallHandle);
        ServeCall(asks, n, n', old(writePackets), old(waitKickSockets), old(taken));
        PartsJoin([], packets[..k], [packets[k]], 0);
        assert packets[..k + 1] == packets[..k] + [packets[k]];
        k, n' := k + 1, n' + 1;
      }
      assert packets[..k] == packets;
    }

    method CallCloses(dels: seq<Index>, asks: nat -> seq<Push>, n: nat)
      requires net.Valid() && Lists() && net.state.logic.finished == [] && net.state.logic.inits == []
      requires net.state.logic.packets == [] && net.state.logic.closes == dels && net.state.logic.closed == []
      modifies this, net`events, net`state
      ensures net.Valid() && Lists()
      ensures Since(old(net.events), old(net.state), old(writePackets), old(waitKickSockets), old(taken),
                    Asked(asks, n, n + |dels|))
      ensures net.state.logic == old(net.state.logic).(closes := [], closed := dels,
                writePackets := writePackets, waitKickSockets := waitKickSockets)
      ensures net.state.h.calls == old(net.state.h.calls) + Closes(dels)
    {
      hide IsRun, After, Inv, Served, Asked;
      var n' := n;
      var k := 0;
      ServedNothing(writePackets, waitKickSockets, taken);
      NothingAsked(asks, n);
      while k < |dels|
        invariant k <= |dels| && net.Valid() && Lists()
        invariant n' == n + k && Since(old(net.events), old(net.state), old(writePackets), old(waitKickSockets),
                                       old(taken), Asked(asks, n, n'))
        invariant net.state.logic == old(net.state.logic).(closes := dels[k..], closed := dels[..k],
                    writePackets := writePackets, waitKickSockets := waitKickSockets)
        invariant net.state.h.calls == old(net.state.h.calls) + Closes(dels[..k])
      {
        net.Note(CallClose);
        ServeCall(asks, n, n', old(writePackets), old(waitKickSockets), old(taken));
        PartsJoin(dels[..k], [], [], dels[k]);
        assert dels[..k + 1] == dels[..k] + [dels[k]];
        k, n' := k + 1, n' + 1;
      }
      assert dels[..k] == dels;
    }

    /** What calls of handlers leave as it was, and how the lists of the service grow. */
    ghost predicate Since(events: seq<Event>, s: State, writes: seq<SendInfo>, kicks: seq<Index>, taken: nat,
                          pushes: seq<Push>)
      reads this, net
    {
      && events <= net.events && net.state.m == s.m && net.state.net == s.net
      && net.state.h == s.h.(calls := net.state.h.calls, pushed := net.state.h.pushed)
      && Served(writes, kicks, taken, pushes, writePackets, waitKickSockets, this.taken)
    }
  }
}
