/** The hand-off between the net thread and the logic thread (share/src/socket_manager.hpp
    and `service::do_loop`, share/src/service.cpp). What each operation does to the
    manager, and every interleaving of the two threads as a transition system in which
    each critical section, each socket operation and each handler call is one step. */
module HandOff {
  type Index = nat

  /** `packet_recv_info` */
  datatype Packet = Packet(socket: Index, data: nat)

  /** `packet_send_info`: the number stands for the allocated record and its buffer. */
  datatype SendInfo = SendInfo(id: nat, socket: Index)

  /** A socket in `m_sockets`: whether it is active, and the packets written to its stream. */
  datatype Sock = Sock(active: bool, stream: seq<SendInfo>)

  /** The fields of `socket_manager`. */
  datatype Manager = Manager(
    sequenceIndex: nat,
    newSockets: seq<Index>,
    sockets: map<Index, Sock>,
    // guarded by the mutex
    readPackets: seq<Packet>,
    finishReadPackets: seq<Packet>,
    writePackets: seq<SendInfo>,
    finishWritePackets: seq<SendInfo>,
    waitInitSockets: seq<Index>,
    waitKickSockets: seq<Index>,
    waitDeleteSockets: seq<Index>,
    deleteSockets: seq<Index>)

  // ----- the operations -----

  /** `on_accept`: a new socket with the next index. */
  function Accept(m: Manager): Manager {
    m.(sequenceIndex := m.sequenceIndex + 1, newSockets := m.newSockets + [m.sequenceIndex + 1])
  }

  function AddSocket(m: Manager, i: Index): Manager {
    if i in m.sockets then m
    else m.(sockets := m.sockets[i := Sock(true, [])], waitInitSockets := m.waitInitSockets + [i])
  }

  function DelSocket(m: Manager, i: Index): Manager {
    m.(sockets := m.sockets - {i}, waitDeleteSockets := m.waitDeleteSockets + [i])
  }

  /** One turn of `handle_kick_socket`. */
  function KickSocket(m: Manager, i: Index): Manager {
    if i in m.sockets then DelSocket(m, i) else m
  }

  function SendPacket(m: Manager, info: SendInfo): Manager {
    if info.socket !in m.sockets then m
    else
      var s := m.sockets[info.socket];
      if s.active then m.(sockets := m.sockets[info.socket := s.(stream := s.stream + [info])]) else m
  }

  function Deactivated(m: Manager, i: Index): Manager
    requires i in m.sockets
  {
    m.(sockets := m.sockets[i := m.sockets[i].(active := false)])
  }

  function SwapNet2Logic(m: Manager): Manager {
    m.(readPackets := [], finishWritePackets := [], waitInitSockets := [], waitDeleteSockets := [])
  }

  function SwapLogin2Net(m: Manager, writes: seq<SendInfo>, handled: seq<Packet>, kicks: seq<Index>, dels: seq<Index>)
    : Manager
  {
    m.(writePackets := m.writePackets + writes,
       finishReadPackets := m.finishReadPackets + handled,
       waitKickSockets := m.waitKickSockets + kicks,
       deleteSockets := m.deleteSockets + dels)
  }

  // ----- the two threads -----

  /** The local variables of the net thread. */
  datatype Net = Net(
    kicking: seq<Index>,
    releasingPackets: seq<Packet>,
    writing: seq<SendInfo>,
    sent: seq<SendInfo>,
    releasing: seq<Index>)

  /** The local variables of `do_loop`, what it has worked through of them, and the
      lists of the service. */
  datatype Logic = Logic(
    finished: seq<SendInfo>,
    inits: seq<Index>,
    packets: seq<Packet>,
    closes: seq<Index>,
    handled: seq<Packet>,
    closed: seq<Index>,
    writePackets: seq<SendInfo>,
    waitKickSockets: seq<Index>)

  /** A call of `handle_init`, `handle` or `handle_close` by the logic thread. */
  datatype Call = Init(socket: Index) | Handle(socket: Index, data: nat) | Close(socket: Index)

  /** What has happened so far. */
  datatype History = History(
    added: seq<Index>,            // sockets entered into m_sockets
    unpacked: seq<Packet>,        // packets read
    deleted: seq<Index>,          // sockets given to del_socket
    calls: seq<Call>,             // handler calls
    releasedPackets: seq<Packet>,
    released: seq<Index>,         // sockets deleted from memory
    pushed: seq<SendInfo>,        // packets given to push_write_packets
    freed: seq<SendInfo>,
    since: map<Index, nat>)       // how many packets were sent before a socket was added

  datatype State = State(m: Manager, net: Net, logic: Logic, h: History)

  function Start(index: nat): State {
    State(Manager(index, [], map[], [], [], [], [], [], [], [], []),
          Net([], [], [], [], []), Logic([], [], [], [], [], [], [], []),
          History([], [], [], [], [], [], [], [], map[]))
  }

  datatype Event =
    // the net thread
    | NetAccept | NetAdd | NetUnpack(i: Index, packets: seq<Packet>) | NetDeactivate(i: Index) | NetClose(i: Index)
    | NetTakeKicks | NetKick
    | NetTakeFinishRead | NetReleasePackets
    | NetTakeWrites | NetSend | NetPutFinished
    | NetTakeDeletes | NetRelease
    // the logic thread
    | SwapIn | Free | CallInit | CallHandle | CallClose | SwapOut | PushWrite(socket: Index) | PushKick(i: Index)

  /** The packets the net thread is done with, in the order they were sent. */
  function Done(s: State): seq<SendInfo> {
    s.h.freed + s.logic.finished + s.m.finishWritePackets + s.net.sent
  }

  predicate Idle(l: Logic) {
    l.finished == [] && l.inits == [] && l.packets == [] && l.closes == []
  }

  predicate Enabled(s: State, event: Event) {
    match event
    case NetAdd => s.m.newSockets != []
    case NetUnpack(i, packets) =>
      i in s.m.sockets && s.m.sockets[i].active && forall k :: 0 <= k < |packets| ==> packets[k].socket == i
    case NetDeactivate(i) => i in s.m.sockets
    case NetKick => s.net.kicking != []
    case NetSend => s.net.writing != []
    case NetRelease => s.net.releasing != []
    case SwapIn => Idle(s.logic) && s.logic.handled == [] && s.logic.closed == []
    case Free => s.logic.finished != []
    case CallInit => s.logic.finished == [] && s.logic.inits != []
    case CallHandle => s.logic.finished == [] && s.logic.inits == [] && s.logic.packets != []
    case CallClose =>
      s.logic.finished == [] && s.logic.inits == [] && s.logic.packets == [] && s.logic.closes != []
    case SwapOut => Idle(s.logic)
    case _ => true
  }

  /** The socket is recorded as taken out if it was there. */
  function Removed(s: State, m': Manager, i: Index): State {
    if i in s.m.sockets then s.(m := m', h := s.h.(deleted := s.h.deleted + [i])) else s.(m := m')
  }

  function NetStep(s: State, event: Event): State
    requires Enabled(s, event)
  {
    var m, n, h := s.m, s.net, s.h;
    match event
    case NetAccept => s.(m := Accept(m))
    case NetAdd =>
      var i := m.newSockets[0];
      var m' := AddSocket(m, i).(newSockets := m.newSockets[1..]);
      if i in m.sockets then s.(m := m')
      else s.(m := m', h := h.(added := h.added + [i], since := h.since[i := |Done(s)|]))
    case NetUnpack(i, packets) =>
      s.(m := m.(readPackets := m.readPackets + packets), h := h.(unpacked := h.unpacked + packets))
    case NetDeactivate(i) => s.(m := Deactivated(m, i))
    case NetClose(i) => s.(m := DelSocket(m, i), h := h.(deleted := h.deleted + [i]))
    case NetTakeKicks => s.(m := m.(waitKickSockets := []), net := n.(kicking := n.kicking + m.waitKickSockets))
    case NetKick =>
      Removed(s, KickSocket(m, n.kicking[0]), n.kicking[0]).(net := n.(kicking := n.kicking[1..]))
    case NetTakeFinishRead =>
      s.(m := m.(finishReadPackets := []), net := n.(releasingPackets := n.releasingPackets + m.finishReadPackets))
    case NetReleasePackets =>
      s.(net := n.(releasingPackets := []), h := h.(releasedPackets := h.releasedPackets + n.releasingPackets))
    case NetTakeWrites => s.(m := m.(writePackets := []), net := n.(writing := n.writing + m.writePackets))
    case NetSend =>
      s.(m := SendPacket(m, n.writing[0]), net := n.(writing := n.writing[1..], sent := n.sent + [n.writing[0]]))
    case NetPutFinished =>
      s.(m := m.(finishWritePackets := m.finishWritePackets + n.sent), net := n.(sent := []))
    case NetTakeDeletes => s.(m := m.(deleteSockets := []), net := n.(releasing := n.releasing + m.deleteSockets))
    case NetRelease =>
      s.(net := n.(releasing := n.releasing[1..]), h := h.(released := h.released + [n.releasing[0]]))
    case _ => s
  }

  function LogicStep(s: State, event: Event): State
    requires Enabled(s, event)
  {
    var m, l, h := s.m, s.logic, s.h;
    match event
    case SwapIn =>
      s.(m := SwapNet2Logic(m),
         logic := l.(finished := m.finishWritePackets, inits := m.waitInitSockets,
                     packets := m.readPackets, closes := m.waitDeleteSockets))
    case Free => s.(logic := l.(finished := l.finished[1..]), h := h.(freed := h.freed + [l.finished[0]]))
    case CallInit => s.(logic := l.(inits := l.inits[1..]), h := h.(calls := h.calls + [Init(l.inits[0])]))
    case CallHandle =>
      var p := l.packets[0];
      s.(logic := l.(packets := l.packets[1..], handled := l.handled + [p]),
         h := h.(calls := h.calls + [Handle(p.socket, p.data)]))
    case CallClose =>
      s.(logic := l.(closes := l.closes[1..], closed := l.closed + [l.closes[0]]),
         h := h.(calls := h.calls + [Close(l.closes[0])]))
    case SwapOut =>
      s.(m := SwapLogin2Net(m, l.writePackets, l.handled, l.waitKickSockets, l.closed),
         logic := l.(handled := [], closed := [], writePackets := [], waitKickSockets := []))
    case PushWrite(socket) =>
      var info := SendInfo(|h.pushed|, socket);
      s.(logic := l.(writePackets := l.writePackets + [info]), h := h.(pushed := h.pushed + [info]))
    case PushKick(i) => s.(logic := l.(waitKickSockets := l.waitKickSockets + [i]))
    case _ => s
  }

  predicate ByLogic(event: Event) {
    match event
    case SwapIn | Free | CallInit | CallHandle | CallClose | SwapOut | PushWrite(_) | PushKick(_) => true
    case _ => false
  }

  function Step(s: State, event: Event): State
    requires Enabled(s, event)
  {
    if ByLogic(event) then LogicStep(s, event) else NetStep(s, event)
  }

  ghost predicate IsRun(s: State, events: seq<Event>)
    decreases |events|
  {
    events == [] || (Enabled(s, events[0]) && IsRun(Step(s, events[0]), events[1..]))
  }

  function After(s: State, events: seq<Event>): State
    requires IsRun(s, events)
    decreases |events|
  {
    if events == [] then s else After(Step(s, events[0]), events[1..])
  }
}
