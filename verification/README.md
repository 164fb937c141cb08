# Verification of the server framework's state machines

A Dafny model of the parts of the server framework that are state machines or codecs,
with proofs of what they keep over every run. `dafny verify dfyconfig.toml` checks it.

- **Timer wheel** (`TimerWheel`, `TimerAgenda`, `TimerRuns`, `TimerOrder`,
  `TimerCallbacks`, `TimerClass`). Slots of seconds, minutes, hours and days hold doubly linked lists that cascade down on each rollover. The wheel
  refines a map from timers to due seconds; the classes relink nodes in place and refine the wheel.
  The wheel drops the carry of each digit when a timer is filed, so a timer can fire early by whole
  minutes or hours; `FiringLaw` says exactly when it does not, and `FiresWhenDue` says it of runs. A
  delay of 0 fires after 60 seconds, and from 31 days on whole turns of 30 days are lost.
  `FiresInOrder` gives the order of the timers of one second.
- **Hand-off between the net thread and the logic thread** (`HandOff`, `HandOffSafety`,
  `HandOffReleases`, `HandOffThreads`). Every critical section, socket operation and handler call is
  one step, in any interleaving; the net thread's steps may even come in any order. The objects record the run they
  are part of, so that the results hold of their fields. `del_socket` does not ask whether a socket
  is still there; `SafeIffProper` says that closing a socket only while it is in `m_sockets` is
  exactly what keeps it from being deleted twice or while it is in use.
- **Login and relay** (`LoginProtocol`, `LoginSafety`, `LoginHistory`, `LoginEntities`). One stub,
  any number of account and role entities, and a bag of messages that may be reordered and lost but
  not duplicated; each account entity logs in once. The entities as objects share a ghost record of
  the run they are part of, and each handler adds the delivery it is, so that the results about
  owners, logins and relays hold of the objects.
- **HTTP requests and replies** (`HttpParser`, `HttpGrammar`, `HttpReply`). The byte machine accepts
  exactly the texts of a grammar that has no states; its classes of characters are defined apart
  from the parser's and proved equal to them.
- **Socket buffers** (`Ring`, `SocketStreams`). Rings that grow and wrap around refine a queue of
  bytes, whatever the socket answers. The length kept by the input stream is only an upper bound
  after `skip`, and both lengths kept stay as they were after an oversize reset. `Fill` says
  exactly when its result, if it is no error, is not the number of bytes received: once the buffer
  has filled up, bytes that come after it has grown are not counted, and none at all are when the
  next receipt finds nothing.
- **Memory** (`MemoryPool`). The free list and the size classes told by a mark byte.
- **Remote calls** (`Rpc`). A self-delimiting encoding of nested values and argument tuples.
- **Building economy** (`Economy`, `EconomyLedger`, `EconomyTables`, `EconomyOrders`,
  `EconomyRole`). A ledger over whole runs, and what each order does by the tables. Collecting reads the row of a building's level without asking whether there is one;
  `EconomyTables` says exactly for which tables no run gets there.
- **Response bodies and URLs** (`ChunkedBody`, `ResponseBody`, `UrlCodec`). Responses pass through a
  string with a 16-bit length; the results say exactly which bodies come back. Encoding a URL stays
  in its table of digits exactly for bytes below 128.

Assumptions. Socket indices come from one counter that does not wrap. What `send`, `receive`,
`available`, `unpack_packets`, database queries and handlers answer is arbitrary; a packet read from
a socket names that socket. Integers are unbounded except where a width is written out: the slot
words of timers, the counts and capacities of remote calls, the lengths in the chunk decoder and in
the string it reads from. Characters are classified as in the C locale, and `char` is signed.
Resource types, prices and rates are natural numbers; `INVALID_RESOURCE_TYPE` and the initial amounts
are 0. Price lists have an even length, as the table loaders demand. A run of the economy ends where
the process crashes.

## Main results

The timer wheel: `FiresWhenDue`, `WheelFiresTheAgenda`, `FiresInOrder`, `FiringLaw`,
`ProcSecondNodes`. The hand-off: `CallsFollowTheLife`, `DoLoop`, `SafeIffProper`,
`InExactlyOnePlace`, `StreamsGetWhatWasPushed`. Logins:
`RoleHasOneOwner`, `HolderIsOwner`, `LoadsAtMostOnce`, `HandedToOneSuccessor`, `PlayedIsGiven`,
`NoRoleAfterMakingWay`.
Requests: `ParserAcceptsTheGrammar`, `ChunkingInvariance`. Buffers: `Flush`, `Fill`. Memory:
`Pool.Allocate`, `Pool.Deallocate`. Remote calls: `DecodesEncoded`, `EncodesDecoded`, `RemoteCall`.
The economy: `Ledger`, `CollectionsApart`, `NothingLostIff`, `NeverBelowZero`, `NeverCrashesIff`.
Responses and URLs: `ChunkedComesBack`, `PlainComesBack`, `DecodeInvertsEncode`.

## Model

| member | source | states |
|---|---|---|
| `TimerWheel.UnpackPacked` | share/src/timer.cpp:121-123 | the slot numbers packed into the two slot words at adding are the ones the cascades read back, and the repeat bit of a one-shot timer stays clear |
| `TimerAgenda.FiringLaw` | share/src/timer.cpp:107-141 | for every delay at every time: a timer is due at least one tick after it is added, never later than asked unless the delay is 0, and exactly on time if and only if the delay is positive, below 31 days and adds up without a carry below its filing level; delays below 60 are always exact |
| `TimerAgenda.FiresEarly` | share/src/timer.cpp:107-141 | a timer of 90 seconds added 30 seconds into a minute is due after 30 seconds |
| `TimerAgenda.DueDigit` | share/src/timer.cpp:112-123 | the due second has, from the filing level down, exactly the digits that were written into the slot words, each sum losing its carry |
| `TimerRuns.TickHolds` | share/src/timer.cpp:49-58 | one second fires exactly the timers due at it, each once, and the wheel then holds exactly the later ones |
| `TimerRuns.AddHolds` | share/src/timer.cpp:107-141 | adding a timer enters it into the map from timers to due seconds, at its due second, which is in the future |
| `TimerRuns.RunHolds` | share/src/timer.cpp:49-58 | after any sequence of additions and seconds the wheel holds exactly the timers still to come and every past second fired exactly its own |
| `TimerRuns.WheelFiresTheAgenda` | share/src/timer.cpp:49-58 | over any run, the timers fired at a second are those due at it by the order of addition and the delays alone, each exactly once |
| `TimerRuns.DueTimeOf` | share/src/timer.cpp:107-141 | what is due is fixed when a timer is added: its due second does not depend on what happens later |
| `TimerRuns.FiresWhenDue` | share/src/timer.cpp:49-58 | in every run, the timer that an addition adds fires at its due second and at no other; it fires exactly its delay after it was added if and only if the delay is positive, below 31 days, and no digit below the filing level carries when it is added to the time |
| `TimerOrder.FiresInOrder` | share/src/timer.cpp:154-183 | in every run, the timers of a second fire in this order: the one that came first to its slot, then the others, the latest first; what comes to a slot, in turn, are the timers filed there when added and, when the unit above begins, those that come down, in the order of their slot |
| `TimerOrder.ShortDelaysFire` | share/src/timer.cpp:154-183 | if every timer due at a second has a delay below 60, the first one added fires first and then the others, the latest first |
| `TimerOrder.MinuteDelaysFire` | share/src/timer.cpp:60-69 | if every timer due in a minute has a delay from one minute to below an hour, those due at a second of it fire in the order in which they stand among the minute's timers, first one first and then the latest first, each time by the order of addition |
| `TimerOrder.ThreeTimers` | share/src/timer.cpp:154-183 | three timers of five seconds fire in the order 1, 3, 2 |
| `TimerCallbacks.AddingWhileFiring` | share/src/timer.cpp:49-58 | when callbacks add timers of positive delay while their slot is being fired, the same timers fire and the wheel is as if the additions had come right after the second |
| `TimerCallbacks.CallbacksAddToRuns` | share/src/timer.cpp:49-58 | a second whose callbacks add timers of positive delay leads to the wheel and the timers fired of the run in which the additions follow the second, so that what holds of all runs holds of them |
| `TimerClass.DelTimerCore` | share/src/timer.cpp:143-152 | unlinking a node anywhere in a list leaves the list without it, well linked |
| `TimerClass.Row.AddNode` | share/src/timer.cpp:154-168 | the node goes behind the front of its slot's list; all other lists stay as they were and the lists stay disjoint and acyclic |
| `TimerClass.Row.ProcUpLayerNode` | share/src/timer.cpp:185-194 | emptying a slot into the row below terminates, moves every node once and equals the cascade on lists of timers |
| `TimerClass.Row.FireList` | share/src/timer.cpp:170-183 | the callbacks run once for each node of the list, in list order |
| `TimerClass.Row.ProcNode` | share/src/timer.cpp:170-183 | firing a slot runs its timers in list order and leaves every other list as it was |
| `TimerClass.GameTimer.constructor` | share/src/timer.cpp:15-28 | a new timer has four separate rows of 60, 60, 24 and 30 empty slots, and its hands at 0 |
| `TimerClass.GameTimer.Init` | share/src/timer.cpp:15-30 | an empty timer is at the start of a run |
| `TimerClass.GameTimer.AddTimer` | share/src/timer.cpp:90-96 | adding a timer appends one addition to the run, whose wheel the pointer structure is, and returns its number |
| `TimerClass.GameTimer.AddTimerCore` | share/src/timer.cpp:107-141 | the pointer structure after adding is the wheel after adding |
| `TimerClass.GameTimer.ProcSecondNodes` | share/src/timer.cpp:49-58 | one second on the pointer structure is one tick of the wheel, with the same timers fired in the same order |
| `TimerClass.GameTimer.ProcMinuteNodes` | share/src/timer.cpp:60-69 | the minute rollover on the pointer structure is that of the wheel |
| `TimerClass.GameTimer.ProcHourNodes` | share/src/timer.cpp:71-80 | the hour rollover on the pointer structure is that of the wheel |
| `TimerClass.GameTimer.ProcDayNodes` | share/src/timer.cpp:82-88 | the day rollover on the pointer structure is that of the wheel |
| `TimerClass.GameTimer.Update` | share/src/timer.cpp:32-47 | as many seconds pass as the clock has moved on, none when it stands still or goes back, and every slot list stays part of the wheel of the run |
| `HandOffSafety.StepKeepsWritePipe` | share/src/socket_manager.hpp:108-125 | every step of either thread keeps the packets pushed, in push order, spread over one pipeline of lists, and only sending moves a packet into the part that is done |
| `HandOffSafety.StepKeepsReadPipe` | share/src/socket_manager.hpp:86-106 | every step keeps the packets read, in reading order, spread over one pipeline from the shared list to release |
| `HandOffSafety.StepKeepsClosePipe` | share/src/socket_manager.hpp:202-255 | every step keeps the sockets given to del_socket, as often and in the order given, spread over one pipeline from the shared list to deletion |
| `HandOffSafety.StepKeepsSockets` | share/src/socket_manager.hpp:285-315 | every step keeps it so that socket indices never repeat, that m_sockets holds sockets that were added, and that a socket added and not taken out is in it |
| `HandOffSafety.StepKeepsOnce` | share/src/socket_manager.hpp:307-315 | a step keeps a socket from being taken out twice, or before it was added, if and only if it does not close the socket while it is not in m_sockets, and what has gone wrong stays so |
| `HandOffSafety.NextIsNew` | share/src/socket_manager.hpp:285-291 | the branch for a repeated index is never reached when indices come from the counter |
| `HandOffSafety.LogicKeepsQueue` | share/src/service.cpp:136-155 | the logic thread makes the init, handle and close calls in exactly the order in which they were queued |
| `HandOffSafety.StepKeepsCalls` | share/src/service.cpp:143-153 | every step that does not close a socket while it is not in m_sockets keeps the calls made and queued for it equal to one init, a handle for each packet read in reading order, and one close once taken out |
| `HandOffSafety.StepKeepsHandledPipe` | share/src/service.cpp:147-149 | every step keeps the packets handled equal to those on their way back to the net thread or released by it, in handling order |
| `HandOffSafety.StepKeepsStreams` | share/src/socket_manager.hpp:270-283 | every step keeps the stream of an active socket equal to the packets for it sent since it was added |
| `HandOffSafety.TakenOutOnce` | share/src/socket_manager.hpp:307-315 | in every interleaving, a socket is taken out at most once, after it was added, and is then not in m_sockets, if and only if the run closes it only while it is there |
| `HandOffSafety.CallsFollowTheLife` | share/src/socket_manager.hpp:86-106 | in every interleaving that closes the socket only while it is in m_sockets, the calls for it are a prefix of init, its packets in the order read with none left out or repeated, close |
| `HandOffSafety.AllCallsMade` | share/src/service.cpp:151-155 | a socket handed back for deletion, and taken out once, has had all its calls, the close last |
| `HandOffSafety.ReleasedOnceAndLast` | share/src/socket_manager.hpp:202-255 | in every interleaving that closes the socket only while it is in m_sockets, with any kicks, it is deleted from memory at most once, after its close was handled, when it is in none of the lists that sockets go through from acceptance to deletion and no packet of it waits to be handled; only its number may still stand in a list of kicks |
| `HandOffReleases.SafeIffProper` | share/src/socket_manager.hpp:202-315 | for every run: a socket is closed only while it is in m_sockets if and only if, however the run goes on without further closes from outside, it is deleted at most once, and only after it was added and when nothing refers to it |
| `HandOffReleases.Drain` | share/src/socket_manager.hpp:86-125 | from every state a run can reach, both threads can go on so that exactly the sockets given to del_socket are deleted, in order, as often as given |
| `HandOffReleases.KickedThenClosed` | share/src/socket_manager.hpp:202-315 | a run in which a socket is kicked, its close handler (`on_client_close` in share/src/ws_manager.cpp) closes it again, and it is deleted twice |
| `HandOffReleases.ClosedThenAdded` | share/src/socket_manager.hpp:285-315 | a run in which a client goes before its socket has been added, and the socket is deleted while it is in m_sockets |
| `HandOffSafety.InExactlyOnePlace` | share/src/socket_manager.hpp:179-200 | in every interleaving, each packet pushed is in exactly one of the logic list, the shared lists, the net thread's lists or freed, so it is freed at most once and never while the net thread has it |
| `HandOffSafety.StreamsGetWhatWasPushed` | share/src/socket_manager.hpp:270-283 | in every interleaving, an active socket's stream holds exactly the packets pushed for it and sent since it was added, in push order; any other socket's a first part of them |
| `HandOffSafety.ReleasedAfterHandled` | share/src/socket_manager.hpp:257-268 | in every interleaving, packets are handled in the order read and released in the order handled |
| `HandOffThreads.SocketManager.HandleNewSocket` | share/src/socket_manager.hpp:127-134 | every waiting socket is added active with an empty stream and queued for init in order, as steps of the run so far |
| `HandOffThreads.SocketManager.HandleUnpack` | share/src/socket_manager.hpp:136-163 | what is read are exactly the packets found in active sockets, those of each socket in the order found; exactly the active sockets left inactive are closed, each once, and the others are untouched |
| `HandOffThreads.SocketManager.HandleKickSocket` | share/src/socket_manager.hpp:202-221 | exactly the kicked sockets still present are taken out and queued for closing, each once however often it is named; unknown indices change nothing |
| `HandOffThreads.KickedOnce` | share/src/socket_manager.hpp:202-221 | the queue gains each kicked socket that is present once, in the order of first mention |
| `HandOffThreads.SocketManager.SendPacket` | share/src/socket_manager.hpp:270-283 | sending appends to the stream of an active socket and does nothing for another |
| `HandOffThreads.SocketManager.HandleWriteMsg` | share/src/socket_manager.hpp:179-200 | all packets taken over are sent in order, each active socket getting those for it, and all go to the finished list in order |
| `HandOffThreads.SocketManager.HandleReleasePacket` | share/src/socket_manager.hpp:257-268 | exactly the packets given back are released |
| `HandOffThreads.SocketManager.HandleReleaseSocket` | share/src/socket_manager.hpp:236-255 | exactly the sockets given back are deleted, in order |
| `HandOffThreads.SocketManager.Update` | share/src/socket_manager.hpp:40-54 | one update adds the waiting sockets, reads exactly what is found in active sockets, takes out the failed ones and then the kicked ones, each once and queued for closing in that order, sends what was given over to the sockets left, and leaves its lists empty, as steps of the run so far |
| `HandOffThreads.SocketManager.SwapNet2Logic` | share/src/socket_manager.hpp:86-106 | the swap hands over all four lists and leaves them empty |
| `HandOffThreads.SocketManager.SwapLogin2Net` | share/src/socket_manager.hpp:108-125 | the swap appends the four lists of the logic thread |
| `HandOffThreads.Service.DoLoop` | share/src/service.cpp:136-158 | one turn frees what was sent, makes every init, then every handle, then every close in store, and gives back packets and sockets; what is given over for sending is what the service had, and then one new record for each write that the handlers ask for in these calls, in order; and likewise the kicks |
| `LoginSafety.StepKeepsOwner` | game/src/roll_stub.cpp:60-111 | every step but unregister_role keeps the owner of a role, and a grant goes to the mailbox then on record |
| `LoginSafety.OwnershipMoves` | game/src/roll_stub.cpp:91-111 | only register_role for a role without owner and unregister_role change who owns roles; update_by_relay never does |
| `LoginSafety.RoleHasOneOwner` | game/src/roll_stub.cpp:60-76 | over any interleaving of any number of logins, from any point where the role has no owner and until unregister_role, at most one mailbox is ever told it has the role, once, and it is the one on record |
| `LoginSafety.OwnerStays` | game/src/roll_stub.cpp:91-111 | once on record the owner stays and nobody else is granted the role until unregister_role, whatever messages come in whatever order |
| `LoginSafety.StepKeepsToken` | game/src/account.cpp:94-135 | every step keeps the login of an account carried by at most one message, and by none once it has started to load its role |
| `LoginSafety.LoadsAtMostOnce` | game/src/account.cpp:94-145 | over any run, an account that logs in once starts to load its role at most once, counting direct registration and relay together |
| `LoginSafety.StepHandsOnce` | game/src/roll_stub.cpp:31-46 | every step keeps a mailbox that left the record known to at most one successor, and named by at most one message |
| `LoginSafety.HandedToOneSuccessor` | game/src/roll_stub.cpp:31-46 | over any run, an account's mailbox is given to at most one successor as relay target, and it gets at most one on_relay_ready, none before that |
| `LoginHistory.StepMovesOwner` | game/src/roll_stub.cpp:60-89 | every step gives a role to the mailbox it tells so, and takes it away by unregister_role alone |
| `LoginHistory.HolderIsOwner` | game/src/roll_stub.cpp:60-111 | over every run, the stub's map holds for a role exactly the mailboxes told that they have it since it was last unregistered, of which there is at most one |
| `LoginHistory.StepKeepsGiven` | game/src/role.cpp:44-95 | every step keeps it so that only role entities which have been told that they have their role are played, on record, or named as the one to relay from |
| `LoginHistory.PlayedIsGiven` | game/src/role.cpp:44-95 | over every run, a role entity whose status is normal or relay has been told by the stub that it has its role |
| `LoginHistory.OverStays` | game/src/account.cpp:94-135 | a login that no message carries on is over for good: the account never starts to load its role |
| `LoginHistory.MakesWayForGood` | game/src/account.cpp:111-118 | in every run, an account that has been asked to make way is destroyed, and stays so |
| `LoginHistory.NoRoleAfterMakingWay` | game/src/account.cpp:147-152 | in every run, when the role query of an account that was asked to make way is answered, nothing is sent, no role entity comes into being, and the stub stays as it is |
| `LoginEntities.RollStub.RegisterAccount` | game/src/roll_stub.cpp:31-46 | the newcomer is on record for this account alone; an account that was on record is handed to it, to nobody before, and leaves the record |
| `LoginEntities.RollStub.RegisterRole` | game/src/roll_stub.cpp:60-76 | the role is given if and only if the account is on record and nobody has been told in the run that they have the role since it was last unregistered; then the mailbox is its one holder |
| `LoginEntities.RollStub.UnregisterRole` | game/src/roll_stub.cpp:78-89 | nobody holds the role afterwards, and no other role changes hands |
| `LoginEntities.RollStub.UpdateByRelay` | game/src/roll_stub.cpp:91-111 | no role changes hands; the mailbox is kicked, and the holder if there is one, unless it is the holder by port and entity, which then is on record for the account |
| `LoginEntities.AccountEntity.OnLoadAccountCallback` | game/src/account.cpp:50-92 | the ids are those of the row, or 1 for a new account; the login goes on in exactly the message sent, or is over when none is |
| `LoginEntities.AccountEntity.OnSaveAccountCallback` | game/src/account.cpp:71-97 | the same for the answer of the insertion of an account |
| `LoginEntities.AccountEntity.OnRegisterAccount` | game/src/account.cpp:99-109 | registered directly, the account starts to load its role, for the first and last time; otherwise the account before it is asked to make way by this message and no other |
| `LoginEntities.AccountEntity.OnRelayReady` | game/src/account.cpp:111-118 | the account has not been asked to make way before and will not be again; it is destroyed, and the successor's login goes on in the answer alone |
| `LoginEntities.AccountEntity.OnWaitLogin` | game/src/account.cpp:120-125 | the login goes over, by the message sent, to an entity that may be relayed from, a role only if it was given; the account itself is destroyed and never loads a role |
| `LoginEntities.AccountEntity.OnRelayLogin` | game/src/account.cpp:127-135 | let in by relay, the account starts to load its role for the first and last time, unless it has been destroyed |
| `LoginEntities.AccountEntity.OnLoadRoleCallback` | game/src/account.cpp:147-185 | with a role found and the account not destroyed, one role entity comes into being, part of the same run, and asks for its role in one message; otherwise none does |
| `LoginEntities.AccountEntity.OnSaveRoleCallback` | game/src/account.cpp:211-246 | the same for the answer of the insertion of a role, which does not ask whether the account is destroyed |
| `LoginEntities.RoleEntity.OnRelayReady` | game/src/role.cpp:44-52 | only a role entity that was given its role is asked to make way, and the successor's login goes on in the answer alone |
| `LoginEntities.RoleEntity.OnRelayLogin` | game/src/role.cpp:54-68 | only a role entity that was given its role is taken over by a new client |
| `LoginEntities.RoleEntity.OnRegisterRole` | game/src/role.cpp:76-95 | a role entity that hears yes, or whose status is normal, has been given its role |
| `HttpParser.FeedSplit` | http_server/src/request_parser.hpp:38-49 | feeding two buffers one after the other, if the first brings no verdict, is feeding them joined |
| `HttpParser.ChunkingInvariance` | http_server/src/request_parser.hpp:38-49 | however the input is cut into buffers, verdict, request and number of bytes consumed are the same |
| `HttpParser.RequestParser.Consume` | http_server/src/request_parser.cpp:27-283 | the switch on the state equals the step function; the last header is only used when there is one |
| `HttpParser.RequestParser.Parse` | http_server/src/request_parser.hpp:38-49 | the loop equals feeding the bytes up to the first verdict |
| `HttpGrammar.Forward` | http_server/src/request_parser.cpp:27-283 | a byte the parser takes leads from a partial text of the grammar to the partial text with that byte, in the state and with the request fields that belong to it |
| `HttpGrammar.Backward` | http_server/src/request_parser.cpp:27-283 | every partial text has a last byte and a partial text before it |
| `HttpGrammar.Sound` | http_server/src/request_parser.cpp:27-283 | after any bytes without a verdict the parser has read a partial text of the grammar and built its fields |
| `HttpGrammar.Complete` | http_server/src/request_parser.cpp:27-283 | every partial text of the grammar is read without a verdict |
| `HttpGrammar.Accepts` | http_server/src/request_parser.cpp:27-283 | an input that starts with a request text is accepted at its end with its meaning |
| `HttpGrammar.AcceptedIsRequest` | http_server/src/request_parser.cpp:27-283 | what is accepted is a request text, consumed exactly, and the request object holds its meaning |
| `HttpGrammar.ParserAcceptsTheGrammar` | http_server/src/request_parser.cpp:27-283 | an input is accepted if and only if a text of the grammar (request line, headers, folded lines; sections 2.2, 4.2 and 5.1 of RFC 1945) is a prefix of it, and method, uri, version and headers are then what the text means |
| `HttpGrammar.SampleRequest` | http_server/src/request_parser.cpp:27-283 | a request with a folded header, as it stands byte for byte and as it is taken |
| `HttpGrammar.VersionFits` | http_server/src/request_parser.cpp:124-169 | reading a version number stays within 32 bits at every digit if and only if the number is below 2147483600; nine digits always do |
| `HttpReply.AcceptsAtFirstBlankLine` | http_server/src/request_parser.cpp:253-279 | an accepted request ends at the first CR LF CR LF of the input |
| `HttpReply.ToBuffers` | http_server/src/reply.cpp:102-117 | the buffers joined are the status line, each header as name, colon, space, value, line end, a blank line and the content |
| `HttpReply.PrintedHeadersParseBack` | http_server/src/reply.cpp:106-114 | headers with token names and values free of controls, as printed, are read back by the parser as exactly those headers, up to where the content begins |
| `Ring.StoreAppends` | share/src/socket_output_stream.cpp:50-70 | storing at the tail, going round the end, appends to the content as long as one byte stays free |
| `Ring.TakeRemoves` | share/src/socket_input_stream.cpp:47-61 | copying from the head, going round the end, gives the front of the content, and moving the head removes it |
| `SocketStreams.OutputStream.Write` | share/src/socket_output_stream.cpp:35-74 | the bytes go to the end of what is pending, through growth and wrap-around; bytes accepted by the socket and bytes pending stay the bytes written, and the length kept is positive exactly when bytes are pending |
| `SocketStreams.OutputStream.SendLoop` | share/src/socket_output_stream.cpp:111-124 | for any answers of send, the bytes accepted followed by the content still pending stay the same; it stops at the first call that accepts nothing, and its result is then the error if and only if that call fails, and 0 if the socket would block or takes nothing |
| `SocketStreams.OutputStream.Flush` | share/src/socket_output_stream.cpp:91-160 | what the socket accepts comes off the front and nothing else is lost, in each of the positions of head and tail; the result, told from the answers to come before the call, is the number of bytes if all are sent, 0 if the socket would block, and the error of the place if and only if the send that stops it fails; an oversize buffer is dropped and the socket given up |
| `SocketStreams.InputStream.Read` | share/src/socket_input_stream.cpp:37-65 | the next bytes, or none when there are fewer; bytes consumed and bytes held stay the bytes received |
| `SocketStreams.InputStream.Peek` | share/src/socket_input_stream.cpp:67-93 | the next bytes, or a refusal when there are fewer, and no change |
| `SocketStreams.InputStream.Skip` | share/src/socket_input_stream.cpp:146-159 | drops the next bytes, or refuses when there are fewer; the length kept stays an upper bound only |
| `SocketStreams.InputStream.PeekThenSkip` | share/src/socket_input_stream.cpp:67-159 | peek and then skip has the effect of read on content and bytes |
| `SocketStreams.InputStream.FillStream` | share/src/socket_input_stream.cpp:280-300 | what was received lies at the tail; the result is the number received, 0 when there is nothing yet, SOCKET_ERROR less the place in the code on an error, and one less when the peer has closed |
| `SocketStreams.InputStream.CheckStreamAvailable` | share/src/socket_input_stream.cpp:252-278 | grows by what is waiting and receives it at the end, or drops the content and gives the socket up; the buffer never grows beyond one and a half times the maximum |
| `SocketStreams.InputStream.Fill` | share/src/socket_input_stream.cpp:177-250 | for any answers of receive and available, what was received goes to the end of the content, in every position of head and tail, unless the oversize reset happens, which the result tells; a result that is no error differs from the number of bytes received if and only if, by the position of head and tail, the size of the buffer and the answers to come, the buffer fills up and then a receipt at its start finds nothing, or bytes come after it has grown, or none come then although some came before |
| `SocketStreams.GrownMiscount` | share/src/socket_input_stream.cpp:177-250 | a run in which a byte is received after the buffer has grown and fill returns 0 |
| `SocketStreams.BlockedMiscount` | share/src/socket_input_stream.cpp:207-221 | a run in which two bytes are received up to the end of the buffer, none at its start, and fill returns 0 |
| `MemoryPool.Allocator.NewBlock` | share/src/memory_pool.h:71-77 | the nodes of a new block form one chain, from the last to the first |
| `MemoryPool.Allocator.Allocate` | share/src/memory_pool.h:53-61 | the head of the free list, or a node of a new block when it is empty; the node was not handed out before, the free list stays acyclic and disjoint from what is handed out, and free plus handed out stays node number times blocks |
| `MemoryPool.Allocator.Deallocate` | share/src/memory_pool.h:63-67 | the node is the next to be handed out, and all that is kept |
| `MemoryPool.SmallestFit` | share/src/memory_pool.h:101-136 | the class chosen is the smallest whose nodes hold the request and its mark, none exactly above 4096 bytes |
| `MemoryPool.SizesDouble` | share/src/memory_pool.h:101-136 | the classes have 32 bytes and twice as many each, up to 4096, in blocks of 16384 bytes or of 16 nodes where that is more |
| `MemoryPool.Pool.Allocate` | share/src/memory_pool.h:96-145 | at least n bytes after the mark, from memory that was not handed out by any class, and nothing else changes hands |
| `MemoryPool.Pool.Deallocate` | share/src/memory_pool.h:147-180 | memory returns to exactly the class it came from, told by its mark, and nothing else changes hands |
| `Rpc.DecodesEncoded` | share/src/rpc_param.h:46-104 | a value that fits, encoded anywhere in a buffer, is decoded to itself and consumes exactly its bytes |
| `Rpc.EncodesDecoded` | share/src/rpc_param.h:126-176 | whatever is decoded has the consumed bytes as its encoding |
| `Rpc.DecodesTuple` | share/src/rpc_param.h:189-204 | the same for the arguments of a call one after the other |
| `Rpc.OnTheWire` | share/src/rpc_param.h:126-176 | a list goes over the wire as its length in two bytes, the low one first, and then its elements in order; a value of fixed width as it stands |
| `Rpc.CapacityGrows` | share/src/dynamic_array.h:84-95 | up to 32767 elements the capacity stays a power of two above the length |
| `Rpc.SafeUpToLongest` | share/src/dynamic_array.h:84-95 | appending n elements stays inside the memory of a list if and only if n is at most 32767: one more doubles the 16-bit capacity to 0 |
| `Rpc.GrowingList.PushBack` | share/src/dynamic_array.h:84-95 | appends, growing by doubling when full |
| `Rpc.FillParam` | share/src/rpc_param.h:126-176 | writes exactly the encoding at the position and nothing else in the buffer |
| `Rpc.ParseParam` | share/src/rpc_param.h:46-104 | reads back the value encoded at the position, through lists that grow as they are filled |
| `Rpc.FillPacket` | share/src/rpc_param.h:228-238 | writes the encodings of all arguments one after the other and nothing else |
| `Rpc.Convert` | share/src/rpc_param.h:189-204 | fills the parameters from position m - n on with the encoded values and leaves those before |
| `Rpc.CallsWithTuple` | share/src/rpc_param.h:206-222 | the unpacking recursion calls the function with the elements of the tuple in order |
| `Rpc.RemoteCall` | share/src/rpc_proxy.h:25-33 | what the sender fills in is what the receiver's function is called with, both ends stop at the same position, and other bytes stay |
| `Rpc.RemoteCallWithIndex` | share/src/rpc_proxy.h:36-45 | the same where the first parameter is the socket's index and is not sent |
| `Economy.CheckedPay` | game/src/role.cpp:319-340 | after the check, paying takes the whole price from every type and leaves the other entries |
| `EconomyLedger.ChangedKeepsWorth` | game/src/role.cpp:342-350 | moving production into the store changes nothing in what a building holds, but for the type that the store is marked with |
| `EconomyLedger.BuildLedger` | game/src/role.cpp:249-265 | building costs exactly the price |
| `EconomyLedger.UpLedger` | game/src/role.cpp:302-317 | an upgrade costs exactly the price, up to the type of the store; production up to then counts at the old rate |
| `EconomyLedger.CollectLedger` | game/src/role.cpp:198-217 | collecting moves the store into the wallet and loses exactly the amount of a type the wallet has no entry for, up to the type of the store |
| `EconomyLedger.CollectCanLose` | game/src/role.cpp:204-208 | there is a role that loses what it collects, because the new entry is never stored |
| `EconomyLedger.TimePasses` | game/src/role.cpp:342-350 | over any time, what buildings hold grows by time times the sum of their rates, which are the second numbers of their production rows |
| `EconomyLedger.StepKeepsReady` | game/src/role.cpp:229-350 | every operation keeps building indices distinct and stores marked with the produced type |
| `EconomyLedger.StepLedger` | game/src/role.cpp:198-350 | every operation, whatever the tables, changes what is owned by production less price, less what is collected without a wallet entry, and with the stores that change their type |
| `EconomyLedger.Ledger` | game/src/role.cpp:179-350 | over any run, up to a crash, from any state and with any tables: wallet, stores and running production of a type are the initial ones plus the production at the rates of the levels less the prices paid and less what was collected without a wallet entry, and with the stores that have changed their type; distinct building indices stay distinct |
| `EconomyLedger.NothingMoved` | game/src/role.cpp:342-350 | with tables in which a building type produces the same at all levels, no store that is marked rightly ever changes its type |
| `EconomyLedger.NothingLostIff` | game/src/role.cpp:198-217 | no run from a wallet loses anything, whatever the buildings are, if and only if the wallet has an entry for every type that can be collected |
| `EconomyLedger.PayStaysNonNegative` | game/src/role.cpp:240-255 | once each price has been checked, paying leaves nothing below zero if and only if no type is asked for more in all than there is |
| `EconomyLedger.TwicePaid` | game/src/role.cpp:240-255 | a price list that names a type twice passes the check and takes the wallet below zero |
| `EconomyLedger.DistinctTotals` | game/src/role.cpp:293-298 | with distinct types in a price list the check is enough |
| `EconomyLedger.NeverBelowZero` | game/src/role.cpp:179-350 | over any run, up to a crash, with distinct types in each price list and whatever is produced, no amount in the wallet and no store goes below zero |
| `EconomyTables.CrashesWithoutLevel` | game/src/role.cpp:179-196 | some collection reads a missing row if and only if the level of some building is not in the table |
| `EconomyTables.StepKeepsLevels` | game/src/role.cpp:249-317 | an operation keeps the level of every building in the table if and only if level 1 is there for a building that is built, and the level after its own for one that is upgraded |
| `EconomyTables.NeverCrashesIff` | game/src/role.cpp:179-317 | no run from buildings at known levels reads a missing row if and only if level 1 is in the table when anything can be built, and every level with a price is followed by the next |
| `EconomyTables.UpgradeLeaves` | game/src/role.cpp:278-317 | from a level that none follows, the check for an upgrade succeeds, the building leaves the table, and collecting from it reads a missing row |
| `EconomyTables.TablesAreOpen` | game/src/tbl_building_upgrade.h:32-66 | a table with a building type in every row, as the loader makes them with a price for every type, has such a level: its last one |
| `EconomyTables.NewRoleCrashes` | game/src/account.cpp:193-198 | the buildings that a new role starts with have level 0, and collecting from them reads a missing row if and only if the table has no level 0 |
| `EconomyRole.Role.IncomeResource` | game/src/role.cpp:169-217 | a successful collection, told by the tables: the wallet entry of the type that stands first in the building's production row grows by the store and by time times the number that stands second, all else stays, and the store is empty and marked; without success nothing changes |
| `EconomyRole.Role.BuildBuilding` | game/src/role.cpp:219-265 | on success each type loses what the price asks of it in all, and there is one more building, of level 1, that starts now with nothing in store; without success nothing changes |
| `EconomyRole.Role.UpBuildingLevel` | game/src/role.cpp:267-317 | on success each type loses what the price asks of it in all, and the building is one level higher with its production until now in store; without success nothing changes |
| `EconomyRole.Role.PayPrices` | game/src/role.cpp:253-255 | the loop pays every price of the list |
| `EconomyRole.Role.CheckPrices` | game/src/role.cpp:241-245 | the loop checks every price of the list by itself |
| `EconomyOrders.IncomeAnswers` | game/src/role.cpp:179-196 | which answer a collection gets: no such building, no interval for its type, success from the interval after the last collection on, a crash without the row |
| `EconomyOrders.BuildAnswers` | game/src/role.cpp:229-247 | which answer an order for a building gets: no such type, the place is taken, locked when a price is not within the wallet, or success |
| `EconomyOrders.UpAnswers` | game/src/role.cpp:278-300 | which answer an order for an upgrade gets |
| `EconomyOrders.CheckAllIff` | game/src/role.cpp:319-330 | a price list passes if and only if the wallet has an entry for each of its types that holds the price at least |
| `EconomyOrders.CollectionsApart` | game/src/role.cpp:179-217 | over any run, two collections from one building are at least the interval apart that its level has at the second one |
| `EconomyOrders.CollectsOneHundred` | game/src/role.cpp:198-217 | a rate of 5 for 20 units of time brings 100 of the type produced |
| `ChunkedBody.DecodeBody` | http_client/src/http_proxy_base.cpp:152-172 | the loop ends on arbitrary bytes and appends what the recursive decoder gives |
| `ChunkedBody.DecodesFront` | http_client/src/http_proxy_base.cpp:157-170 | from any position in the front of a text, shorter than 65536 characters, chunks of any size standing one after the other are decoded to their data if and only if the end of the data is still in it |
| `ChunkedBody.DecodesPart` | http_client/src/http_proxy_base.cpp:163-169 | of a chunk that is cut off in its data, the part that is there is decoded |
| `ChunkedBody.StrtolReads` | http_client/src/http_proxy_base.cpp:163-164 | strtol reads white space, a sign, 0x and digits up to the first other character, within the range of long |
| `ChunkedBody.HexDigits` | http_client/src/http_proxy_base.cpp:163-164 | digits mean their numbers, in lower and upper case |
| `ResponseBody.DynamicString.Append` | share/src/dynamic_array.h:204-224 | appends the bytes asked for, the length of the C string when 0 are asked for, unless more than there are would be read or the new capacity does not fit in 16 bits |
| `ResponseBody.HandleReadBody` | http_client/src/http_proxy_base.cpp:139-177 | the handler gives what its specification says, and overruns memory where it says so |
| `ResponseBody.CopiedBody` | http_client/src/http_proxy_base.cpp:139-151 | of a body that is not empty the front is copied, as long as its size modulo 65536, or when that is 0 as the C string of headers and body modulo 65536; a length of 65535 overruns the new memory |
| `ResponseBody.NoBlankLine` | http_client/src/http_proxy_base.cpp:139-151 | without a blank line the first three bytes are taken for the headers, and a text shorter than that is overrun |
| `ResponseBody.PlainComesBack` | http_client/src/http_proxy_base.cpp:139-176 | a body without chunks comes back if and only if it has between 1 and 65534 bytes |
| `ResponseBody.ChunkedComesBack` | http_client/src/http_proxy_base.cpp:139-172 | the payload of a chunked body (section 4.1 of RFC 7230: sizes in either case, leading zeros, extensions, any trailer, chunks of any size) comes back if and only if no NUL comes before the end of its data, that end is in the part that is copied, and that part is not 65535 bytes long |
| `ResponseBody.DecodeInvertsEncode` | http_client/src/http_proxy_base.cpp:139-172 | a body without NUL of at most 65534 bytes is decoded to its payload, however it is split into chunks |
| `ResponseBody.LargePayloadLost` | http_client/src/http_proxy_base.cpp:139-172 | no payload of 65535 bytes or more comes back |
| `ResponseBody.LargeChunkLost` | http_client/src/http_proxy_base.cpp:139-172 | one chunk of 65536 bytes is lost |
| `UrlCodec.UrlEncode` | http_client/src/http_proxy_base.cpp:196-215 | the loop encodes character by character, and stays in its table of digits if and only if every byte is below 128 |
| `UrlCodec.HighInTable` | http_client/src/http_proxy_base.cpp:207-211 | the index of the first digit, a signed shift converted to 8 bits, is in the table if and only if the byte is below 128 |
| `UrlCodec.UrlDecode` | http_client/src/http_proxy_base.cpp:217-234 | the loop decodes plus signs and escapes, and stays in its input and the NUL at its end if and only if a byte follows every percent sign that is not part of an escape |
| `UrlCodec.HighOutOfTable` | http_client/src/http_proxy_base.cpp:207-211 | for the byte 0xC3 the index is 252, outside the table |
| `UrlCodec.DecodeInvertsEncode` | http_client/src/http_proxy_base.cpp:196-247 | every ASCII string is decoded from its encoding |
| `UrlCodec.EncodesOne` | http_client/src/http_proxy_base.cpp:199-213 | unreserved characters (section 2.3 of RFC 3986) stay, a space becomes a plus sign, any other byte its number in two digits |
| `UrlCodec.EncodedBytes` | http_client/src/http_proxy_base.cpp:199-213 | an encoded string holds unreserved characters, plus signs and percent signs alone |
| `UrlCodec.EscapeMeans` | http_client/src/http_proxy_base.cpp:223-247 | an escape means the number that its two digits make, in lower or upper case |

## Left out

- Repeating timers, which `proc_node` files again while it walks a list: the model has one-shot timers.
- `del_timer` finds nothing, because the map it searches is never filled; timers of delay 0 that a callback adds, which go into the slot being fired; the timers that callbacks add are part of the wheel on values and not of the linked structure; wrap-around of the 32-bit clock.
- A timer node's delay and slot words are written once, when the node is made; the callback and its parameter are not part of the model.
- The bodies of `tcp_manager` and `ws_manager`, libevent callbacks, and `start_connect`, which adds a socket outside the net loop. A socket can be closed by a callback at any time in the model, whether it is in `m_sockets` or not.
- HandOffSafety.ReleasedOnceAndLast: is, like HandOffSafety.CallsFollowTheLife, about sockets that the run closes only while they are in `m_sockets`; HandOffReleases.SafeIffProper says that the others are not safe.
- HandOffThreads.SocketManager.HandleUnpack: takes what unpacking finds as an argument, because unpacking is arbitrary; the steps of the other thread come between critical sections in the transition system, not inside the methods.
- Reuse of the memory of a freed packet record: records are numbered as they are pushed.
- LoginEntities.AccountEntity.DisconnectClient: a lost client, of an account or a role, is a step of the run like the others; no result over runs is about it. The same holds of `unregister_account`.
- Login: database contents, SQL, client notifications, proxies and timeouts; a second `login` of one account entity. `role::logout` has its body commented out, so `unregister_role` comes only from outside.
- The fields of `http_server` beyond the request and the header block: routing, stock replies, file handling.
- SocketStreams.OutputStream.Flush: the three loops of the source, which differ only in their error code, are one method; negative answers of `send` other than the two error codes count as an error.
- SocketStreams.InputStream.Fill: the three cases of the source are three methods; the integers peeked from the buffer (`peak_int` and its kin) are left out.
- SocketStreams.InputStream.PeekThenSkip: is not in the source, it states the law of two operations.
- MemoryPool.Pool.Allocate: of the data of a node only the first byte is modelled, the mark; the rest belongs to the user.
- MemoryPool.Allocator.Deallocate: is called with memory that is handed out, as the source relies on; the destructor's walk over the blocks is left out.
- Rpc.ParseParam: reads no further than an encoded value; the source has no bounds check to model. Lists of lists are covered by the format, but copying a `dynamic_array` of objects that own memory is not modelled, nor is the terminator of `dynamic_string`.
- Rpc.RemoteCall: puts the two ends together, which the source does over a socket.
- The packing of key ids, `rpc_wrapper`, mailboxes and etcd registration.
- Economy: loading the tables, notifications, saving. A new building can be collected from at once, because its `income_time` starts at 0; the model has this too.
- ResponseBody.HandleReadBody: the reading of the connection up to its end, the status line, and the callback; what happens after memory is overrun. ResponseBody.ChunkedComesBack is about headers of less than 65532 bytes without NUL.
- UrlCodec.UrlEncode: what is encoded after the table of digits has been left; the same for UrlCodec.UrlDecode and the end of its input.
