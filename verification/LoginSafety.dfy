/** The login protocol as a transition system: one stub, any number of account and
    role entities, and a bag of messages delivered in any order, each at most once
    and possibly never. What holds over every run. */
module LoginSafety {
  import opened LoginProtocol

  datatype Entity = AccountEntity(a: Account, loggedIn: bool) | RoleEntity(r: Role)

  datatype World = World(
    stub: Stub,
    entities: map<Mailbox, Entity>,
    bag: multiset<Message>,
    // what has happened so far
    loads: multiset<Mailbox>,                // accounts that started loading their role
    handed: multiset<Mailbox>,               // mailboxes given to a successor as its relay target
    readies: multiset<Mailbox>,              // accounts that received on_relay_ready
    grants: seq<(RoleId, Mailbox)>)          // positive on_register_role replies

  const START := World(Stub(map[], map[]), map[], multiset{}, multiset{}, multiset{}, multiset{}, [])

  /** Choices the outside makes when a message is delivered: what a database query
      finds, and the mailbox of a role entity created by it. */
  datatype Choice = Choice(row: AccountRow, ok: bool, roleRow: RoleRow, child: Mailbox)

  datatype Event =
    | SpawnAccount(self: Mailbox, account: AccountId, role: RoleId)  // fields not yet meaningful
    | Login(self: Mailbox)
    | Deliver(m: Message, choice: Choice)
    | Lose(m: Message)
    | ClientDisconnects(self: Mailbox)
    | ClientCreatesRole(self: Mailbox)
    | OutsideUnregistersRole(account: AccountId, role: RoleId)       // no handler sends it

  /** What handling a message does to the stub and the entities, and what it sends. */
  datatype Effect = Effect(stub: Stub, entities: map<Mailbox, Entity>, sent: seq<Message>)

  function IsAccount(w: World, x: Mailbox): bool {
    x in w.entities && w.entities[x].AccountEntity?
  }

  function IsRole(w: World, x: Mailbox): bool {
    x in w.entities && w.entities[x].RoleEntity?
  }

  function SetAccount(w: World, x: Mailbox, a: Account): map<Mailbox, Entity>
    requires IsAccount(w, x)
  {
    w.entities[x := w.entities[x].(a := a)]
  }

  function SetRole(w: World, x: Mailbox, r: Role): map<Mailbox, Entity>
    requires IsRole(w, x)
  {
    w.entities[x := RoleEntity(r)]
  }

  function Sends(w: World, sent: seq<Message>): Effect {
    Effect(w.stub, w.entities, sent)
  }

  /** The entities after `on_login_success` or its failure: a role entity at `child` if one registers. */
  function WithChild(entities: map<Mailbox, Entity>, child: Mailbox, sent: seq<Message>): map<Mailbox, Entity> {
    if sent != [] && sent[0].RegisterRole? then
      entities[child := RoleEntity(Role(sent[0].account, sent[0].role, Invalid))]
    else entities
  }

  function HandleByStub(w: World, m: Message): Effect {
    match m
    case RegisterAccount(account, mailbox) =>
      var (stub, sent) := StubRegisterAccount(w.stub, account, mailbox); Effect(stub, w.entities, sent)
    case UnregisterAccount(account) => Effect(StubUnregisterAccount(w.stub, account), w.entities, [])
    case RegisterRole(account, role, mailbox) =>
      var (stub, sent) := StubRegisterRole(w.stub, account, role, mailbox); Effect(stub, w.entities, sent)
    case UnregisterRole(account, role) => Effect(StubUnregisterRole(w.stub, account, role), w.entities, [])
    case UpdateByRelay(account, role, mailbox) =>
      var (stub, sent) := StubUpdateByRelay(w.stub, account, role, mailbox); Effect(stub, w.entities, sent)
    case _ => Sends(w, [])
  }

  predicate ForStub(m: Message) {
    m.RegisterAccount? || m.UnregisterAccount? || m.RegisterRole? || m.UnregisterRole? || m.UpdateByRelay?
  }

  function HandleByAccount(w: World, m: Message, choice: Choice): Effect
    requires !ForStub(m) && IsAccount(w, m.to)
  {
    var x := m.to;
    var a := w.entities[x].a;
    match m
    case LoadAccount(_) =>
      var (a', sent) := AccountLoaded(a, x, choice.row); Effect(w.stub, SetAccount(w, x, a'), sent)
    case SaveAccount(_) => Sends(w, AccountSaved(a, x, choice.ok))
    case OnRegisterAccount(_, status, mailbox) => Sends(w, AccountRegistered(x, status, mailbox))
    case OnRelayReady(_, mailbox) =>
      var (a', sent) := AccountRelayReady(a, mailbox); Effect(w.stub, SetAccount(w, x, a'), sent)
    case OnWaitLogin(_, mailbox) =>
      var (a', sent) := AccountWaitLogin(a, mailbox); Effect(w.stub, SetAccount(w, x, a'), sent)
    case OnRelayLogin(_) => Sends(w, AccountRelayLogin(a, x))
    case LoadRole(_) =>
      var (a', sent) := AccountRoleLoaded(a, choice.roleRow, choice.child);
      Effect(w.stub, WithChild(SetAccount(w, x, a'), choice.child, sent), sent)
    case SaveRole(_) =>
      var (a', sent) := AccountRoleSaved(a, choice.ok, choice.child);
      Effect(w.stub, WithChild(SetAccount(w, x, a'), choice.child, sent), sent)
    case _ => Sends(w, [])
  }

  function HandleByRole(w: World, m: Message): Effect
    requires !ForStub(m) && IsRole(w, m.to)
  {
    var x := m.to;
    var r := w.entities[x].r;
    match m
    case OnRelayReady(_, mailbox) =>
      var (r', sent) := RoleRelayReady(r, x, mailbox); Effect(w.stub, SetRole(w, x, r'), sent)
    case OnRelayLoginWithProxy(_) =>
      var (r', sent) := RoleRelayLogin(r, x); Effect(w.stub, SetRole(w, x, r'), sent)
    case OnRegisterRole(_, status) => Effect(w.stub, SetRole(w, x, RoleRegistered(r, status)), [])
    case _ => Sends(w, [])
  }

  function Handle(w: World, m: Message, choice: Choice): Effect {
    if ForStub(m) then HandleByStub(w, m)
    else if IsAccount(w, m.to) then HandleByAccount(w, m, choice)
    else if IsRole(w, m.to) then HandleByRole(w, m)
    else Sends(w, [])
  }

  function DeliverStep(w: World, m: Message, choice: Choice): World {
    var e := Handle(w, m, choice);
    World(e.stub, e.entities, w.bag - multiset{m} + multiset(e.sent),
      w.loads + (if e.sent != [] && e.sent[0].LoadRole? then multiset{e.sent[0].to} else multiset{}),
      w.handed + (if e.sent != [] && e.sent[0].OnRegisterAccount? && !e.sent[0].status
                  then multiset{e.sent[0].mailbox} else multiset{}),
      w.readies + (if m.OnRelayReady? && IsAccount(w, m.to) then multiset{m.to} else multiset{}),
      w.grants + (if m.RegisterRole? && e.sent[0] == OnRegisterRole(m.mailbox, true)
                  then [(m.role, m.mailbox)] else []))
  }

  predicate Enabled(w: World, event: Event) {
    match event
    case SpawnAccount(self, _, _) => self !in w.entities
    case Login(self) => IsAccount(w, self) && !w.entities[self].loggedIn
    case Deliver(m, choice) => m in w.bag && choice.child !in w.entities
    case Lose(m) => m in w.bag
    case ClientDisconnects(self) => self in w.entities
    case ClientCreatesRole(self) => IsAccount(w, self)
    case OutsideUnregistersRole(_, _) => true
  }

  function Step(w: World, event: Event): World
    requires Enabled(w, event)
  {
    match event
    case SpawnAccount(self, account, role) =>
      w.(entities := w.entities[self := AccountEntity(Account(account, role, false), false)])
    case Login(self) =>
      w.(entities := w.entities[self := w.entities[self].(loggedIn := true)],
         bag := w.bag + multiset{LoadAccount(self)})
    case Deliver(m, choice) => DeliverStep(w, m, choice)
    case Lose(m) => w.(bag := w.bag - multiset{m})
    case ClientDisconnects(self) =>
      if IsAccount(w, self) then
        var (a', sent) := AccountDisconnect(w.entities[self].a);
        w.(entities := SetAccount(w, self, a'), bag := w.bag + multiset(sent))
      else w.(entities := SetRole(w, self, RoleDisconnect(w.entities[self].r)))
    case ClientCreatesRole(self) => w.(bag := w.bag + multiset{SaveRole(self)})
    case OutsideUnregistersRole(account, role) => w.(bag := w.bag + multiset{UnregisterRole(account, role)})
  }

  /** The worlds a sequence of events goes through is a run when each event is enabled in turn. */
  ghost predicate IsRun(w: World, events: seq<Event>)
    decreases |events|
  {
    events == [] || (Enabled(w, events[0]) && IsRun(Step(w, events[0]), events[1..]))
  }

  function After(w: World, events: seq<Event>): World
    requires IsRun(w, events)
    decreases |events|
  {
    if events == [] then w else After(Step(w, events[0]), events[1..])
  }

  // ----- one owner per role -----

  /** Since a point in the history of grants, the role was granted to nobody, or once, to the
      mailbox that is in the stub's map. */
  ghost predicate OneOwner(w: World, role: RoleId, since: nat) {
    && since <= |w.grants|
    && (forall i :: since <= i < |w.grants| && w.grants[i].0 == role ==>
          role in w.stub.roles && w.stub.roles[role] == w.grants[i].1)
    && (forall i, j :: since <= i < j < |w.grants| && w.grants[i].0 == role ==> w.grants[j].0 != role)
  }

  predicate Unregisters(event: Event, role: RoleId) {
    event.Deliver? && event.m.UnregisterRole? && event.m.role == role
  }

  lemma StubUntouched(w: World, m: Message, choice: Choice)
    requires !ForStub(m)
    ensures Handle(w, m, choice).stub == w.stub
  {
  }

  lemma StepKeepsOwner(w: World, event: Event, role: RoleId, since: nat)
    requires Enabled(w, event) && !Unregisters(event, role) && OneOwner(w, role, since)
    ensures OneOwner(Step(w, event), role, since)
    ensures role in w.stub.roles ==> var w' := Step(w, event);
      role in w'.stub.roles && w'.stub.roles[role] == w.stub.roles[role]
  {
    if event.Deliver? {
      if ForStub(event.m) {
        StubKeepsOwner(w, event.m, event.choice, role, since);
      } else {
        StubUntouched(w, event.m, event.choice);
        hide Handle;
      }
    }
  }

  lemma StubKeepsOwner(w: World, m: Message, choice: Choice, role: RoleId, since: nat)
    requires ForStub(m) && !(m.UnregisterRole? && m.role == role) && OneOwner(w, role, since)
    ensures OneOwner(DeliverStep(w, m, choice), role, since)
    ensures role in w.stub.roles ==> var w' := DeliverStep(w, m, choice);
      role in w'.stub.roles && w'.stub.roles[role] == w.stub.roles[role]
  {
    hide HandleByAccount, HandleByRole;
  }

  lemma StubMoves(w: World, m: Message)
    requires ForStub(m) && HandleByStub(w, m).stub.roles != w.stub.roles
    ensures m.RegisterRole? || m.UnregisterRole?
    ensures m.RegisterRole? ==>
      m.role !in w.stub.roles && HandleByStub(w, m).stub.roles == w.stub.roles[m.role := m.mailbox]
  {
  }

  /** Only `register_role` gives a role to a mailbox, and only `unregister_role` takes
      it away; `update_by_relay` in particular never moves it. */
  lemma OwnershipMoves(w: World, event: Event)
    requires Enabled(w, event) && Step(w, event).stub.roles != w.stub.roles
    ensures event.Deliver? && (event.m.RegisterRole? || event.m.UnregisterRole?)
    ensures event.m.RegisterRole? ==>
      event.m.role !in w.stub.roles && Step(w, event).stub.roles == w.stub.roles[event.m.role := event.m.mailbox]
  {
    hide HandleByStub, HandleByAccount, HandleByRole;
    if event.Deliver? {
      if ForStub(event.m) {
        StubMoves(w, event.m);
      } else {
        StubUntouched(w, event.m, event.choice);
      }
    }
  }

  lemma {:induction false} OwnerOverRun(w: World, events: seq<Event>, role: RoleId, since: nat)
    requires IsRun(w, events) && OneOwner(w, role, since)
    requires forall i :: 0 <= i < |events| ==> !Unregisters(events[i], role)
    ensures OneOwner(After(w, events), role, since)
    ensures role in w.stub.roles ==> role in After(w, events).stub.roles
                                     && After(w, events).stub.roles[role] == w.stub.roles[role]
    decreases |events|
  {
    if events != [] {
      StepKeepsOwner(w, events[0], role, since);
      OwnerOverRun(Step(w, events[0]), events[1..], role, since);
    }
  }

  /** From the start, or from any point where the role is on record for nobody, over any
      run in which no `unregister_role` for it is handled: all its grants go to one
      mailbox, which is the one on record, and there is at most one of them. */
  lemma RoleHasOneOwner(w: World, events: seq<Event>, role: RoleId, i: nat)
    requires IsRun(w, events) && role !in w.stub.roles
    requires forall k :: 0 <= k < |events| ==> !Unregisters(events[k], role)
    requires |w.grants| <= i < |After(w, events).grants| && After(w, events).grants[i].0 == role
    ensures var w' := After(w, events);
      && role in w'.stub.roles && w'.stub.roles[role] == w'.grants[i].1
      && forall j :: |w.grants| <= j < |w'.grants| && w'.grants[j].0 == role ==> j == i
  {
    OwnerOverRun(w, events, role, |w.grants|);
  }

  ghost predicate NoGrantSince(w: World, role: RoleId, since: nat) {
    since <= |w.grants| && forall i :: since <= i < |w.grants| ==> w.grants[i].0 != role
  }

  /** Once on record, the owner of a role stays, and the role is granted to nobody else,
      until `unregister_role`. */
  lemma {:induction false} OwnerStays(w: World, events: seq<Event>, role: RoleId, since: nat)
    requires IsRun(w, events) && role in w.stub.roles && NoGrantSince(w, role, since)
    requires forall k :: 0 <= k < |events| ==> !Unregisters(events[k], role)
    ensures var w' := After(w, events);
      role in w'.stub.roles && w'.stub.roles[role] == w.stub.roles[role] && NoGrantSince(w', role, since)
    decreases |events|
  {
    if events != [] {
      OwnerStaysInStep(w, events[0], role, since);
      OwnerStays(Step(w, events[0]), events[1..], role, since);
    }
  }

  lemma OwnerStaysInStep(w: World, event: Event, role: RoleId, since: nat)
    requires Enabled(w, event) && role in w.stub.roles && NoGrantSince(w, role, since) && !Unregisters(event, role)
    ensures var w' := Step(w, event);
      role in w'.stub.roles && w'.stub.roles[role] == w.stub.roles[role] && NoGrantSince(w', role, since)
  {
    StepKeepsOwner(w, event, role, |w.grants|);
  }

  // ----- one token per login -----

  /** The account whose login a message carries forward. */
  function TokenOf(m: Message): set<Mailbox> {
    match m
    case LoadAccount(x) => {x}
    case SaveAccount(x) => {x}
    case RegisterAccount(_, x) => {x}
    case OnRegisterAccount(x, _, _) => {x}
    case OnRelayReady(_, x) => {x}
    case OnRelayLogin(x) => {x}
    case OnWaitLogin(x, _) => {x}
    case _ => {}
  }

  ghost predicate Carries(bag: multiset<Message>, m: Message, x: Mailbox) {
    m in bag && x in TokenOf(m)
  }

  predicate LoggedIn(w: World, x: Mailbox) {
    IsAccount(w, x) && w.entities[x].loggedIn
  }

  /** The login of an account is carried by at most one message, and by none once it
      has started to load its role. */
  ghost predicate OneToken(w: World, x: Mailbox) {
    && (forall m, n :: Carries(w.bag, m, x) && Carries(w.bag, n, x) ==> m == n)
    && (forall m :: Carries(w.bag, m, x) ==> w.bag[m] == 1 && LoggedIn(w, x) && w.loads[x] == 0)
    && w.loads[x] <= 1
    && (w.loads[x] > 0 ==> LoggedIn(w, x))
  }

  /** What the messages sent on delivery of `m` have to do with the login of `x`. */
  lemma SentTokens(w: World, m: Message, choice: Choice, x: Mailbox)
    ensures var sent := Handle(w, m, choice).sent;
      && (forall n :: n in sent && x in TokenOf(n) ==> x in TokenOf(m) && sent == [n])
      && (sent != [] && sent[0].LoadRole? && sent[0].to == x ==> x in TokenOf(m) && sent == [LoadRole(x)])
      && |sent| <= 2 && (forall n :: n in sent && n.LoadRole? ==> sent == [n])
  {
  }

  lemma EntitiesGrow(w: World, m: Message, choice: Choice, x: Mailbox)
    requires choice.child !in w.entities && IsAccount(w, x)
    ensures var e := Handle(w, m, choice).entities;
            x in e && e[x].AccountEntity? && e[x].loggedIn == w.entities[x].loggedIn
  {
  }

  /** A step that adds no message about the login of `x` and forgets nothing about it. */
  lemma NoNewToken(w: World, w': World, x: Mailbox)
    requires OneToken(w, x) && w'.loads[x] == w.loads[x] && (LoggedIn(w, x) ==> LoggedIn(w', x))
    requires forall m :: x in TokenOf(m) ==> w'.bag[m] <= w.bag[m]
    ensures OneToken(w', x)
  {
    forall m | Carries(w'.bag, m, x)
      ensures Carries(w.bag, m, x) && w'.bag[m] == 1
    {
      assert w'.bag[m] <= w.bag[m];
    }
  }

  /** The token of `x` moves from one message to another, or is used up by a load. */
  lemma TokenMoves(w: World, w': World, x: Mailbox, m: Message, sent: seq<Message>)
    requires OneToken(w, x) && Carries(w.bag, m, x)
    requires w'.bag == w.bag - multiset{m} + multiset(sent)
    requires LoggedIn(w', x)
    requires |sent| <= 1
    requires sent == [] || (x in TokenOf(sent[0]) && w'.loads[x] == w.loads[x]) || sent == [LoadRole(x)]
    requires w'.loads[x] <= w.loads[x] + 1 && (sent == [] ==> w'.loads[x] == w.loads[x])
    ensures OneToken(w', x)
  {
    forall n | Carries(w'.bag, n, x)
      ensures sent == [n] && w'.bag[n] == 1
    {
      if n != m {
        assert !Carries(w.bag, n, x);
      }
      assert w.bag[m] == 1;
    }
  }

  lemma DeliverKeepsToken(w: World, m: Message, choice: Choice, x: Mailbox)
    requires Enabled(w, Deliver(m, choice)) && OneToken(w, x)
    ensures OneToken(DeliverStep(w, m, choice), x)
  {
    hide Handle, TokenOf, OneToken;
    SentTokens(w, m, choice, x);
    if IsAccount(w, x) {
      EntitiesGrow(w, m, choice, x);
    }
    var sent := Handle(w, m, choice).sent;
    var w' := DeliverStep(w, m, choice);
    if x in TokenOf(m) {
      TokenIsLive(w, m, x);
      assert Carries(w.bag, m, x);
      if |sent| <= 1 && (sent == [] || x in TokenOf(sent[0]) || sent == [LoadRole(x)]) {
        TokenMoves(w, w', x, m, sent);
      } else {
        OtherLoads(w, m, choice, x);
        NoNewToken(w, w', x);
      }
    } else {
      NoNewToken(w, w', x);
    }
  }

  lemma TokenIsLive(w: World, m: Message, x: Mailbox)
    requires OneToken(w, x) && m in w.bag && x in TokenOf(m)
    ensures LoggedIn(w, x) && w.loads[x] == 0 && w.bag[m] == 1
  {
    assert Carries(w.bag, m, x);
  }

  lemma OtherLoads(w: World, m: Message, choice: Choice, x: Mailbox)
    requires x in TokenOf(m)
    ensures var sent := Handle(w, m, choice).sent;
            (forall n :: n in sent ==> x !in TokenOf(n)) && sent != [LoadRole(x)] ==>
              DeliverStep(w, m, choice).loads[x] == w.loads[x]
  {
    SentTokens(w, m, choice, x);
  }

  lemma StepKeepsToken(w: World, event: Event, x: Mailbox)
    requires Enabled(w, event) && OneToken(w, x)
    ensures OneToken(Step(w, event), x)
  {
    hide OneToken, Carries, DeliverStep;
    match event {
      case Deliver(m, choice) => DeliverKeepsToken(w, m, choice, x);
      case Login(self) =>
        if self == x {
          LoginBringsToken(w, x);
        } else {
          NoNewToken(w, Step(w, event), x);
        }
      case ClientDisconnects(self) =>
        DisconnectBringsNoToken(w, self, x);
        NoNewToken(w, Step(w, event), x);
      case _ =>
        NoNewToken(w, Step(w, event), x);
    }
  }

  lemma DisconnectBringsNoToken(w: World, self: Mailbox, x: Mailbox)
    requires Enabled(w, ClientDisconnects(self))
    ensures var w' := Step(w, ClientDisconnects(self));
      && w'.loads == w.loads && (LoggedIn(w, x) ==> LoggedIn(w', x))
      && forall m :: x in TokenOf(m) ==> w'.bag[m] <= w.bag[m]
  {
  }

  lemma LoginBringsToken(w: World, x: Mailbox)
    requires Enabled(w, Login(x)) && OneToken(w, x)
    ensures OneToken(Step(w, Login(x)), x)
  {
    var w' := Step(w, Login(x));
    forall m | Carries(w'.bag, m, x)
      ensures m == LoadAccount(x) && w'.bag[m] == 1
    {
      assert !Carries(w.bag, m, x);
    }
    assert !Carries(w.bag, LoadAccount(x), x);
  }

  lemma {:induction false} TokenOverRun(w: World, events: seq<Event>, x: Mailbox)
    requires IsRun(w, events) && OneToken(w, x)
    ensures OneToken(After(w, events), x)
    decreases |events|
  {
    if events != [] {
      StepKeepsToken(w, events[0], x);
      TokenOverRun(Step(w, events[0]), events[1..], x);
    }
  }

  /** Over any run, an account that logs in once starts loading its role at most once,
      whether it registered directly or was let in by relay. */
  lemma LoadsAtMostOnce(events: seq<Event>, x: Mailbox)
    requires IsRun(START, events)
    ensures After(START, events).loads[x] <= 1
  {
    TokenOverRun(START, events, x);
  }

  // ----- at most one successor -----

  /** The mailbox a message names as the one to relay from. */
  function RelayFrom(m: Message): set<Mailbox> {
    match m
    case OnRegisterAccount(_, status, y) => if status then {} else {y}
    case OnRelayReady(y, _) => {y}
    case _ => {}
  }

  /** The messages that come before an account is on record. */
  predicate Early(m: Message) {
    m.LoadAccount? || m.SaveAccount? || m.RegisterAccount?
  }

  ghost predicate Relays(bag: multiset<Message>, m: Message, x: Mailbox) {
    m in bag && x in RelayFrom(m)
  }

  ghost predicate OnRecord(w: World, account: AccountId, x: Mailbox) {
    account in w.stub.accounts && w.stub.accounts[account] == x
  }

  /** Role mailboxes are named where the stub expects role mailboxes. */
  ghost predicate RolesAreRoles(w: World) {
    && (forall m :: m in w.bag && m.RegisterRole? ==> IsRole(w, m.mailbox))
    && (forall m :: m in w.bag && m.UpdateByRelay? ==> IsRole(w, m.mailbox))
    && (forall r :: r in w.stub.roles ==> IsRole(w, w.stub.roles[r]))
  }

  /** An account that no successor can know of yet. */
  ghost predicate Fresh(w: World, x: Mailbox) {
    w.handed[x] == 0 && forall a :: !OnRecord(w, a, x)
  }

  /** An account goes on record once, is handed to at most one successor when it
      leaves the record, and is asked to make way at most once. */
  ghost predicate HandedOnce(w: World, x: Mailbox) {
    IsRole(w, x) || (
      && (forall a, b :: OnRecord(w, a, x) && OnRecord(w, b, x) ==> a == b)
      && (forall a :: OnRecord(w, a, x) ==> w.handed[x] == 0 && LoggedIn(w, x))
      && (forall m :: Carries(w.bag, m, x) && Early(m) ==> Fresh(w, x))
      && (forall m, n :: Relays(w.bag, m, x) && Relays(w.bag, n, x) ==> m == n)
      && (forall m :: Relays(w.bag, m, x) ==> w.bag[m] == 1 && w.handed[x] == 1 && w.readies[x] == 0)
      && w.readies[x] <= w.handed[x] <= 1
      && (!LoggedIn(w, x) ==> w.handed[x] == 0))
  }

  lemma KindsStay(w: World, event: Event, x: Mailbox)
    requires Enabled(w, event)
    ensures IsRole(w, x) ==> IsRole(Step(w, event), x)
    ensures IsAccount(w, x) ==> IsAccount(Step(w, event), x)
    ensures LoggedIn(w, x) ==> LoggedIn(Step(w, event), x)
  {
    if event.Deliver? {
      DeliverKeepsKinds(w, event.m, event.choice, x);
    }
  }

  lemma DeliverKeepsKinds(w: World, m: Message, choice: Choice, x: Mailbox)
    requires Enabled(w, Deliver(m, choice))
    ensures var e := Handle(w, m, choice).entities;
      && (IsRole(w, x) ==> x in e && e[x].RoleEntity?)
      && (IsAccount(w, x) ==> x in e && e[x].AccountEntity? && e[x].loggedIn == w.entities[x].loggedIn)
  {
  }

  /** The messages a step other than a delivery may bring. */
  predicate Brings(event: Event, m: Message) {
    match event
    case Login(x) => m == LoadAccount(x)
    case ClientDisconnects(_) => m.UnregisterAccount?
    case ClientCreatesRole(x) => m == SaveRole(x)
    case OutsideUnregistersRole(_, _) => m.UnregisterRole?
    case _ => false
  }

  lemma QuietStep(w: World, event: Event)
    requires Enabled(w, event) && !event.Deliver?
    ensures var w' := Step(w, event);
      && w'.stub == w.stub && w'.loads == w.loads && w'.handed == w.handed && w'.readies == w.readies
      && (forall m :: w'.bag[m] > w.bag[m] ==> Brings(event, m))
  {
    var w' := Step(w, event);
    match event {
      case ClientDisconnects(self) =>
        if IsAccount(w, self) {
          var sent := AccountDisconnect(w.entities[self].a).1;
          assert w'.bag == w.bag + multiset(sent);
          assert forall m: Message :: m in multiset(sent) ==> m.UnregisterAccount?;
        }
      case _ =>
    }
  }

  lemma StepKeepsRoles(w: World, event: Event)
    requires Enabled(w, event) && RolesAreRoles(w)
    ensures RolesAreRoles(Step(w, event))
  {
    forall x
      ensures IsRole(w, x) ==> IsRole(Step(w, event), x)
    {
      KindsStay(w, event, x);
    }
    hide IsRole, DeliverStep;
    if event.Deliver? {
      DeliverStepKeepsRoles(w, event.m, event.choice);
    } else {
      QuietStep(w, event);
      hide Step;
      forall m | m in Step(w, event).bag && (m.RegisterRole? || m.UpdateByRelay?)
        ensures m in w.bag
      {
        assert !Brings(event, m);
      }
    }
  }

  lemma DeliverStepKeepsRoles(w: World, m: Message, choice: Choice)
    requires Enabled(w, Deliver(m, choice)) && RolesAreRoles(w)
    requires forall x :: IsRole(w, x) ==> IsRole(DeliverStep(w, m, choice), x)
    ensures RolesAreRoles(DeliverStep(w, m, choice))
  {
    DeliverKeepsRoles(w, m, choice);
    hide Handle;
  }

  lemma DeliverKeepsRoles(w: World, m: Message, choice: Choice)
    requires Enabled(w, Deliver(m, choice)) && RolesAreRoles(w)
    ensures var e := Handle(w, m, choice);
      && (forall n :: n in e.sent && n.RegisterRole? ==> n.mailbox in e.entities && e.entities[n.mailbox].RoleEntity?)
      && (forall n :: n in e.sent && n.UpdateByRelay? ==> n.mailbox in e.entities && e.entities[n.mailbox].RoleEntity?)
      && (forall r :: r in e.stub.roles ==> IsRole(w, e.stub.roles[r]))
  {
  }

  /** A step after which no more is said about `x` than before. */
  lemma NoNewHanding(w: World, w': World, x: Mailbox)
    requires HandedOnce(w, x) && (IsRole(w, x) ==> IsRole(w', x))
    requires w'.handed[x] == w.handed[x] && w'.readies[x] == w.readies[x]
    requires LoggedIn(w, x) ==> LoggedIn(w', x)
    requires !IsRole(w', x) ==> forall a :: OnRecord(w', a, x) ==> OnRecord(w, a, x)
    requires forall m :: x in RelayFrom(m) ==> w'.bag[m] <= w.bag[m]
    requires forall m :: Carries(w'.bag, m, x) && Early(m) ==> Fresh(w, x)
    ensures HandedOnce(w', x)
  {
    hide LoggedIn, TokenOf, RelayFrom, IsRole;
    forall m | Relays(w'.bag, m, x)
      ensures Relays(w.bag, m, x) && w'.bag[m] <= w.bag[m]
    {
      assert w'.bag[m] <= w.bag[m];
    }
  }

  /** The messages sent on delivery of `m` name `x` no more than `m` did. */
  predicate SaysNoMore(m: Message, sent: seq<Message>, x: Mailbox) {
    && (forall n :: n in sent ==> x !in RelayFrom(n))
    && (forall n :: n in sent && x in TokenOf(n) && Early(n) ==> x in TokenOf(m) && Early(m))
    && (forall n :: n in sent ==> !n.OnRegisterAccount?)
  }

  lemma StubHandsNothing(w: World, m: Message, x: Mailbox)
    requires ForStub(m) && !m.RegisterAccount? && m in w.bag && RolesAreRoles(w) && !IsRole(w, x)
    ensures SaysNoMore(m, HandleByStub(w, m).sent, x)
    ensures var accounts := HandleByStub(w, m).stub.accounts;
            forall a :: a in accounts && accounts[a] == x ==> OnRecord(w, a, x)
  {
  }

  lemma AccountHandsNothing(w: World, m: Message, choice: Choice, x: Mailbox)
    requires !ForStub(m) && IsAccount(w, m.to) && x !in RelayFrom(m)
    ensures SaysNoMore(m, HandleByAccount(w, m, choice).sent, x)
    ensures HandleByAccount(w, m, choice).stub == w.stub
  {
  }

  lemma RoleHandsNothing(w: World, m: Message, x: Mailbox)
    requires !ForStub(m) && IsRole(w, m.to) && x !in RelayFrom(m)
    ensures SaysNoMore(m, HandleByRole(w, m).sent, x)
    ensures HandleByRole(w, m).stub == w.stub
  {
  }

  /** What delivering a message that hands nothing over says about `x`. */
  lemma OthersHandNothing(w: World, m: Message, choice: Choice, x: Mailbox)
    requires Enabled(w, Deliver(m, choice)) && RolesAreRoles(w) && !IsRole(w, x)
    requires !m.RegisterAccount? && x !in RelayFrom(m)
    ensures var e := Handle(w, m, choice);
      && SaysNoMore(m, e.sent, x)
      && (forall a :: a in e.stub.accounts && e.stub.accounts[a] == x ==> OnRecord(w, a, x))
  {
    hide HandleByStub, HandleByAccount, HandleByRole;
    if ForStub(m) {
      StubHandsNothing(w, m, x);
    } else if IsAccount(w, m.to) {
      AccountHandsNothing(w, m, choice, x);
    } else if IsRole(w, m.to) {
      RoleHandsNothing(w, m, x);
    }
  }

  lemma DeliverOthers(w: World, m: Message, choice: Choice, x: Mailbox)
    requires Enabled(w, Deliver(m, choice)) && RolesAreRoles(w) && !IsRole(w, x) && HandedOnce(w, x)
    requires !m.RegisterAccount? && x !in RelayFrom(m)
    ensures HandedOnce(DeliverStep(w, m, choice), x)
  {
    var w' := DeliverStep(w, m, choice);
    OthersHandNothing(w, m, choice, x);
    KindsStay(w, Deliver(m, choice), x);
    hide Handle, TokenOf, HandedOnce, LoggedIn, IsRole;
    forall n | Carries(w'.bag, n, x) && Early(n)
      ensures Fresh(w, x)
    {
      var e := if n in w.bag then n else m;
      assert Carries(w.bag, e, x) && Early(e);
      FreshWhileEarly(w, e, x);
    }
    NoNewHanding(w, w', x);
  }

  lemma FreshWhileEarly(w: World, m: Message, x: Mailbox)
    requires HandedOnce(w, x) && !IsRole(w, x) && Carries(w.bag, m, x) && Early(m)
    ensures Fresh(w, x)
  {
  }

  lemma RelaySends(w: World, m: Message, choice: Choice, x: Mailbox)
    requires x in RelayFrom(m)
    ensures var e := Handle(w, m, choice);
      && e.stub == w.stub
      && (e.sent == [] || (|e.sent| == 1 && !Early(e.sent[0]) && !e.sent[0].OnRegisterAccount?))
      && (forall n :: n in e.sent && x in RelayFrom(n) ==> m.OnRegisterAccount?)
      && (m.OnRelayReady? ==> m.to == x)
  {
  }

  /** What tells of `x` afterwards. */
  lemma RelayAfter(w: World, m: Message, choice: Choice, x: Mailbox, n: Message)
    requires !IsRole(w, x) && HandedOnce(w, x) && Relays(w.bag, m, x)
    requires Relays(DeliverStep(w, m, choice).bag, n, x)
    ensures Handle(w, m, choice).sent == [n] && DeliverStep(w, m, choice).bag[n] == 1 && m.OnRegisterAccount?
  {
    hide Handle, HandedOnce, LoggedIn, TokenOf, RelayFrom, IsRole;
    RelaySends(w, m, choice, x);
    RelayState(w, m, x);
    assert n in w.bag ==> Relays(w.bag, n, x);
  }

  lemma CarriedAfter(w: World, m: Message, choice: Choice, x: Mailbox, n: Message)
    requires !IsRole(w, x) && HandedOnce(w, x) && Relays(w.bag, m, x)
    requires Carries(DeliverStep(w, m, choice).bag, n, x)
    ensures !Early(n)
  {
    hide Handle, HandedOnce, LoggedIn, TokenOf, RelayFrom, IsRole, Early;
    RelaySends(w, m, choice, x);
    RelayState(w, m, x);
    assert n in w.bag ==> Carries(w.bag, n, x);
  }

  /** `x` is told of by one message, which makes way for at most one other. */
  lemma DeliverRelay(w: World, m: Message, choice: Choice, x: Mailbox)
    requires Enabled(w, Deliver(m, choice)) && !IsRole(w, x) && HandedOnce(w, x) && x in RelayFrom(m)
    ensures HandedOnce(DeliverStep(w, m, choice), x)
  {
    hide Handle, HandedOnce, LoggedIn, TokenOf, RelayFrom, IsRole, Early, Carries;
    var w' := DeliverStep(w, m, choice);
    RelaySends(w, m, choice, x);
    KindsStay(w, Deliver(m, choice), x);
    assert Relays(w.bag, m, x);
    RelayState(w, m, x);
    assert w'.handed == w.handed;
    assert !m.OnRelayReady? ==> w'.readies == w.readies;
    forall n | Relays(w'.bag, n, x)
      ensures Handle(w, m, choice).sent == [n] && w'.bag[n] == 1 && m.OnRegisterAccount?
    {
      RelayAfter(w, m, choice, x, n);
    }
    forall n | Carries(w'.bag, n, x)
      ensures !Early(n)
    {
      CarriedAfter(w, m, choice, x, n);
    }
    forall a
      ensures !OnRecord(w', a, x)
    {
      assert !OnRecord(w, a, x);
    }
    HandedOut(w', x);
  }

  /** Where a run stands while a message tells of `x`. */
  lemma RelayState(w: World, m: Message, x: Mailbox)
    requires HandedOnce(w, x) && !IsRole(w, x) && Relays(w.bag, m, x)
    ensures w.handed[x] == 1 && w.readies[x] == 0 && w.bag[m] == 1 && LoggedIn(w, x)
    ensures forall a :: !OnRecord(w, a, x)
    ensures forall n :: Relays(w.bag, n, x) ==> n == m
    ensures forall n :: Carries(w.bag, n, x) ==> !Early(n)
  {
  }

  /** Enough for `x` to be handed over. */
  lemma HandedOut(w: World, x: Mailbox)
    requires w.handed[x] == 1 && w.readies[x] <= 1 && LoggedIn(w, x)
    requires forall a :: !OnRecord(w, a, x)
    requires forall m, n :: Relays(w.bag, m, x) && Relays(w.bag, n, x) ==> m == n
    requires forall m :: Relays(w.bag, m, x) ==> w.bag[m] == 1 && w.readies[x] == 0
    requires forall m :: Carries(w.bag, m, x) ==> !Early(m)
    ensures HandedOnce(w, x)
  {
  }

  /** Enough for `x` to be on record. */
  lemma PutOnRecord(w: World, account: AccountId, x: Mailbox)
    requires w.handed[x] == 0 && w.readies[x] == 0 && LoggedIn(w, x)
    requires forall a :: OnRecord(w, a, x) ==> a == account
    requires forall m :: !Relays(w.bag, m, x)
    requires forall m :: Carries(w.bag, m, x) ==> !Early(m)
    ensures HandedOnce(w, x)
  {
  }

  /** `register_account` by `x` puts it on record. */
  lemma DeliverOwnRegister(w: World, m: Message, choice: Choice, x: Mailbox)
    requires Enabled(w, Deliver(m, choice)) && m.RegisterAccount? && !IsRole(w, x) && m.mailbox == x
    requires HandedOnce(w, x) && OneToken(w, x)
    ensures HandedOnce(DeliverStep(w, m, choice), x)
  {
    var w' := DeliverStep(w, m, choice);
    assert Carries(w.bag, m, x) && Early(m);
    FreshWhileEarly(w, m, x);
    FreshState(w, x);
    TokenIsLive(w, m, x);
    assert !OnRecord(w, m.account, x);
    forall n | Carries(w'.bag, n, x)
      ensures !Early(n)
    {
      assert n in w.bag ==> Carries(w.bag, n, x) && (n != m || w'.bag[n] == 0);
    }
    forall n
      ensures !Relays(w'.bag, n, x)
    {
      assert !Relays(w.bag, n, x);
    }
    forall a | OnRecord(w', a, x)
      ensures a == m.account
    {
      assert !OnRecord(w, a, x);
    }
    PutOnRecord(w', m.account, x);
  }

  lemma FreshState(w: World, x: Mailbox)
    requires HandedOnce(w, x) && !IsRole(w, x) && Fresh(w, x)
    ensures w.readies[x] == 0 && forall m :: !Relays(w.bag, m, x)
  {
  }

  /** `register_account` by another account, which may find `x` on record. */
  lemma DeliverOtherRegister(w: World, m: Message, choice: Choice, x: Mailbox)
    requires Enabled(w, Deliver(m, choice)) && m.RegisterAccount? && !IsRole(w, x) && m.mailbox != x
    requires HandedOnce(w, x)
    ensures HandedOnce(DeliverStep(w, m, choice), x)
  {
    hide HandedOnce;
    var w' := DeliverStep(w, m, choice);
    KindsStay(w, Deliver(m, choice), x);
    assert forall n :: Carries(w'.bag, n, x) && Early(n) ==> Carries(w.bag, n, x);
    if OnRecord(w, m.account, x) {
      RecordState(w, m.account, x);
      var told := OnRegisterAccount(m.mailbox, false, x);
      forall n | Relays(w'.bag, n, x)
        ensures n == told && w'.bag[n] == 1
      {
        assert !Relays(w.bag, n, x) && !Relays(w.bag, told, x);
      }
      forall a
        ensures !OnRecord(w', a, x)
      {
        assert OnRecord(w, a, x) ==> a == m.account;
      }
      HandedOut(w', x);
    } else {
      forall n | Carries(w'.bag, n, x) && Early(n)
        ensures Fresh(w, x)
      {
        FreshWhileEarly(w, n, x);
      }
      NoNewHanding(w, w', x);
    }
  }

  lemma RecordState(w: World, account: AccountId, x: Mailbox)
    requires HandedOnce(w, x) && !IsRole(w, x) && OnRecord(w, account, x)
    ensures w.handed[x] == 0 && w.readies[x] == 0 && LoggedIn(w, x)
    ensures forall a :: OnRecord(w, a, x) ==> a == account
    ensures forall m :: !Relays(w.bag, m, x)
    ensures forall m :: Carries(w.bag, m, x) ==> !Early(m)
  {
  }

  lemma DeliverHandsOnce(w: World, m: Message, choice: Choice, x: Mailbox)
    requires Enabled(w, Deliver(m, choice)) && RolesAreRoles(w) && HandedOnce(w, x) && OneToken(w, x)
    ensures HandedOnce(DeliverStep(w, m, choice), x)
  {
    if IsRole(w, x) {
      KindsStay(w, Deliver(m, choice), x);
    } else {
      hide HandedOnce, OneToken, DeliverStep, RolesAreRoles;
      if m.RegisterAccount? {
        if m.mailbox == x {
          DeliverOwnRegister(w, m, choice, x);
        } else {
          DeliverOtherRegister(w, m, choice, x);
        }
      } else if x in RelayFrom(m) {
        DeliverRelay(w, m, choice, x);
      } else {
        DeliverOthers(w, m, choice, x);
      }
    }
  }

  lemma StepHandsOnce(w: World, event: Event, x: Mailbox)
    requires Enabled(w, event) && RolesAreRoles(w) && HandedOnce(w, x) && OneToken(w, x)
    ensures HandedOnce(Step(w, event), x)
  {
    if event.Deliver? {
      DeliverHandsOnce(w, event.m, event.choice, x);
    } else {
      var w' := Step(w, event);
      QuietStep(w, event);
      KindsStay(w, event, x);
      if !IsRole(w, x) {
        hide Step;
        forall m | x in RelayFrom(m)
          ensures w'.bag[m] <= w.bag[m]
        {
          assert !Brings(event, m);
        }
        forall m | Carries(w'.bag, m, x) && Early(m)
          ensures Fresh(w, x)
        {
          if m in w.bag {
            FreshWhileEarly(w, m, x);
          } else {
            assert Brings(event, m) && event == Login(x);
          }
        }
        NoNewHanding(w, w', x);
      }
    }
  }

  lemma {:induction false} HandedOverRun(w: World, events: seq<Event>, x: Mailbox)
    requires IsRun(w, events) && RolesAreRoles(w) && HandedOnce(w, x) && OneToken(w, x)
    ensures HandedOnce(After(w, events), x)
    decreases |events|
  {
    if events != [] {
      StepKeepsToken(w, events[0], x);
      StepKeepsRoles(w, events[0]);
      StepHandsOnce(w, events[0], x);
      HandedOverRun(Step(w, events[0]), events[1..], x);
    }
  }

  /** Over any run, the mailbox of an account is given to at most one successor as the
      one to relay from, and the account gets at most one `on_relay_ready`, and none
      before it was given away. */
  lemma HandedToOneSuccessor(events: seq<Event>, x: Mailbox)
    requires IsRun(START, events) && !IsRole(After(START, events), x)
    ensures After(START, events).readies[x] <= After(START, events).handed[x] <= 1
  {
    HandedOverRun(START, events, x);
  }
}
