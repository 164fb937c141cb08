/** What runs of the login protocol say about their past: who holds a role, who was
    ever given one, and when a login is over. */
module LoginHistory {
  import opened LoginProtocol
  import opened LoginSafety

  lemma {:induction false} RunGrows(w: World, events: seq<Event>, e: Event)
    requires IsRun(w, events) && Enabled(After(w, events), e)
    ensures IsRun(w, events + [e]) && After(w, events + [e]) == Step(After(w, events), e)
    decreases |events|
  {
    hide Enabled, Step;
    if events == [] {
      assert [e][1..] == [];
    } else {
      RunGrows(Step(w, events[0]), events[1..], e);
      assert (events + [e])[1..] == events[1..] + [e];
    }
  }

  // ----- the holders of a role -----

  /** The mailbox that a step tells it has the role. */
  function Told(w: World, event: Event, role: RoleId): seq<Mailbox> {
    if event.Deliver? && event.m.RegisterRole? && event.m.role == role
       && OnRegisterRole(event.m.mailbox, true) in Handle(w, event.m, event.choice).sent
    then [event.m.mailbox] else []
  }

  /** The mailboxes told that they have the role since an `unregister_role` for it was
      last handled, by what was sent in the run alone; `so` are those before. */
  function Holders(w: World, events: seq<Event>, role: RoleId, so: seq<Mailbox>): seq<Mailbox>
    requires IsRun(w, events)
    decreases |events|
  {
    if events == [] then so
    else
      Holders(Step(w, events[0]), events[1..], role,
              if Unregisters(events[0], role) then [] else so + Told(w, events[0], role))
  }

  /** The owner on record. */
  function Owner(stub: Stub, role: RoleId): seq<Mailbox> {
    if role in stub.roles then [stub.roles[role]] else []
  }

  lemma StepMovesOwner(w: World, event: Event, role: RoleId)
    requires Enabled(w, event)
    ensures Owner(Step(w, event).stub, role) ==
            if Unregisters(event, role) then [] else Owner(w.stub, role) + Told(w, event, role)
  {
    hide Handle, Owner;
    if event.Deliver? {
      if ForStub(event.m) {
        StubMovesOwner(w, event.m, event.choice, role);
      } else {
        StubUntouched(w, event.m, event.choice);
      }
    } else {
      QuietStep(w, event);
    }
  }

  lemma StubMovesOwner(w: World, m: Message, choice: Choice, role: RoleId)
    requires ForStub(m)
    ensures Owner(DeliverStep(w, m, choice).stub, role) ==
            if m.UnregisterRole? && m.role == role then []
            else Owner(w.stub, role) + Told(w, Deliver(m, choice), role)
  {
    hide HandleByStub, HandleByAccount, HandleByRole, Owner;
    HandleMovesOwner(w, m, role);
  }

  lemma HandleMovesOwner(w: World, m: Message, role: RoleId)
    requires ForStub(m)
    ensures var e := HandleByStub(w, m);
      Owner(e.stub, role) ==
      if m.UnregisterRole? && m.role == role then []
      else Owner(w.stub, role) + if m.RegisterRole? && m.role == role && OnRegisterRole(m.mailbox, true) in e.sent
                                 then [m.mailbox] else []
  {
    match m {
      case RegisterRole(account, r, mailbox) =>
        assert HandleByStub(w, m).sent[0].OnRegisterRole?;
      case _ =>
    }
  }

  lemma {:induction false} HoldersFrom(w: World, events: seq<Event>, role: RoleId)
    requires IsRun(w, events)
    ensures Holders(w, events, role, Owner(w.stub, role)) == Owner(After(w, events).stub, role)
    decreases |events|
  {
    hide Enabled, Step, Owner, Unregisters, Told;
    if events != [] {
      StepMovesOwner(w, events[0], role);
      HoldersFrom(Step(w, events[0]), events[1..], role);
    }
  }

  /** Over every run, the stub's map holds exactly the mailbox that was told it has the role
      since the role was last unregistered, and there is at most one. */
  lemma HolderIsOwner(events: seq<Event>, role: RoleId)
    requires IsRun(START, events)
    ensures Holders(START, events, role, []) == Owner(After(START, events).stub, role)
  {
    HoldersFrom(START, events, role);
  }

  // ----- only roles that were given are played -----

  /** `x` is a role entity that has been told that it has its role. */
  ghost predicate Given(w: World, x: Mailbox) {
    IsRole(w, x) && exists i :: 0 <= i < |w.grants| && w.grants[i] == (w.entities[x].r.role, x)
  }

  /** `x` may be relayed from. */
  ghost predicate Relayable(w: World, x: Mailbox) {
    IsAccount(w, x) || Given(w, x)
  }

  /** The mailboxes that a message takes to be registered. */
  function Named(m: Message): set<Mailbox> {
    match m
    case OnRegisterAccount(_, status, y) => if status then {} else {y}
    case OnRelayReady(y, _) => {y}
    case OnWaitLogin(_, y) => {y}
    case OnRelayLoginWithProxy(y) => {y}
    case OnRegisterRole(y, status) => if status then {y} else {}
    case _ => {}
  }

  /** The entity that asks for registration is there, and asks for what is its own. */
  ghost predicate Asks(w: World, m: Message) {
    && (m.RegisterAccount? ==> IsAccount(w, m.mailbox))
    && (m.RegisterRole? ==> IsRole(w, m.mailbox) && w.entities[m.mailbox].r.role == m.role)
  }

  ghost predicate Plays(w: World, x: Mailbox) {
    IsRole(w, x) && (w.entities[x].r.status == Normal || w.entities[x].r.status == Relay)
  }

  /** Every role that is played, on record or relayed from has been given by the stub. */
  ghost predicate OnlyGiven(w: World) {
    && (forall m :: m in w.bag ==> Asks(w, m))
    && (forall m, y :: m in w.bag && y in Named(m) ==> Relayable(w, y))
    && (forall a :: a in w.stub.accounts ==> Relayable(w, w.stub.accounts[a]))
    && (forall r :: r in w.stub.roles ==> Relayable(w, w.stub.roles[r]))
    && (forall x :: Plays(w, x) ==> Given(w, x))
  }

  /** What a step leaves as it is about an entity. */
  ghost predicate Keeps(w: World, w': World, x: Mailbox) {
    && (IsAccount(w, x) ==> IsAccount(w', x))
    && (IsRole(w, x) ==> IsRole(w', x) && w'.entities[x].r.role == w.entities[x].r.role)
    && w.grants <= w'.grants
  }

  lemma StepKeeps(w: World, event: Event, x: Mailbox)
    requires Enabled(w, event)
    ensures Keeps(w, Step(w, event), x)
  {
    if event.Deliver? {
      DeliverKeepsRole(w, event.m, event.choice, x);
    }
  }

  lemma DeliverKeepsRole(w: World, m: Message, choice: Choice, x: Mailbox)
    requires Enabled(w, Deliver(m, choice))
    ensures Keeps(w, DeliverStep(w, m, choice), x)
  {
    HandleKeepsRole(w, m, choice, x);
    hide Handle;
  }

  lemma HandleKeepsRole(w: World, m: Message, choice: Choice, x: Mailbox)
    requires Enabled(w, Deliver(m, choice))
    ensures var e := Handle(w, m, choice).entities;
      && (IsAccount(w, x) ==> x in e && e[x].AccountEntity?)
      && (IsRole(w, x) ==> x in e && e[x].RoleEntity? && e[x].r.role == w.entities[x].r.role)
  {
  }

  lemma KeptRelayable(w: World, w': World, x: Mailbox)
    requires Keeps(w, w', x)
    ensures Given(w, x) ==> Given(w', x)
    ensures Relayable(w, x) ==> Relayable(w', x)
  {
    if Given(w, x) {
      var i :| 0 <= i < |w.grants| && w.grants[i] == (w.entities[x].r.role, x);
      assert w'.grants[i] == w.grants[i];
    }
  }

  // What delivering `m` brings: entities, requests, names, records.

  lemma PlayedBefore(w: World, m: Message, choice: Choice, x: Mailbox)
    requires Enabled(w, Deliver(m, choice)) && Plays(DeliverStep(w, m, choice), x)
    ensures Plays(w, x) || x in Named(m)
  {
    hide HandleByStub, HandleByAccount, HandleByRole, Named;
    if ForStub(m) {
      EntitiesByStub(w, m);
    } else if IsAccount(w, m.to) {
      PlayedByAccount(w, m, choice, x);
    } else if IsRole(w, m.to) {
      PlayedByRole(w, m, x);
    }
  }

  lemma EntitiesByStub(w: World, m: Message)
    ensures HandleByStub(w, m).entities == w.entities
  {
  }

  lemma PlayedByAccount(w: World, m: Message, choice: Choice, x: Mailbox)
    requires !ForStub(m) && IsAccount(w, m.to)
    ensures var e := HandleByAccount(w, m, choice).entities;
      x in e && e[x].RoleEntity? ==> e[x].r.status == Invalid || (x in w.entities && w.entities[x] == e[x])
  {
  }

  lemma PlayedByRole(w: World, m: Message, x: Mailbox)
    requires !ForStub(m) && IsRole(w, m.to)
    ensures var e := HandleByRole(w, m).entities;
      x in e && e[x].RoleEntity? ==>
        x in w.entities && (w.entities[x] == e[x] || x in Named(m))
  {
  }

  lemma AskedFor(w: World, m: Message, choice: Choice, n: Message)
    requires Enabled(w, Deliver(m, choice)) && n in Handle(w, m, choice).sent
    ensures n.RegisterAccount? ==> IsAccount(w, n.mailbox)
    ensures n.RegisterRole? ==>
      var e := Handle(w, m, choice).entities;
      n.mailbox in e && e[n.mailbox].RoleEntity? && e[n.mailbox].r.role == n.role
  {
    hide HandleByStub, HandleByRole, HandleByAccount;
    if ForStub(m) {
      StubAsksNothing(w, m, n);
    } else if IsAccount(w, m.to) {
      AccountAsks(w, m, choice, n);
    } else if IsRole(w, m.to) {
      RoleAsksNothing(w, m, n);
    }
  }

  lemma StubAsksNothing(w: World, m: Message, n: Message)
    requires n in HandleByStub(w, m).sent
    ensures !n.RegisterAccount? && !n.RegisterRole?
  {
  }

  lemma RoleAsksNothing(w: World, m: Message, n: Message)
    requires !ForStub(m) && IsRole(w, m.to) && n in HandleByRole(w, m).sent
    ensures !n.RegisterAccount? && !n.RegisterRole?
  {
  }

  lemma AccountAsks(w: World, m: Message, choice: Choice, n: Message)
    requires !ForStub(m) && IsAccount(w, m.to) && n in HandleByAccount(w, m, choice).sent
    ensures n.RegisterAccount? ==> n.mailbox == m.to
    ensures n.RegisterRole? ==>
      var e := HandleByAccount(w, m, choice).entities;
      n.mailbox in e && e[n.mailbox].RoleEntity? && e[n.mailbox].r.role == n.role
  {
  }

  /** A name in what the stub sends. */
  lemma NamedByStub(w: World, m: Message, n: Message, y: Mailbox)
    requires ForStub(m) && n in HandleByStub(w, m).sent && y in Named(n)
    ensures (exists a :: a in w.stub.accounts && w.stub.accounts[a] == y)
         || (m.RegisterRole? && y == m.mailbox && HandleByStub(w, m).sent == [OnRegisterRole(y, true)])
  {
  }

  /** An entity names only what was named to it. */
  lemma NamedByEntity(w: World, m: Message, choice: Choice, n: Message, y: Mailbox)
    requires !ForStub(m) && n in Handle(w, m, choice).sent && y in Named(n)
    ensures y in Named(m)
  {
  }

  /** What comes on record was on record or asked for it. */
  lemma RecordedBefore(w: World, m: Message, y: Mailbox)
    requires ForStub(m)
    requires var stub := HandleByStub(w, m).stub;
      (exists a :: a in stub.accounts && stub.accounts[a] == y) || (exists r :: r in stub.roles && stub.roles[r] == y)
    ensures (exists a :: a in w.stub.accounts && w.stub.accounts[a] == y)
         || (exists r :: r in w.stub.roles && w.stub.roles[r] == y)
         || (m.RegisterAccount? && y == m.mailbox)
         || (m.RegisterRole? && y == m.mailbox && HandleByStub(w, m).sent == [OnRegisterRole(y, true)])
  {
  }

  /** A positive reply is a grant. */
  lemma ReplyGives(w: World, m: Message, choice: Choice)
    requires Enabled(w, Deliver(m, choice)) && OnlyGiven(w)
    requires m.RegisterRole? && Handle(w, m, choice).sent == [OnRegisterRole(m.mailbox, true)]
    ensures Given(DeliverStep(w, m, choice), m.mailbox)
  {
    var w' := DeliverStep(w, m, choice);
    assert Asks(w, m);
    DeliverKeepsRole(w, m, choice, m.mailbox);
    hide Handle;
    assert w'.grants[|w.grants|] == (m.role, m.mailbox);
  }

  lemma DeliverAsks(w: World, m: Message, choice: Choice, n: Message)
    requires Enabled(w, Deliver(m, choice)) && OnlyGiven(w) && n in DeliverStep(w, m, choice).bag
    ensures Asks(DeliverStep(w, m, choice), n)
  {
    if n.RegisterAccount? || n.RegisterRole? {
      DeliverKeepsRole(w, m, choice, n.mailbox);
      if n in Handle(w, m, choice).sent {
        AskedFor(w, m, choice, n);
      } else {
        assert n in w.bag && Asks(w, n);
      }
      hide Handle;
    }
  }

  lemma DeliverNames(w: World, m: Message, choice: Choice, n: Message, y: Mailbox)
    requires Enabled(w, Deliver(m, choice)) && OnlyGiven(w)
    requires n in DeliverStep(w, m, choice).bag && y in Named(n)
    ensures Relayable(DeliverStep(w, m, choice), y)
  {
    hide HandleByStub, HandleByRole, HandleByAccount, Named, Relayable, Given, Keeps, Asks, Plays;
    var w' := DeliverStep(w, m, choice);
    DeliverKeepsRole(w, m, choice, y);
    KeptRelayable(w, w', y);
    if n in Handle(w, m, choice).sent {
      if ForStub(m) {
        NamedByStub(w, m, n, y);
        if m.RegisterRole? && y == m.mailbox && HandleByStub(w, m).sent == [OnRegisterRole(y, true)] {
          ReplyGives(w, m, choice);
          GivenIsRelayable(w', y);
        }
      } else {
        NamedByEntity(w, m, choice, n, y);
      }
    } else {
      assert n in w.bag;
    }
  }

  lemma GivenIsRelayable(w: World, x: Mailbox)
    requires Given(w, x)
    ensures Relayable(w, x)
  {
  }

  ghost predicate Recorded(stub: Stub, y: Mailbox) {
    (exists a :: a in stub.accounts && stub.accounts[a] == y) || (exists r :: r in stub.roles && stub.roles[r] == y)
  }

  lemma DeliverRecords(w: World, m: Message, choice: Choice, y: Mailbox)
    requires Enabled(w, Deliver(m, choice)) && OnlyGiven(w) && Recorded(DeliverStep(w, m, choice).stub, y)
    ensures Relayable(DeliverStep(w, m, choice), y)
  {
    hide HandleByStub, HandleByRole, HandleByAccount, Given, Keeps;
    var w' := DeliverStep(w, m, choice);
    DeliverKeepsRole(w, m, choice, y);
    KeptRelayable(w, w', y);
    if ForStub(m) {
      RecordedBefore(w, m, y);
      assert Asks(w, m);
      if m.RegisterRole? && y == m.mailbox && HandleByStub(w, m).sent == [OnRegisterRole(y, true)] {
        ReplyGives(w, m, choice);
      }
    } else {
      StubUntouched(w, m, choice);
    }
  }

  lemma DeliverPlays(w: World, m: Message, choice: Choice, x: Mailbox)
    requires Enabled(w, Deliver(m, choice)) && OnlyGiven(w) && Plays(DeliverStep(w, m, choice), x)
    ensures Given(DeliverStep(w, m, choice), x)
  {
    PlayedBefore(w, m, choice, x);
    DeliverKeepsRole(w, m, choice, x);
    KeptRelayable(w, DeliverStep(w, m, choice), x);
    hide Handle, Named;
    assert Relayable(w, x) && (IsAccount(w, x) ==> !IsRole(DeliverStep(w, m, choice), x));
  }

  lemma DeliverKeepsGiven(w: World, m: Message, choice: Choice)
    requires Enabled(w, Deliver(m, choice)) && OnlyGiven(w)
    ensures OnlyGiven(DeliverStep(w, m, choice))
  {
    hide DeliverStep, Named, Relayable, Given, Asks, Plays;
    var w' := DeliverStep(w, m, choice);
    forall n | n in w'.bag
      ensures Asks(w', n)
    {
      DeliverAsks(w, m, choice, n);
    }
    forall n, y | n in w'.bag && y in Named(n)
      ensures Relayable(w', y)
    {
      DeliverNames(w, m, choice, n, y);
    }
    forall y | Recorded(w'.stub, y)
      ensures Relayable(w', y)
    {
      DeliverRecords(w, m, choice, y);
    }
    assert forall a :: a in w'.stub.accounts ==> Recorded(w'.stub, w'.stub.accounts[a]);
    assert forall r :: r in w'.stub.roles ==> Recorded(w'.stub, w'.stub.roles[r]);
    forall x | Plays(w', x)
      ensures Given(w', x)
    {
      DeliverPlays(w, m, choice, x);
    }
  }

  lemma QuietPlays(w: World, event: Event, x: Mailbox)
    requires Enabled(w, event) && !event.Deliver? && Plays(Step(w, event), x)
    ensures Plays(w, x)
  {
  }

  lemma StepKeepsGiven(w: World, event: Event)
    requires Enabled(w, event) && OnlyGiven(w)
    ensures OnlyGiven(Step(w, event))
  {
    if event.Deliver? {
      hide OnlyGiven;
      DeliverKeepsGiven(w, event.m, event.choice);
    } else {
      hide Step, Relayable, Given, Plays, Asks, Named;
      QuietStep(w, event);
      var w' := Step(w, event);
      forall n | n in w'.bag
        ensures Asks(w', n) && forall y :: y in Named(n) ==> Relayable(w', y)
      {
        QuietMessage(w, event, n);
      }
      forall x
        ensures Relayable(w, x) ==> Relayable(w', x)
        ensures Plays(w', x) ==> Given(w', x)
      {
        StepKeeps(w, event, x);
        KeptRelayable(w, w', x);
        if Plays(w', x) {
          QuietPlays(w, event, x);
        }
      }
    }
  }

  lemma QuietMessage(w: World, event: Event, n: Message)
    requires Enabled(w, event) && !event.Deliver? && OnlyGiven(w) && n in Step(w, event).bag
    ensures Asks(Step(w, event), n) && forall y :: y in Named(n) ==> Relayable(Step(w, event), y)
  {
    QuietStep(w, event);
    hide Relayable, Given, Step;
    if n in w.bag {
      assert Asks(w, n);
      if n.RegisterAccount? || n.RegisterRole? {
        StepKeeps(w, event, n.mailbox);
      }
      forall y | y in Named(n)
        ensures Relayable(Step(w, event), y)
      {
        StepKeeps(w, event, y);
        KeptRelayable(w, Step(w, event), y);
      }
    } else {
      assert Brings(event, n);
    }
  }

  lemma {:induction false} GivenOverRun(w: World, events: seq<Event>)
    requires IsRun(w, events) && OnlyGiven(w)
    ensures OnlyGiven(After(w, events))
    decreases |events|
  {
    hide OnlyGiven, Enabled, Step;
    if events != [] {
      StepKeepsGiven(w, events[0]);
      GivenOverRun(Step(w, events[0]), events[1..]);
    }
  }

  /** In every run, a role entity whose status is normal, or that makes way for another
      login, has been told by the stub that it has its role. */
  lemma PlayedIsGiven(events: seq<Event>, x: Mailbox)
    requires IsRun(START, events) && Plays(After(START, events), x)
    ensures Given(After(START, events), x)
  {
    GivenOverRun(START, events);
  }

  // ----- logins that are over -----

  /** The account has logged in, and no message carries its login on. */
  ghost predicate Over(w: World, x: Mailbox) {
    LoggedIn(w, x) && forall m :: !Carries(w.bag, m, x)
  }

  lemma StepKeepsOver(w: World, event: Event, x: Mailbox)
    requires Enabled(w, event) && Over(w, x)
    ensures Over(Step(w, event), x) && Step(w, event).loads[x] == w.loads[x]
  {
    hide DeliverStep, LoggedIn, Carries;
    KindsStay(w, event, x);
    if event.Deliver? {
      forall n
        ensures !Carries(Step(w, event).bag, n, x)
      {
        DeliverCarries(w, event.m, event.choice, n, x);
      }
      DeliverLoads(w, event.m, event.choice, x);
    } else {
      QuietStep(w, event);
      hide Step;
      forall n
        ensures !Carries(Step(w, event).bag, n, x)
      {
        QuietCarries(w, event, n, x);
      }
    }
  }

  lemma DeliverCarries(w: World, m: Message, choice: Choice, n: Message, x: Mailbox)
    requires Enabled(w, Deliver(m, choice))
    ensures Carries(DeliverStep(w, m, choice).bag, n, x) ==> Carries(w.bag, n, x) || Carries(w.bag, m, x)
  {
    SentTokens(w, m, choice, x);
    hide Handle, TokenOf;
  }

  lemma DeliverLoads(w: World, m: Message, choice: Choice, x: Mailbox)
    requires Enabled(w, Deliver(m, choice)) && !Carries(w.bag, m, x)
    ensures DeliverStep(w, m, choice).loads[x] == w.loads[x]
  {
    SentTokens(w, m, choice, x);
    hide Handle, TokenOf;
  }

  lemma QuietCarries(w: World, event: Event, n: Message, x: Mailbox)
    requires Enabled(w, event) && !event.Deliver? && LoggedIn(w, x)
    ensures Carries(Step(w, event).bag, n, x) ==> Carries(w.bag, n, x)
  {
    QuietStep(w, event);
    hide Step, TokenOf;
    if n !in w.bag && n in Step(w, event).bag {
      NotBrought(w, event, n, x);
    }
  }

  lemma NotBrought(w: World, event: Event, n: Message, x: Mailbox)
    requires Enabled(w, event) && LoggedIn(w, x) && Brings(event, n)
    ensures x !in TokenOf(n)
  {
  }

  /** A login that is over stays over: the account never loads a role again. */
  lemma {:induction false} OverStays(w: World, events: seq<Event>, x: Mailbox)
    requires IsRun(w, events) && Over(w, x)
    ensures Over(After(w, events), x) && After(w, events).loads[x] == w.loads[x]
    decreases |events|
  {
    hide Over, Enabled, Step;
    if events != [] {
      StepKeepsOver(w, events[0], x);
      OverStays(Step(w, events[0]), events[1..], x);
    }
  }

  // ----- accounts that have made way -----

  /** The account entity has been destroyed. */
  predicate Destroyed(w: World, x: Mailbox) {
    IsAccount(w, x) && w.entities[x].a.destroyed
  }

  lemma HandleKeepsDestroyed(w: World, m: Message, choice: Choice, x: Mailbox)
    requires Enabled(w, Deliver(m, choice)) && IsAccount(w, x)
    ensures var e := Handle(w, m, choice).entities;
      && x in e && e[x].AccountEntity?
      && (w.entities[x].a.destroyed || (m.OnRelayReady? && m.to == x) ==> e[x].a.destroyed)
  {
  }

  lemma StepDestroys(w: World, event: Event, x: Mailbox)
    requires Enabled(w, event)
    ensures Destroyed(w, x) ==> Destroyed(Step(w, event), x)
    ensures Step(w, event).readies[x] > w.readies[x] ==> Destroyed(Step(w, event), x)
  {
    if event.Deliver? {
      if IsAccount(w, x) {
        HandleKeepsDestroyed(w, event.m, event.choice, x);
      }
      hide Handle;
    }
  }

  lemma {:induction false} ReadyOverRun(w: World, events: seq<Event>, x: Mailbox)
    requires IsRun(w, events) && (w.readies[x] > 0 ==> Destroyed(w, x))
    ensures After(w, events).readies[x] > 0 ==> Destroyed(After(w, events), x)
    ensures Destroyed(w, x) ==> Destroyed(After(w, events), x)
    decreases |events|
  {
    hide Enabled, Step, Destroyed;
    if events != [] {
      StepDestroys(w, events[0], x);
      ReadyOverRun(Step(w, events[0]), events[1..], x);
    }
  }

  /** In every run, an account that has been asked to make way is destroyed. */
  lemma MakesWayForGood(events: seq<Event>, x: Mailbox)
    requires IsRun(START, events) && After(START, events).readies[x] > 0
    ensures Destroyed(After(START, events), x)
  {
    ReadyOverRun(START, events, x);
  }

  /** What the role query or a relay brings to a destroyed account has no effect: no role
      entity comes into being, and nothing is sent. */
  lemma DestroyedLoadsNothing(w: World, x: Mailbox, choice: Choice)
    requires Destroyed(w, x) && choice.child !in w.entities
    ensures Handle(w, LoadRole(x), choice) == Effect(w.stub, w.entities, [])
    ensures Handle(w, OnRelayLogin(x), choice) == Effect(w.stub, w.entities, [])
  {
  }

  /** So, in every run, an account that was asked to make way while its role was being
      loaded does not go on to register the role it was asked to give up. */
  lemma NoRoleAfterMakingWay(events: seq<Event>, x: Mailbox, choice: Choice)
    requires IsRun(START, events) && After(START, events).readies[x] > 0
    requires Enabled(After(START, events), Deliver(LoadRole(x), choice))
    ensures var w, w' := After(START, events), Step(After(START, events), Deliver(LoadRole(x), choice));
      w'.entities == w.entities && w'.stub == w.stub && w'.bag == w.bag - multiset{LoadRole(x)}
  {
    MakesWayForGood(events, x);
    var w := After(START, events);
    DestroyedLoadsNothing(w, x, choice);
    hide Handle, IsRun, After;
    var none: seq<Message> := [];
    assert multiset(none) == multiset{};
  }

  // ----- all together -----

  ghost predicate Inv(w: World) {
    RolesAreRoles(w) && OnlyGiven(w) && forall x :: OneToken(w, x) && HandedOnce(w, x)
  }

  lemma StepKeepsInv(w: World, event: Event)
    requires Enabled(w, event) && Inv(w)
    ensures Inv(Step(w, event))
  {
    hide Enabled, Step, RolesAreRoles, OnlyGiven, OneToken, HandedOnce;
    StepKeepsRoles(w, event);
    StepKeepsGiven(w, event);
    forall x
      ensures OneToken(Step(w, event), x) && HandedOnce(Step(w, event), x)
    {
      StepKeepsToken(w, event, x);
      StepHandsOnce(w, event, x);
    }
  }

  lemma StartInv()
    ensures Inv(START)
  {
  }
}
