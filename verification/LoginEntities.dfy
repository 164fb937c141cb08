/** The entities of the login protocol as objects whose handlers update fields and send
    messages. They share a ghost record of the run they are part of: each handler adds the
    delivery it is, so what is proved of all runs holds of the objects. */
module LoginEntities {
  import opened LoginProtocol
  import opened LoginSafety
  import opened LoginHistory

  // ----- mailboxes not in use -----

  lemma {:induction false} SomeUnused(used: set<Mailbox>) returns (x: Mailbox)
    ensures forall y :: y in used ==> y.entity < x.entity
  {
    if used == {} {
      x := Mailbox(0, 0, 0);
    } else {
      var y :| y in used;
      var z := SomeUnused(used - {y});
      x := z.(entity := if y.entity < z.entity then z.entity else y.entity + 1);
    }
  }

  /** A choice for messages whose handlers leave nothing open. */
  ghost function NoChoice(w: World): (choice: Choice)
    ensures choice.child !in w.entities
  {
    assert exists x :: x !in w.entities by {
      var x := SomeUnused(w.entities.Keys);
      assert x !in w.entities;
    }
    var x :| x !in w.entities;
    Choice(QueryFailed, false, RoleQueryFailed, x)
  }

  // ----- the run -----

  /** The run that the entities are part of. */
  class Network {
    ghost var events: seq<Event>
    ghost var world: World

    ghost predicate Valid()
      reads this
    {
      IsRun(START, events) && After(START, events) == world && Inv(world)
    }

    /** The mailboxes told in the run that they have the role since it was last unregistered. */
    ghost function HoldersOf(role: RoleId): seq<Mailbox>
      reads this
      requires Valid()
    {
      Holders(START, events, role, [])
    }

    constructor ()
      ensures Valid() && events == [] && world == START
    {
      events, world := [], START;
      new;
      StartInv();
    }

    ghost method Note(e: Event)
      requires Valid() && Enabled(world, e)
      modifies this
      ensures Valid() && events == old(events) + [e] && world == Step(old(world), e)
    {
      hide IsRun, After, Enabled, Step, Inv;
      RunGrows(START, events, e);
      StepKeepsInv(world, e);
      events, world := events + [e], Step(world, e);
    }

    ghost method Deliver(m: Message, choice: Choice)
      requires Valid() && m in world.bag && choice.child !in world.entities
      modifies this
      ensures Valid() && events == old(events) + [Event.Deliver(m, choice)]
      ensures world == DeliverStep(old(world), m, choice)
    {
      hide IsRun, After, Inv, DeliverStep;
      Note(Event.Deliver(m, choice));
    }
  }

  // ----- what a delivery leaves and brings -----

  /** Of the stub and the entities, only `x` may have changed. */
  ghost predicate OnlyChanges(w: World, w': World, x: Mailbox) {
    w'.stub == w.stub && forall y :: y in w.entities && y != x ==> y in w'.entities && w'.entities[y] == w.entities[y]
  }

  /** The message has been delivered, and what the handler sent is on its way. */
  ghost predicate Delivered(w: World, w': World, m: Message, sent: seq<Message>) {
    w'.bag == w.bag - multiset{m} + multiset(sent)
  }

  lemma StubTurn(w: World, m: Message, choice: Choice)
    requires ForStub(m)
    ensures var w', e := DeliverStep(w, m, choice), HandleByStub(w, m);
            w'.stub == e.stub && w'.entities == w.entities && w'.bag == w.bag - multiset{m} + multiset(e.sent)
  {
  }

  lemma AccountTurn(w: World, m: Message, choice: Choice)
    requires !ForStub(m) && IsAccount(w, m.to) && choice.child !in w.entities
    ensures var w', e := DeliverStep(w, m, choice), HandleByAccount(w, m, choice);
      && w'.entities == e.entities && w'.bag == w.bag - multiset{m} + multiset(e.sent)
      && OnlyChanges(w, w', m.to) && Handle(w, m, choice) == e
  {
  }

  lemma RoleTurn(w: World, m: Message, choice: Choice)
    requires !ForStub(m) && IsRole(w, m.to)
    ensures var w', e := DeliverStep(w, m, choice), HandleByRole(w, m);
      && w'.entities == e.entities && w'.bag == w.bag - multiset{m} + multiset(e.sent)
      && OnlyChanges(w, w', m.to) && Handle(w, m, choice) == e
  {
  }

  /** One message carries the login of `x` on. */
  ghost predicate CarriedBy(w: World, x: Mailbox, m: Message) {
    w.bag[m] == 1 && x in TokenOf(m) && w.loads[x] == 0 && forall n :: Carries(w.bag, n, x) ==> n == m
  }

  lemma CarriesOn(w: World, m: Message, choice: Choice, x: Mailbox, n: Message)
    requires Inv(w) && m in w.bag && choice.child !in w.entities && x in TokenOf(m)
    requires Handle(w, m, choice).sent == [n] && x in TokenOf(n)
    ensures CarriedBy(DeliverStep(w, m, choice), x, n)
  {
    hide RolesAreRoles, OnlyGiven, HandedOnce, TokenOf, Handle;
    StepKeepsToken(w, Deliver(m, choice), x);
    assert n in DeliverStep(w, m, choice).bag;
    assert Carries(DeliverStep(w, m, choice).bag, n, x);
  }

  /** The login of `x` is over without its role being loaded. */
  lemma EndsHere(w: World, m: Message, choice: Choice, x: Mailbox)
    requires Inv(w) && m in w.bag && choice.child !in w.entities && x in TokenOf(m)
    requires forall n :: n in Handle(w, m, choice).sent ==> x !in TokenOf(n)
    requires Handle(w, m, choice).sent != [LoadRole(x)]
    ensures Over(DeliverStep(w, m, choice), x) && DeliverStep(w, m, choice).loads[x] == 0
  {
    var w' := DeliverStep(w, m, choice);
    OtherLoads(w, m, choice, x);
    KindsStay(w, Deliver(m, choice), x);
    hide RolesAreRoles, OnlyGiven, HandedOnce, TokenOf, Handle;
    assert OneToken(w, x);
    TokenIsLive(w, m, x);
    forall n
      ensures !Carries(w'.bag, n, x)
    {
      assert n in w.bag && x in TokenOf(n) ==> Carries(w.bag, n, x) && Carries(w.bag, m, x);
    }
  }

  /** The account starts to load its role, for the first and last time. */
  lemma LoadsNow(w: World, m: Message, choice: Choice, x: Mailbox)
    requires Inv(w) && m in w.bag && choice.child !in w.entities && x in TokenOf(m)
    requires Handle(w, m, choice).sent == [LoadRole(x)]
    ensures var w' := DeliverStep(w, m, choice); w.loads[x] == 0 && w'.loads[x] == 1 && Over(w', x)
  {
    hide RolesAreRoles, OnlyGiven, HandedOnce, TokenOf, Handle;
    assert OneToken(w, x);
    TokenIsLive(w, m, x);
    StepKeepsToken(w, Deliver(m, choice), x);
    assert DeliverStep(w, m, choice).loads[x] == 1;
  }

  /** The stub has let go of the account `before`, which one successor has been told of. */
  ghost predicate HandedOver(w: World, before: Mailbox) {
    w.handed[before] == 1 && forall a :: !OnRecord(w, a, before)
  }

  lemma HandsOver(w: World, m: Message, choice: Choice)
    requires Inv(w) && m.RegisterAccount? && m in w.bag && choice.child !in w.entities
    ensures var w' := DeliverStep(w, m, choice);
      && IsAccount(w, m.mailbox) && (forall a :: OnRecord(w', a, m.mailbox) ==> a == m.account)
      && (m.account in w.stub.accounts && IsAccount(w, w.stub.accounts[m.account]) ==>
            w.handed[w.stub.accounts[m.account]] == 0 && HandedOver(w', w.stub.accounts[m.account]))
  {
    hide RolesAreRoles, HandleByAccount, HandleByRole, Given, Plays, Relayable;
    var w' := DeliverStep(w, m, choice);
    assert Asks(w, m);
    OnRecordOnce(w, m, choice, m.mailbox);
    assert OnRecord(w', m.account, m.mailbox);
    if m.account in w.stub.accounts && IsAccount(w, w.stub.accounts[m.account]) {
      var before := w.stub.accounts[m.account];
      OnRecordOnce(w, m, choice, before);
      assert w'.handed[before] == w.handed[before] + 1;
    }
  }

  lemma OnRecordOnce(w: World, m: Message, choice: Choice, x: Mailbox)
    requires Inv(w) && m.RegisterAccount? && m in w.bag && choice.child !in w.entities && IsAccount(w, x)
    ensures var w' := DeliverStep(w, m, choice);
      && (forall a, b :: OnRecord(w', a, x) && OnRecord(w', b, x) ==> a == b)
      && w'.handed[x] <= 1 && (forall a :: OnRecord(w', a, x) ==> w'.handed[x] == 0)
  {
    hide Handle, RolesAreRoles, OnlyGiven, Carries;
    KindsStay(w, Deliver(m, choice), x);
    StepKeepsRoles(w, Deliver(m, choice));
    assert HandedOnce(w, x) && OneToken(w, x);
    StepHandsOnce(w, Deliver(m, choice), x);
  }

  /** A message asks the account `x` to make way: it is the only one that does. */
  ghost predicate AskedBy(w: World, x: Mailbox, m: Message) {
    w.bag[m] == 1 && w.handed[x] == 1 && w.readies[x] == 0 && forall n :: Relays(w.bag, n, x) ==> n == m
  }

  lemma AsksToMakeWay(w: World, m: Message, choice: Choice, x: Mailbox, n: Message)
    requires Inv(w) && m in w.bag && choice.child !in w.entities && IsAccount(w, x)
    requires Handle(w, m, choice).sent == [n] && x in RelayFrom(n)
    ensures AskedBy(DeliverStep(w, m, choice), x, n)
  {
    var w' := DeliverStep(w, m, choice);
    hide Handle, RolesAreRoles, OnlyGiven, Carries, RelayFrom;
    KindsStay(w, Deliver(m, choice), x);
    assert HandedOnce(w, x) && OneToken(w, x);
    StepHandsOnce(w, Deliver(m, choice), x);
    assert Relays(w'.bag, n, x);
  }

  /** The account `x` has been asked to make way, and will not be asked again. */
  ghost predicate MadeWay(w: World, x: Mailbox) {
    w.handed[x] == 1 && w.readies[x] == 1 && forall n :: !Relays(w.bag, n, x)
  }

  lemma MakesWay(w: World, m: Message, choice: Choice)
    requires Inv(w) && m in w.bag && choice.child !in w.entities && m.OnRelayReady? && IsAccount(w, m.to)
    ensures w.readies[m.to] == 0 && MadeWay(DeliverStep(w, m, choice), m.to)
  {
    var x, w' := m.to, DeliverStep(w, m, choice);
    hide Handle, RolesAreRoles, OnlyGiven, Carries;
    KindsStay(w, Deliver(m, choice), x);
    assert HandedOnce(w, x) && OneToken(w, x);
    StepHandsOnce(w, Deliver(m, choice), x);
    assert Relays(w.bag, m, x);
    assert w'.readies[x] == w.readies[x] + 1;
  }

  /** A role entity asks for its role, once. */
  ghost predicate AsksOnce(w: World, x: Mailbox, m: Message) {
    IsRole(w, x) && w.bag[m] == 1 && forall n :: n in w.bag && n.RegisterRole? && n.mailbox == x ==> n == m
  }

  lemma ChildAsks(w: World, m: Message, choice: Choice, n: Message)
    requires Inv(w) && m in w.bag && choice.child !in w.entities
    requires Handle(w, m, choice).sent == [n] && n.RegisterRole? && n.mailbox == choice.child
    requires choice.child in Handle(w, m, choice).entities
    requires Handle(w, m, choice).entities[choice.child].RoleEntity?
    ensures AsksOnce(DeliverStep(w, m, choice), choice.child, n)
  {
    hide Handle, OnlyGiven, OneToken, HandedOnce;
    assert n !in w.bag;
  }

  /** A role entity that is named has been told that it has its role. */
  lemma NamedIsGiven(w: World, m: Message, choice: Choice)
    requires Inv(w) && m in w.bag && choice.child !in w.entities
    ensures forall y :: y in Named(m) ==> Relayable(DeliverStep(w, m, choice), y)
  {
    hide RolesAreRoles, OneToken, HandedOnce, Given, Plays, Asks, DeliverStep, Relayable, Named;
    forall y | y in Named(m)
      ensures Relayable(DeliverStep(w, m, choice), y)
    {
      DeliverKeepsRole(w, m, choice, y);
      KeptRelayable(w, DeliverStep(w, m, choice), y);
    }
  }

  // ----- the entities -----

  class RollStub {
    const net: Network
    var account2Mailbox: map<AccountId, Mailbox>
    var role2Mailbox: map<RoleId, Mailbox>

    ghost function View(): Stub
      reads this
    {
      Stub(account2Mailbox, role2Mailbox)
    }

    ghost predicate Valid()
      reads this, net
    {
      net.Valid() && View() == net.world.stub
    }

    /** `clean_up` */
    constructor (net: Network)
      requires net.Valid() && net.events == []
      ensures Valid() && this.net == net && View() == Stub(map[], map[])
    {
      this.net := net;
      account2Mailbox, role2Mailbox := map[], map[];
    }

    /** The map holds exactly the mailbox told that it has the role. */
    lemma OwnersAreHolders(role: RoleId)
      requires Valid()
      ensures net.HoldersOf(role) == Owner(View(), role)
    {
      hide IsRun, After, Inv, Owner, Holders;
      HolderIsOwner(net.events, role);
    }

    lemma AllOwnersAreHolders()
      requires Valid()
      ensures forall role :: net.HoldersOf(role) == Owner(View(), role)
    {
      forall role
        ensures net.HoldersOf(role) == Owner(View(), role)
      {
        OwnersAreHolders(role);
      }
    }

    /** An account that was on record is handed to the newcomer alone, and leaves the record. */
    method RegisterAccount(account: AccountId, mailbox: Mailbox) returns (sent: seq<Message>)
      requires Valid() && Message.RegisterAccount(account, mailbox) in net.world.bag
      modifies this, net
      ensures Valid() && net.world.entities == old(net.world.entities)
      ensures (View(), sent) == StubRegisterAccount(old(View()), account, mailbox)
      ensures account2Mailbox == old(account2Mailbox)[account := mailbox] && role2Mailbox == old(role2Mailbox)
      ensures account !in old(account2Mailbox) ==> sent == [OnRegisterAccount(mailbox, true, mailbox)]
      ensures Delivered(old(net.world), net.world, Message.RegisterAccount(account, mailbox), sent)
      ensures IsAccount(net.world, mailbox)
      ensures forall a :: a in account2Mailbox && account2Mailbox[a] == mailbox ==> a == account
      ensures account in old(account2Mailbox) ==>
                var before := old(account2Mailbox)[account];
                && sent == [OnRegisterAccount(mailbox, false, before)]
                && (IsAccount(net.world, before) ==>
                      old(net.world.handed[before]) == 0 && HandedOver(net.world, before))
      ensures forall role :: net.HoldersOf(role) == old(net.HoldersOf(role))
    {
      hide IsRun, After, Inv, DeliverStep, Holders;
      AllOwnersAreHolders();
      ghost var w, m, choice := net.world, Message.RegisterAccount(account, mailbox), NoChoice(net.world);
      StubTurn(w, m, choice);
      HandsOver(w, m, choice);
      if account !in account2Mailbox {
        account2Mailbox := account2Mailbox[account := mailbox];
        sent := [OnRegisterAccount(mailbox, true, mailbox)];
      } else {
        var oldMailbox := account2Mailbox[account];
        sent := [OnRegisterAccount(mailbox, false, oldMailbox)];
        account2Mailbox := account2Mailbox[account := mailbox];
      }
      net.Deliver(m, choice);
      AllOwnersAreHolders();
      assert forall a :: a in account2Mailbox && account2Mailbox[a] == mailbox ==> OnRecord(net.world, a, mailbox);
    }

    method UnregisterAccount(account: AccountId)
      requires Valid() && Message.UnregisterAccount(account) in net.world.bag
      modifies this, net
      ensures Valid() && net.world.entities == old(net.world.entities)
      ensures View() == StubUnregisterAccount(old(View()), account)
      ensures account2Mailbox == old(account2Mailbox) - {account} && role2Mailbox == old(role2Mailbox)
      ensures Delivered(old(net.world), net.world, Message.UnregisterAccount(account), [])
      ensures forall role :: net.HoldersOf(role) == old(net.HoldersOf(role))
    {
      hide IsRun, After, Inv, DeliverStep, Holders;
      AllOwnersAreHolders();
      ghost var m, choice := Message.UnregisterAccount(account), NoChoice(net.world);
      StubTurn(net.world, m, choice);
      if account in account2Mailbox {
        account2Mailbox := account2Mailbox - {account};
      }
      net.Deliver(m, choice);
      AllOwnersAreHolders();
    }

    /** The role is given if and only if the account is on record and nobody has been told
        that they have the role since it was last unregistered. */
    method RegisterRole(account: AccountId, role: RoleId, mailbox: Mailbox) returns (sent: seq<Message>)
      requires Valid() && Message.RegisterRole(account, role, mailbox) in net.world.bag
      modifies this, net
      ensures Valid() && net.world.entities == old(net.world.entities)
      ensures (View(), sent) == StubRegisterRole(old(View()), account, role, mailbox)
      ensures sent == [OnRegisterRole(mailbox, true)] ==> account2Mailbox == old(account2Mailbox)[account := mailbox]
      ensures sent != [OnRegisterRole(mailbox, true)] ==> account2Mailbox == old(account2Mailbox)
      ensures Delivered(old(net.world), net.world, Message.RegisterRole(account, role, mailbox), sent)
      ensures var ok := account in old(account2Mailbox) && old(net.HoldersOf(role)) == [];
        && sent == [OnRegisterRole(mailbox, ok)]
        && net.HoldersOf(role) == (if ok then [mailbox] else old(net.HoldersOf(role)))
        && (ok ==> Given(net.world, mailbox))
      ensures forall r :: r != role ==> net.HoldersOf(r) == old(net.HoldersOf(r))
      ensures forall r :: net.HoldersOf(r) == Owner(View(), r)
    {
      hide IsRun, After, Inv, DeliverStep, Holders, Given;
      AllOwnersAreHolders();
      ghost var w, m, choice := net.world, Message.RegisterRole(account, role, mailbox), NoChoice(net.world);
      StubTurn(w, m, choice);
      var success := false;
      if account !in account2Mailbox {
      } else if role in role2Mailbox {
      } else {
        success := true;
        account2Mailbox := account2Mailbox[account := mailbox];
        role2Mailbox := role2Mailbox[role := mailbox];
        GivenNow(w, m, choice);
      }
      sent := [OnRegisterRole(mailbox, success)];
      net.Deliver(m, choice);
      AllOwnersAreHolders();
    }

    method UnregisterRole(account: AccountId, role: RoleId)
      requires Valid() && Message.UnregisterRole(account, role) in net.world.bag
      modifies this, net
      ensures Valid() && net.world.entities == old(net.world.entities)
      ensures View() == StubUnregisterRole(old(View()), account, role)
      ensures account2Mailbox == old(account2Mailbox) - {account}
      ensures Delivered(old(net.world), net.world, Message.UnregisterRole(account, role), [])
      ensures net.HoldersOf(role) == []
      ensures forall r :: r != role ==> net.HoldersOf(r) == old(net.HoldersOf(r))
    {
      hide IsRun, After, Inv, DeliverStep, Holders;
      AllOwnersAreHolders();
      ghost var m, choice := Message.UnregisterRole(account, role), NoChoice(net.world);
      StubTurn(net.world, m, choice);
      if account in account2Mailbox {
        account2Mailbox := account2Mailbox - {account};
      }
      if role in role2Mailbox {
        role2Mailbox := role2Mailbox - {role};
      }
      net.Deliver(m, choice);
      AllOwnersAreHolders();
    }

    /** Whoever asks, the role stays where it is; only its holder, by port and entity, is
        not kicked, and then it is the holder that comes on record for the account. */
    method UpdateByRelay(account: AccountId, role: RoleId, mailbox: Mailbox) returns (sent: seq<Message>)
      requires Valid() && Message.UpdateByRelay(account, role, mailbox) in net.world.bag
      modifies this, net
      ensures Valid() && net.world.entities == old(net.world.entities)
      ensures (View(), sent) == StubUpdateByRelay(old(View()), account, role, mailbox)
      ensures forall a :: a != account ==> (a in account2Mailbox <==> a in old(account2Mailbox))
      ensures forall a :: a != account && a in account2Mailbox ==> account2Mailbox[a] == old(account2Mailbox)[a]
      ensures Delivered(old(net.world), net.world, Message.UpdateByRelay(account, role, mailbox), sent)
      ensures forall r :: net.HoldersOf(r) == old(net.HoldersOf(r))
      ensures var holders := net.HoldersOf(role);
        if |holders| == 1 && holders[0].port == mailbox.port && holders[0].entity == mailbox.entity then
          sent == [] && account in account2Mailbox && account2Mailbox[account] == holders[0]
        else
          |holders| <= 1 && account2Mailbox == old(account2Mailbox)
          && sent == [KickRole(mailbox)] + if |holders| == 1 then [KickRole(holders[0])] else []
    {
      hide IsRun, After, Inv, DeliverStep, Holders;
      AllOwnersAreHolders();
      ghost var m, choice := Message.UpdateByRelay(account, role, mailbox), NoChoice(net.world);
      StubTurn(net.world, m, choice);
      if role !in role2Mailbox {
        sent := [KickRole(mailbox)];
      } else {
        var current := role2Mailbox[role];
        if current.port != mailbox.port || current.entity != mailbox.entity {
          sent := [KickRole(mailbox), KickRole(current)];
        } else {
          account2Mailbox := account2Mailbox[account := current];
          sent := [];
        }
      }
      net.Deliver(m, choice);
      AllOwnersAreHolders();
    }
  }

  lemma GivenNow(w: World, m: Message, choice: Choice)
    requires Inv(w) && m in w.bag && choice.child !in w.entities && m.RegisterRole?
    requires HandleByStub(w, m).sent == [OnRegisterRole(m.mailbox, true)]
    ensures Given(DeliverStep(w, m, choice), m.mailbox)
  {
    hide DeliverStep, Given;
    ReplyGives(w, m, choice);
  }

  class AccountEntity {
    const net: Network
    const self: Mailbox
    var accountId: AccountId
    var roleId: RoleId
    var destroyed: bool

    ghost function View(): Account
      reads this
    {
      Account(accountId, roleId, destroyed)
    }

    ghost predicate Valid()
      reads this, net
    {
      net.Valid() && IsAccount(net.world, self) && net.world.entities[self].a == View()
    }

    constructor (net: Network, self: Mailbox)
      requires net.Valid() && self !in net.world.entities
      modifies net
      ensures Valid() && this.net == net && this.self == self && !destroyed
      ensures OnlyChanges(old(net.world), net.world, self)
    {
      this.net, this.self := net, self;
      destroyed := false;
      new;
      net.Note(SpawnAccount(self, accountId, roleId));
    }

    /** `login` */
    method Login() returns (sent: seq<Message>)
      requires Valid() && !LoggedIn(net.world, self)
      modifies net
      ensures Valid() && OnlyChanges(old(net.world), net.world, self)
      ensures sent == [LoadAccount(self)] && CarriedBy(net.world, self, sent[0])
    {
      hide IsRun, After, Inv;
      sent := [LoadAccount(self)];
      LoginCarried(net.world, self);
      net.Note(Event.Login(self));
    }

    method OnLoadAccountCallback(row: AccountRow) returns (sent: seq<Message>)
      requires Valid() && LoadAccount(self) in net.world.bag
      modifies this, net
      ensures Valid() && OnlyChanges(old(net.world), net.world, self)
      ensures (View(), sent) == AccountLoaded(old(View()), self, row)
      ensures row.QueryFailed? ==> sent == [] && accountId == old(accountId) && roleId == old(roleId)
      ensures row.NoRow? ==> sent == [SaveAccount(self)] && accountId == 1 && roleId == 1
      ensures row.Row? ==>
                sent == [Message.RegisterAccount(row.account, self)] && accountId == row.account && roleId == row.role
      ensures destroyed == old(destroyed) && Delivered(old(net.world), net.world, LoadAccount(self), sent)
      ensures if sent == [] then Over(net.world, self) && net.world.loads[self] == 0
              else |sent| == 1 && CarriedBy(net.world, self, sent[0])
    {
      hide IsRun, After, Inv, DeliverStep, Handle, Over, CarriedBy;
      ghost var w, m, choice := net.world, LoadAccount(self), NoChoice(net.world).(row := row);
      AccountTurn(w, m, choice);
      if row.QueryFailed? {
        sent := [];
        EndsHere(w, m, choice, self);
      } else {
        if row.NoRow? {
          accountId := 1;
          roleId := 1;
          sent := [SaveAccount(self)];
        } else {
          accountId := row.account;
          roleId := row.role;
          sent := SendRegister();
        }
        CarriesOn(w, m, choice, self, sent[0]);
      }
      net.Deliver(m, choice);
    }

    /** `register_account` */
    method SendRegister() returns (sent: seq<Message>)
      ensures sent == [Message.RegisterAccount(accountId, self)]
    {
      sent := [Message.RegisterAccount(accountId, self)];
    }

    /** The callback of `create_account`. */
    method OnSaveAccountCallback(ok: bool) returns (sent: seq<Message>)
      requires Valid() && SaveAccount(self) in net.world.bag
      modifies net
      ensures Valid() && OnlyChanges(old(net.world), net.world, self)
      ensures sent == AccountSaved(View(), self, ok)
      ensures sent == if ok then [Message.RegisterAccount(accountId, self)] else []
      ensures Delivered(old(net.world), net.world, SaveAccount(self), sent)
      ensures if sent == [] then Over(net.world, self) && net.world.loads[self] == 0
              else |sent| == 1 && CarriedBy(net.world, self, sent[0])
    {
      hide IsRun, After, Inv, DeliverStep, Handle, Over, CarriedBy;
      ghost var w, m, choice := net.world, SaveAccount(self), NoChoice(net.world).(ok := ok);
      AccountTurn(w, m, choice);
      if ok {
        sent := SendRegister();
        CarriesOn(w, m, choice, self, sent[0]);
      } else {
        sent := [];
        EndsHere(w, m, choice, self);
      }
      net.Deliver(m, choice);
    }

    /** Registered directly, the account starts to load its role, for the first and last
        time; otherwise it asks the account before it, which nobody else asks, to make way. */
    method OnRegisterAccount(status: bool, mailbox: Mailbox) returns (sent: seq<Message>)
      requires Valid() && Message.OnRegisterAccount(self, status, mailbox) in net.world.bag
      modifies net
      ensures Valid() && OnlyChanges(old(net.world), net.world, self)
      ensures sent == AccountRegistered(self, status, mailbox)
      ensures sent == if status then [LoadRole(self)] else [Message.OnRelayReady(mailbox, self)]
      ensures Delivered(old(net.world), net.world, Message.OnRegisterAccount(self, status, mailbox), sent)
      ensures status ==> old(net.world.loads[self]) == 0 && net.world.loads[self] == 1 && Over(net.world, self)
      ensures !status ==> CarriedBy(net.world, self, sent[0])
      ensures !status && IsAccount(net.world, mailbox) ==> AskedBy(net.world, mailbox, sent[0])
    {
      hide IsRun, After, Inv, DeliverStep, Handle, Over, CarriedBy, AskedBy;
      ghost var w, m, choice := net.world, Message.OnRegisterAccount(self, status, mailbox), NoChoice(net.world);
      AccountTurn(w, m, choice);
      if status {
        sent := [LoadRole(self)];
        LoadsNow(w, m, choice, self);
      } else {
        sent := [Message.OnRelayReady(mailbox, self)];
        CarriesOn(w, m, choice, self, sent[0]);
        if IsAccount(w, mailbox) {
          AsksToMakeWay(w, m, choice, mailbox, sent[0]);
        }
      }
      net.Deliver(m, choice);
    }

    /** Asked to make way for the first time, and not again; the successor's login goes on. */
    method OnRelayReady(mailbox: Mailbox) returns (sent: seq<Message>)
      requires Valid() && Message.OnRelayReady(self, mailbox) in net.world.bag
      modifies this, net
      ensures Valid() && OnlyChanges(old(net.world), net.world, self)
      ensures (View(), sent) == AccountRelayReady(old(View()), mailbox)
      ensures destroyed && accountId == old(accountId) && roleId == old(roleId)
      ensures sent == [Message.OnRelayLogin(mailbox)]
      ensures Delivered(old(net.world), net.world, Message.OnRelayReady(self, mailbox), sent)
      ensures old(net.world.readies[self]) == 0 && MadeWay(net.world, self)
      ensures CarriedBy(net.world, mailbox, sent[0])
    {
      hide IsRun, After, Inv, DeliverStep, Handle, CarriedBy, MadeWay;
      ghost var w, m, choice := net.world, Message.OnRelayReady(self, mailbox), NoChoice(net.world);
      AccountTurn(w, m, choice);
      sent := [Message.OnRelayLogin(mailbox)];
      CarriesOn(w, m, choice, mailbox, sent[0]);
      MakesWay(w, m, choice);
      destroyed := true;
      net.Deliver(m, choice);
    }

    /** The login goes over to a role entity that has its role; the account never loads it. */
    method OnWaitLogin(mailbox: Mailbox) returns (sent: seq<Message>)
      requires Valid() && Message.OnWaitLogin(self, mailbox) in net.world.bag
      modifies this, net
      ensures Valid() && OnlyChanges(old(net.world), net.world, self)
      ensures (View(), sent) == AccountWaitLogin(old(View()), mailbox)
      ensures destroyed && accountId == old(accountId) && roleId == old(roleId)
      ensures sent == [OnRelayLoginWithProxy(mailbox)]
      ensures Delivered(old(net.world), net.world, Message.OnWaitLogin(self, mailbox), sent)
      ensures Over(net.world, self) && net.world.loads[self] == 0 && Relayable(net.world, mailbox)
    {
      hide IsRun, After, Inv, DeliverStep, Handle, Over, Relayable;
      ghost var w, m, choice := net.world, Message.OnWaitLogin(self, mailbox), NoChoice(net.world);
      AccountTurn(w, m, choice);
      NamedIsGiven(w, m, choice);
      sent := [OnRelayLoginWithProxy(mailbox)];
      EndsHere(w, m, choice, self);
      destroyed := true;
      net.Deliver(m, choice);
    }

    /** Let in by relay, the account starts to load its role, for the first and last time,
        unless it has been destroyed. */
    method OnRelayLogin() returns (sent: seq<Message>)
      requires Valid() && Message.OnRelayLogin(self) in net.world.bag
      modifies net
      ensures Valid() && OnlyChanges(old(net.world), net.world, self)
      ensures sent == AccountRelayLogin(View(), self)
      ensures sent == if destroyed then [] else [LoadRole(self)]
      ensures Delivered(old(net.world), net.world, Message.OnRelayLogin(self), sent)
      ensures old(net.world.loads[self]) == 0 && Over(net.world, self)
      ensures net.world.loads[self] == if destroyed then 0 else 1
    {
      hide IsRun, After, Inv, DeliverStep, Handle, Over;
      ghost var w, m, choice := net.world, Message.OnRelayLogin(self), NoChoice(net.world);
      AccountTurn(w, m, choice);
      TokenLoads(w, m, self);
      if destroyed {
        sent := [];
        EndsHere(w, m, choice, self);
      } else {
        sent := [LoadRole(self)];
        LoadsNow(w, m, choice, self);
      }
      net.Deliver(m, choice);
    }

    /** With a role found, one role entity is made, and it asks for its role once. */
    method OnLoadRoleCallback(row: RoleRow, child: Mailbox) returns (sent: seq<Message>, role: RoleEntity?)
      requires Valid() && LoadRole(self) in net.world.bag && child !in net.world.entities
      modifies this, net
      ensures Valid() && OnlyChanges(old(net.world), net.world, self)
      ensures (View(), sent) == AccountRoleLoaded(old(View()), row, child)
      ensures accountId == old(accountId) && roleId == old(roleId)
      ensures Delivered(old(net.world), net.world, LoadRole(self), sent)
      ensures old(destroyed) ==> sent == [] && destroyed
      ensures !old(destroyed) && row.RoleQueryFailed? ==> sent == [Message.UnregisterAccount(accountId)] && destroyed
      ensures !old(destroyed) && row.NoRole? ==> sent == [] && !destroyed
      ensures !old(destroyed) && row.RoleFound? ==>
                sent == [Message.RegisterRole(accountId, roleId, child)] && destroyed
      ensures role != null <==> row.RoleFound? && !old(destroyed)
      ensures role != null ==> fresh(role) && role.net == net && role.Valid() && role.self == child
                               && role.View() == Role(accountId, roleId, Invalid)
                               && AsksOnce(net.world, child, sent[0])
    {
      hide IsRun, After, Inv, DeliverStep, Handle, AsksOnce;
      ghost var w, m, choice := net.world, LoadRole(self), NoChoice(net.world).(roleRow := row, child := child);
      AccountTurn(w, m, choice);
      role := null;
      sent := [];
      if !destroyed {
        match row {
          case RoleQueryFailed => sent := Unregister();
          case NoRole =>
          case RoleFound =>
            role, sent := OnLoginSuccess(child);
            ChildAsks(w, m, choice, sent[0]);
        }
      }
      net.Deliver(m, choice);
    }

    /** `on_login_success` */
    method OnLoginSuccess(child: Mailbox) returns (role: RoleEntity, sent: seq<Message>)
      modifies `destroyed
      ensures fresh(role) && role.net == net && role.self == child
      ensures role.View() == Role(accountId, roleId, Invalid)
      ensures sent == [Message.RegisterRole(accountId, roleId, child)]
      ensures destroyed
    {
      role := new RoleEntity(net, child, accountId, roleId);
      sent := role.SendRegister();
      destroyed := true;
    }

    /** The callback of `create_role`, which does not ask whether the account is destroyed. */
    method OnSaveRoleCallback(ok: bool, child: Mailbox) returns (sent: seq<Message>, role: RoleEntity?)
      requires Valid() && SaveRole(self) in net.world.bag && child !in net.world.entities
      modifies this, net
      ensures Valid() && OnlyChanges(old(net.world), net.world, self)
      ensures (View(), sent) == AccountRoleSaved(old(View()), ok, child)
      ensures accountId == old(accountId) && roleId == old(roleId) && destroyed
      ensures Delivered(old(net.world), net.world, SaveRole(self), sent)
      ensures sent == if ok then [Message.RegisterRole(accountId, roleId, child)]
                      else [Message.UnregisterAccount(accountId)]
      ensures role != null <==> ok
      ensures role != null ==> fresh(role) && role.net == net && role.Valid() && role.self == child
                               && role.View() == Role(accountId, roleId, Invalid)
                               && AsksOnce(net.world, child, sent[0])
    {
      hide IsRun, After, Inv, DeliverStep, Handle, AsksOnce;
      ghost var w, m, choice := net.world, SaveRole(self), NoChoice(net.world).(ok := ok, child := child);
      AccountTurn(w, m, choice);
      role := null;
      if ok {
        role, sent := OnLoginSuccess(child);
        ChildAsks(w, m, choice, sent[0]);
      } else {
        sent := Unregister();
      }
      net.Deliver(m, choice);
    }

    method DisconnectClient() returns (sent: seq<Message>)
      requires Valid()
      modifies this, net
      ensures Valid() && OnlyChanges(old(net.world), net.world, self)
      ensures (View(), sent) == AccountDisconnect(old(View()))
      ensures destroyed && accountId == old(accountId) && roleId == old(roleId)
      ensures sent == if old(destroyed) then [] else [Message.UnregisterAccount(accountId)]
      ensures net.world.bag == old(net.world.bag) + multiset(sent)
    {
      hide IsRun, After, Inv;
      if destroyed {
        sent := [];
      } else {
        sent := Unregister();
      }
      net.Note(ClientDisconnects(self));
    }

    /** `unregister_account` */
    method Unregister() returns (sent: seq<Message>)
      modifies `destroyed
      ensures (View(), sent) == AccountUnregister(old(View()))
    {
      sent := [Message.UnregisterAccount(accountId)];
      destroyed := true;
    }
  }

  lemma LoginCarried(w: World, x: Mailbox)
    requires Inv(w) && Enabled(w, Event.Login(x))
    ensures CarriedBy(Step(w, Event.Login(x)), x, LoadAccount(x))
  {
    hide RolesAreRoles, OnlyGiven, HandedOnce;
    assert OneToken(w, x);
    StepKeepsToken(w, Event.Login(x), x);
    assert Carries(Step(w, Event.Login(x)).bag, LoadAccount(x), x);
  }

  lemma TokenLoads(w: World, m: Message, x: Mailbox)
    requires Inv(w) && m in w.bag && x in TokenOf(m)
    ensures w.loads[x] == 0
  {
    hide RolesAreRoles, OnlyGiven, HandedOnce;
    assert OneToken(w, x);
    TokenIsLive(w, m, x);
  }

  class RoleEntity {
    const net: Network
    const self: Mailbox
    const accountId: AccountId
    const roleId: RoleId
    var status: RoleStatus

    ghost function View(): Role
      reads this
    {
      Role(accountId, roleId, status)
    }

    ghost predicate Valid()
      reads this, net
    {
      net.Valid() && IsRole(net.world, self) && net.world.entities[self].r == View()
    }

    constructor (net: Network, self: Mailbox, accountId: AccountId, roleId: RoleId)
      ensures this.net == net && this.self == self && View() == Role(accountId, roleId, Invalid)
    {
      this.net, this.self, this.accountId, this.roleId := net, self, accountId, roleId;
      status := Invalid;
    }

    /** `register_role` */
    method SendRegister() returns (sent: seq<Message>)
      ensures sent == [Message.RegisterRole(accountId, roleId, self)]
    {
      sent := [Message.RegisterRole(accountId, roleId, self)];
    }

    /** A role that is played has been given by the stub. */
    lemma PlayedIsGivenHere()
      requires Valid() && (status == Normal || status == Relay)
      ensures Given(net.world, self)
    {
      hide RolesAreRoles, OneToken, HandedOnce, IsRun, After, Given;
      assert Plays(net.world, self);
    }

    /** Only a role entity that has its role is asked to make way; the successor's login
        is then carried by this answer alone. */
    method OnRelayReady(mailbox: Mailbox) returns (sent: seq<Message>)
      requires Valid() && Message.OnRelayReady(self, mailbox) in net.world.bag
      modifies this, net
      ensures Valid() && OnlyChanges(old(net.world), net.world, self)
      ensures (View(), sent) == RoleRelayReady(old(View()), self, mailbox)
      ensures status == Relay && sent == [OnWaitLogin(mailbox, self)]
      ensures Delivered(old(net.world), net.world, Message.OnRelayReady(self, mailbox), sent)
      ensures Given(net.world, self) && CarriedBy(net.world, mailbox, sent[0])
    {
      hide IsRun, After, Inv, DeliverStep, Handle, CarriedBy, Given;
      ghost var w, m, choice := net.world, Message.OnRelayReady(self, mailbox), NoChoice(net.world);
      RoleTurn(w, m, choice);
      status := Relay;
      sent := [OnWaitLogin(mailbox, self)];
      CarriesOn(w, m, choice, mailbox, sent[0]);
      net.Deliver(m, choice);
      PlayedIsGivenHere();
    }

    method OnRelayLogin() returns (sent: seq<Message>)
      requires Valid() && OnRelayLoginWithProxy(self) in net.world.bag
      modifies this, net
      ensures Valid() && OnlyChanges(old(net.world), net.world, self)
      ensures (View(), sent) == RoleRelayLogin(old(View()), self)
      ensures status == Normal && sent == [UpdateByRelay(accountId, roleId, self)]
      ensures Delivered(old(net.world), net.world, OnRelayLoginWithProxy(self), sent)
      ensures Given(net.world, self)
    {
      hide IsRun, After, Inv, DeliverStep, Handle, Given;
      ghost var w, m, choice := net.world, OnRelayLoginWithProxy(self), NoChoice(net.world);
      RoleTurn(w, m, choice);
      status := Normal;
      sent := [UpdateByRelay(accountId, roleId, self)];
      net.Deliver(m, choice);
      PlayedIsGivenHere();
    }

    method OnRegisterRole(ok: bool)
      requires Valid() && Message.OnRegisterRole(self, ok) in net.world.bag
      modifies this, net
      ensures Valid() && OnlyChanges(old(net.world), net.world, self)
      ensures View() == RoleRegistered(old(View()), ok)
      ensures status == if ok && old(status) != Disconnect then Normal else old(status)
      ensures Delivered(old(net.world), net.world, Message.OnRegisterRole(self, ok), [])
      ensures ok || status == Normal ==> Given(net.world, self)
    {
      hide IsRun, After, Inv, DeliverStep, Handle, Given;
      ghost var w, m, choice := net.world, Message.OnRegisterRole(self, ok), NoChoice(net.world);
      RoleTurn(w, m, choice);
      NamedIsGiven(w, m, choice);
      assert ok ==> self in Named(m);
      if ok {
        if status == Disconnect {
          Logout(true);
        } else {
          status := Normal;
        }
      } else {
        Logout(false);
      }
      net.Deliver(m, choice);
      if status == Normal {
        PlayedIsGivenHere();
      }
    }

    method DisconnectClient()
      requires Valid()
      modifies this, net
      ensures Valid() && OnlyChanges(old(net.world), net.world, self)
      ensures View() == RoleDisconnect(old(View()))
      ensures status == if old(status) == Normal then Normal else Disconnect
      ensures net.world.bag == old(net.world.bag)
    {
      hide IsRun, After, Inv;
      if status == Normal {
        Logout(true);
      } else {
        status := Disconnect;
      }
      net.Note(ClientDisconnects(self));
    }

    /** `logout`: nothing in its body takes effect. */
    method Logout(needUnregister: bool)
      ensures View() == old(View())
    {
    }
  }
}
