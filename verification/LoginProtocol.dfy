/** The messages and handlers of the login and relay protocol (game/src/roll_stub.cpp,
    account.cpp, role.cpp): each handler as a function from the state of its entity
    to the new state and the messages it sends. */
module LoginProtocol {
  type AccountId = nat
  type RoleId = nat

  /** `mailbox_info`: where an entity can be called. */
  datatype Mailbox = Mailbox(ip: nat, port: nat, entity: nat)

  datatype Message =
    // to the stub
    | RegisterAccount(account: AccountId, mailbox: Mailbox)
    | UnregisterAccount(account: AccountId)
    | RegisterRole(account: AccountId, role: RoleId, mailbox: Mailbox)
    | UnregisterRole(account: AccountId, role: RoleId)
    | UpdateByRelay(account: AccountId, role: RoleId, mailbox: Mailbox)
    // to an account entity
    | OnRegisterAccount(to: Mailbox, status: bool, mailbox: Mailbox)
    | OnRelayLogin(to: Mailbox)
    | OnWaitLogin(to: Mailbox, mailbox: Mailbox)
    // to an account or a role entity
    | OnRelayReady(to: Mailbox, mailbox: Mailbox)
    // to a role entity; on_relay_login carries the client's proxy here
    | OnRelayLoginWithProxy(to: Mailbox)
    | OnRegisterRole(to: Mailbox, status: bool)
    | KickRole(to: Mailbox)
    // database queries under way, answered by a callback
    | LoadAccount(to: Mailbox)
    | SaveAccount(to: Mailbox)
    | LoadRole(to: Mailbox)
    | SaveRole(to: Mailbox)

  // ----- the stub -----

  datatype Stub = Stub(accounts: map<AccountId, Mailbox>, roles: map<RoleId, Mailbox>)

  function StubRegisterAccount(s: Stub, account: AccountId, mailbox: Mailbox): (Stub, seq<Message>) {
    if account !in s.accounts then
      (s.(accounts := s.accounts[account := mailbox]), [OnRegisterAccount(mailbox, true, mailbox)])
    else
      (s.(accounts := s.accounts[account := mailbox]), [OnRegisterAccount(mailbox, false, s.accounts[account])])
  }

  function StubUnregisterAccount(s: Stub, account: AccountId): Stub {
    s.(accounts := s.accounts - {account})
  }

  function StubRegisterRole(s: Stub, account: AccountId, role: RoleId, mailbox: Mailbox): (Stub, seq<Message>) {
    if account !in s.accounts || role in s.roles then (s, [OnRegisterRole(mailbox, false)])
    else
      (Stub(s.accounts[account := mailbox], s.roles[role := mailbox]), [OnRegisterRole(mailbox, true)])
  }

  function StubUnregisterRole(s: Stub, account: AccountId, role: RoleId): Stub {
    Stub(s.accounts - {account}, s.roles - {role})
  }

  function StubUpdateByRelay(s: Stub, account: AccountId, role: RoleId, mailbox: Mailbox): (Stub, seq<Message>) {
    if role !in s.roles then (s, [KickRole(mailbox)])
    else
      var current := s.roles[role];
      if current.port != mailbox.port || current.entity != mailbox.entity then
        (s, [KickRole(mailbox), KickRole(current)])
      else (s.(accounts := s.accounts[account := current]), [])
  }

  // ----- an account entity -----

  datatype Account = Account(account: AccountId, role: RoleId, destroyed: bool)

  /** `unregister_account` */
  function AccountUnregister(a: Account): (Account, seq<Message>) {
    (a.(destroyed := true), [UnregisterAccount(a.account)])
  }

  /** What the account query found. */
  datatype AccountRow = QueryFailed | NoRow | Row(account: AccountId, role: RoleId)

  /** `on_load_account_callback`, with `create_account` when there is no row. */
  function AccountLoaded(a: Account, self: Mailbox, row: AccountRow): (Account, seq<Message>) {
    match row
    case QueryFailed => (a, [])
    case NoRow => (a.(account := 1, role := 1), [SaveAccount(self)])
    case Row(account, role) => (a.(account := account, role := role), [RegisterAccount(account, self)])
  }

  /** The callback of `create_account`. */
  function AccountSaved(a: Account, self: Mailbox, ok: bool): seq<Message> {
    if ok then [RegisterAccount(a.account, self)] else []
  }

  /** `on_register_account` */
  function AccountRegistered(self: Mailbox, status: bool, mailbox: Mailbox): seq<Message> {
    if status then [LoadRole(self)] else [OnRelayReady(mailbox, self)]
  }

  /** `account::on_relay_ready` */
  function AccountRelayReady(a: Account, mailbox: Mailbox): (Account, seq<Message>) {
    (a.(destroyed := true), [OnRelayLogin(mailbox)])
  }

  /** `on_wait_login` */
  function AccountWaitLogin(a: Account, mailbox: Mailbox): (Account, seq<Message>) {
    (a.(destroyed := true), [OnRelayLoginWithProxy(mailbox)])
  }

  /** `account::on_relay_login` */
  function AccountRelayLogin(a: Account, self: Mailbox): seq<Message> {
    if a.destroyed then [] else [LoadRole(self)]
  }

  /** What the role query found. */
  datatype RoleRow = RoleQueryFailed | NoRole | RoleFound

  /** `on_load_role_callback`; with a role found, `on_login_success` creates the role
      entity `child`, which registers itself. */
  function AccountRoleLoaded(a: Account, row: RoleRow, child: Mailbox): (Account, seq<Message>) {
    if a.destroyed then (a, [])
    else match row
      case RoleQueryFailed => AccountUnregister(a)
      case NoRole => (a, [])
      case RoleFound => (a.(destroyed := true), [RegisterRole(a.account, a.role, child)])
  }

  /** The callback of `create_role`. */
  function AccountRoleSaved(a: Account, ok: bool, child: Mailbox): (Account, seq<Message>) {
    if ok then (a.(destroyed := true), [RegisterRole(a.account, a.role, child)]) else AccountUnregister(a)
  }

  /** `account::disconnect_client` */
  function AccountDisconnect(a: Account): (Account, seq<Message>) {
    if a.destroyed then (a, []) else AccountUnregister(a)
  }

  // ----- a role entity -----

  datatype RoleStatus = Invalid | Normal | Relay | Disconnect

  datatype Role = Role(account: AccountId, role: RoleId, status: RoleStatus)

  /** `role::on_relay_ready` */
  function RoleRelayReady(r: Role, self: Mailbox, mailbox: Mailbox): (Role, seq<Message>) {
    (r.(status := Relay), [OnWaitLogin(mailbox, self)])
  }

  /** `role::on_relay_login` */
  function RoleRelayLogin(r: Role, self: Mailbox): (Role, seq<Message>) {
    (r.(status := Normal), [UpdateByRelay(r.account, r.role, self)])
  }

  /** `on_register_role`; `logout` has no effect. */
  function RoleRegistered(r: Role, status: bool): Role {
    if status && r.status != Disconnect then r.(status := Normal) else r
  }

  /** `role::disconnect_client` */
  function RoleDisconnect(r: Role): Role {
    if r.status == Normal then r else r.(status := Disconnect)
  }
}
