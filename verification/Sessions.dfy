/** Sessions and their revocation: the operations of user_service over user rows and session rows. */
module Sessions {
  import opened Text
  import opened Hashing

  type UserId = nat
  type Tenant = string

  /** A moment, in microseconds. */
  type Time = int

  /** session_token_ttl_hours, 24 hours. */
  const SESSION_TTL: Time := 24 * 60 * 60 * 1000000

  datatype User = User(tenantId: Option<Tenant>, passwordHash: string, passwordSalt: string, role: string,
                       isActive: bool)

  datatype Session = Session(userId: UserId, createdAt: Time, expiresAt: Time, lastSeenAt: Option<Time>)

  /** The user rows, and the session rows under their unique token hash. */
  datatype Accounts = Accounts(users: map<UserId, User>, sessions: map<string, Session>)

  datatype Op =
    | SetUserPassword(user: UserId, passwordHash: string, passwordSalt: string)
    | CreateSession(user: UserId, token: string, now: Time)
    | GetUserBySessionToken(token: string, now: Time)
    | DeleteSessionByToken(token: string)
    | DeactivateUser(user: UserId, tenantId: Tenant)
    | ReactivateUser(user: UserId, tenantId: Tenant)
    | ChangeRole(user: UserId, role: string, tenantId: Tenant)

  // ---------------------------------------------------- what the operations do

  predicate InTenant(s: Accounts, user: UserId, tenantId: Tenant) {
    user in s.users && s.users[user].tenantId == Some(tenantId)
  }

  function WithoutUser(sessions: map<string, Session>, user: UserId): map<string, Session> {
    map h | h in sessions && sessions[h].userId != user :: sessions[h]
  }

  /** The session a token opens, if it has not expired. */
  function OpenSession(H: Digest, s: Accounts, token: string, now: Time): Option<Session> {
    if H(token) in s.sessions && s.sessions[H(token)].expiresAt >= now then Some(s.sessions[H(token)]) else None
  }

  /** Who a token authenticates. */
  function Authenticated(H: Digest, s: Accounts, token: string, now: Time): Option<UserId> {
    match OpenSession(H, s, token, now)
    case None => None
    case Some(x) => if x.userId in s.users && s.users[x.userId].isActive then Some(x.userId) else None
  }

  function Next(H: Digest, s: Accounts, op: Op): Accounts {
    match op
    case SetUserPassword(u, hash, salt) =>
      if u in s.users then
        Accounts(s.users[u := s.users[u].(passwordHash := hash, passwordSalt := salt)], WithoutUser(s.sessions, u))
      else s
    case CreateSession(u, token, now) =>
      if u in s.users && H(token) !in s.sessions then
        s.(sessions := s.sessions[H(token) := Session(u, now, now + SESSION_TTL, None)])
      else s
    case GetUserBySessionToken(token, now) =>
      if OpenSession(H, s, token, now).Some? then
        s.(sessions := s.sessions[H(token) := s.sessions[H(token)].(lastSeenAt := Some(now))])
      else s
    case DeleteSessionByToken(token) => s.(sessions := s.sessions - {H(token)})
    case DeactivateUser(u, tenantId) =>
      if InTenant(s, u, tenantId)
      then Accounts(s.users[u := s.users[u].(isActive := false)], WithoutUser(s.sessions, u)) else s
    case ReactivateUser(u, tenantId) =>
      if InTenant(s, u, tenantId) then s.(users := s.users[u := s.users[u].(isActive := true)]) else s
    case ChangeRole(u, role, tenantId) =>
      if InTenant(s, u, tenantId)
      then Accounts(s.users[u := s.users[u].(role := role)], WithoutUser(s.sessions, u)) else s
  }

  class UserService {
    const H: Digest
    var users: map<UserId, User>
    var sessions: map<string, Session>

    constructor (H: Digest, users: map<UserId, User>)
      ensures this.H == H && State() == Accounts(users, map[])
    {
      this.H := H;
      this.users := users;
      sessions := map[];
    }

    ghost function State(): Accounts
      reads this
    {
      Accounts(users, sessions)
    }

    /** User.id == user and User.tenant_id == tenant. */
    method SelectUser(user: UserId, tenantId: Tenant) returns (found: bool)
      ensures found == InTenant(State(), user, tenantId)
    {
      found := user in users && users[user].tenantId == Some(tenantId);
    }

    method RevokeAllSessions(user: UserId)
      modifies this`sessions
      ensures sessions == WithoutUser(old(sessions), user)
    {
      sessions := map h | h in sessions && sessions[h].userId != user :: sessions[h];
    }

    method SetUserPassword(user: UserId, passwordHash: string, passwordSalt: string)
      requires user in users
      modifies this
      ensures State() == Next(H, old(State()), Op.SetUserPassword(user, passwordHash, passwordSalt))
    {
      users := users[user := users[user].(passwordHash := passwordHash)];
      users := users[user := users[user].(passwordSalt := passwordSalt)];
      RevokeAllSessions(user);
    }

    /** Fails on a hash that is already in use, as the unique column makes it. */
    method CreateSession(user: UserId, token: string, now: Time) returns (token': Option<string>)
      requires user in users
      modifies this
      ensures State() == Next(H, old(State()), Op.CreateSession(user, token, now))
      ensures token' == if H(token) in old(sessions) then None else Some(token)
      ensures token'.Some? ==>
                H(token) in sessions && sessions[H(token)] == Session(user, now, now + 24 * 60 * 60 * 1_000_000, None)
    {
      if H(token) in sessions {
        return None;
      }
      sessions := sessions[H(token) := Session(user, now, now + SESSION_TTL, None)];
      return Some(token);
    }

    method GetUserBySessionToken(token: string, now: Time) returns (user: Option<UserId>)
      modifies this
      ensures State() == Next(H, old(State()), Op.GetUserBySessionToken(token, now))
      ensures user == Authenticated(H, old(State()), token, now)
    {
      if H(token) !in sessions {
        return None;
      }
      var session := sessions[H(token)];
      if session.expiresAt < now {
        return None;
      }
      sessions := sessions[H(token) := session.(lastSeenAt := Some(now))];
      if session.userId !in users || !users[session.userId].isActive {
        return None;
      }
      return Some(session.userId);
    }

    method DeleteSessionByToken(token: string)
      modifies this
      ensures State() == Next(H, old(State()), Op.DeleteSessionByToken(token))
    {
      if H(token) !in sessions {
        assert sessions - {H(token)} == sessions;
        return;
      }
      sessions := sessions - {H(token)};
    }

    method DeactivateUser(user: UserId, tenantId: Tenant) returns (found: bool)
      modifies this
      ensures State() == Next(H, old(State()), Op.DeactivateUser(user, tenantId))
      ensures found == InTenant(old(State()), user, tenantId)
    {
      found := SelectUser(user, tenantId);
      if !found {
        return;
      }
      users := users[user := users[user].(isActive := false)];
      RevokeAllSessions(user);
    }

    method ReactivateUser(user: UserId, tenantId: Tenant) returns (found: bool)
      modifies this
      ensures State() == Next(H, old(State()), Op.ReactivateUser(user, tenantId))
      ensures found == InTenant(old(State()), user, tenantId)
    {
      found := SelectUser(user, tenantId);
      if !found {
        return;
      }
      users := users[user := users[user].(isActive := true)];
    }

    method ChangeRole(user: UserId, role: string, tenantId: Tenant) returns (found: bool)
      modifies this
      ensures State() == Next(H, old(State()), Op.ChangeRole(user, role, tenantId))
      ensures found == InTenant(old(State()), user, tenantId)
    {
      found := SelectUser(user, tenantId);
      if !found {
        return;
      }
      users := users[user := users[user].(role := role)];
      RevokeAllSessions(user);
    }
  }

  // ----------------------------------------------------------- whole runs

  function Run(H: Digest, s: Accounts, ops: seq<Op>): Accounts
    decreases |ops|
  {
    if ops == [] then s else Next(H, Run(H, s, ops[..|ops| - 1]), ops[|ops| - 1])
  }

  /** The password, the role or the activity of this user is changed, so its sessions are revoked. */
  predicate Revokes(s: Accounts, op: Op, user: UserId) {
    match op
    case SetUserPassword(u, _, _) => u == user && u in s.users
    case DeactivateUser(u, tenantId) => u == user && InTenant(s, u, tenantId)
    case ChangeRole(u, _, tenantId) => u == user && InTenant(s, u, tenantId)
    case _ => false
  }

  /** The op ends the session with this token hash and user. */
  predicate Ends(H: Digest, s: Accounts, op: Op, hash: string, user: UserId) {
    Revokes(s, op, user) || (op.DeleteSessionByToken? && H(op.token) == hash)
  }

  predicate Issues(H: Digest, s: Accounts, op: Op, hash: string, user: UserId) {
    op.CreateSession? && H(op.token) == hash && op.user == user && user in s.users
  }

  /** No two issued tokens have the same hash. */
  ghost predicate FreshTokens(H: Digest, ops: seq<Op>) {
    forall i, j | 0 <= i < j < |ops| && ops[i].CreateSession? && ops[j].CreateSession? ::
      H(ops[i].token) != H(ops[j].token)
  }

  /** Op i issues the token to the user, and no later op ends that session. */
  ghost predicate Alive(H: Digest, s: Accounts, ops: seq<Op>, i: int, hash: string, user: UserId) {
    0 <= i < |ops| && Issues(H, s, ops[i], hash, user) && forall j | i < j < |ops| :: !Ends(H, s, ops[j], hash, user)
  }

  /** Users and their tenants stay; so what an op revokes can be read off the initial rows. */
  lemma {:induction false} TenantsStay(H: Digest, s: Accounts, ops: seq<Op>)
    ensures var t := Run(H, s, ops);
            t.users.Keys == s.users.Keys && forall u | u in s.users :: t.users[u].tenantId == s.users[u].tenantId
    decreases |ops|
  {
    if ops != [] { TenantsStay(H, s, ops[..|ops| - 1]); }
  }

  lemma SameRevokes(s: Accounts, t: Accounts, op: Op, user: UserId)
    requires t.users.Keys == s.users.Keys && forall u | u in s.users :: t.users[u].tenantId == s.users[u].tenantId
    ensures Revokes(t, op, user) == Revokes(s, op, user)
  {
  }

  /** What one op does to one session row. */
  lemma OneRow(H: Digest, s: Accounts, op: Op, hash: string)
    ensures var t := Next(H, s, op);
            (hash in t.sessions <==>
              if hash in s.sessions then !Ends(H, s, op, hash, s.sessions[hash].userId)
              else op.CreateSession? && Issues(H, s, op, hash, op.user)) &&
            (hash in s.sessions && hash in t.sessions ==>
              t.sessions[hash].userId == s.sessions[hash].userId &&
              t.sessions[hash].expiresAt == s.sessions[hash].expiresAt) &&
            (hash !in s.sessions && hash in t.sessions ==>
              t.sessions[hash] == Session(op.user, op.now, op.now + SESSION_TTL, None))
  {
  }

  /** The row with this hash belongs to the user and expires 24 hours after `since`. */
  ghost predicate HasRow(s: Accounts, hash: string, user: UserId, since: Time) {
    hash in s.sessions && s.sessions[hash].userId == user && s.sessions[hash].expiresAt == since + SESSION_TTL
  }

  ghost predicate AliveSince(H: Digest, s: Accounts, ops: seq<Op>, hash: string, user: UserId, since: Time) {
    exists i :: Alive(H, s, ops, i, hash, user) && ops[i].now == since
  }

  lemma AliveLast(H: Digest, s: Accounts, ops: seq<Op>, hash: string, user: UserId, since: Time)
    requires ops != []
    ensures var last := ops[|ops| - 1];
            AliveSince(H, s, ops, hash, user, since) <==>
              (Issues(H, s, last, hash, user) && last.now == since) ||
              (AliveSince(H, s, ops[..|ops| - 1], hash, user, since) && !Ends(H, s, last, hash, user))
  {
    var n := |ops| - 1;
    var before := ops[..n];
    if Issues(H, s, ops[n], hash, user) { assert Alive(H, s, ops, n, hash, user); }
    if AliveSince(H, s, before, hash, user, since) {
      var i :| Alive(H, s, before, i, hash, user) && before[i].now == since;
      assert Ends(H, s, ops[n], hash, user) || Alive(H, s, ops, i, hash, user);
    }
    if AliveSince(H, s, ops, hash, user, since) {
      var i :| Alive(H, s, ops, i, hash, user) && ops[i].now == since;
      if i < n { assert Alive(H, s, before, i, hash, user); }
    }
  }

  lemma NotIssuedBefore(H: Digest, s: Accounts, ops: seq<Op>, hash: string, user: UserId, since: Time)
    requires ops != [] && FreshTokens(H, ops) && ops[|ops| - 1].CreateSession? && H(ops[|ops| - 1].token) == hash
    ensures !AliveSince(H, s, ops[..|ops| - 1], hash, user, since)
  {
  }

  /** A session row is there exactly if the history issued it and did not end it since. */
  lemma {:induction false} RowIff(H: Digest, s: Accounts, ops: seq<Op>, hash: string, user: UserId, since: Time)
    requires s.sessions == map[] && FreshTokens(H, ops)
    ensures HasRow(Run(H, s, ops), hash, user, since) <==> AliveSince(H, s, ops, hash, user, since)
    decreases |ops|
  {
    if ops != [] {
      var before, last := ops[..|ops| - 1], ops[|ops| - 1];
      var t := Run(H, s, before);
      RowIff(H, s, before, hash, user, since);
      AliveLast(H, s, ops, hash, user, since);
      OneRow(H, t, last, hash);
      TenantsStay(H, s, before);
      SameRevokes(s, t, last, user);
      if last.CreateSession? && H(last.token) == hash {
        NotIssuedBefore(H, s, ops, hash, user, since);
        if hash in t.sessions {
          RowIff(H, s, before, hash, t.sessions[hash].userId, t.sessions[hash].expiresAt - SESSION_TTL);
          NotIssuedBefore(H, s, ops, hash, t.sessions[hash].userId, t.sessions[hash].expiresAt - SESSION_TTL);
        }
      }
    }
  }

  predicate Deactivates(s: Accounts, op: Op, user: UserId) {
    op.DeactivateUser? && op.user == user && InTenant(s, user, op.tenantId)
  }

  predicate Reactivates(s: Accounts, op: Op, user: UserId) {
    op.ReactivateUser? && op.user == user && InTenant(s, user, op.tenantId)
  }

  /** Active at the start, or reactivated by op i, and not deactivated since. */
  ghost predicate ActiveFrom(s: Accounts, ops: seq<Op>, i: int, user: UserId) {
    && -1 <= i < |ops| && user in s.users
    && (if i < 0 then s.users[user].isActive else Reactivates(s, ops[i], user))
    && forall j | i < j < |ops| :: !Deactivates(s, ops[j], user)
  }

  ghost predicate Active(s: Accounts, ops: seq<Op>, user: UserId) { exists i :: ActiveFrom(s, ops, i, user) }

  lemma ActiveLast(s: Accounts, ops: seq<Op>, user: UserId)
    requires ops != []
    ensures var last := ops[|ops| - 1];
            Active(s, ops, user) <==>
              Reactivates(s, last, user) || (Active(s, ops[..|ops| - 1], user) && !Deactivates(s, last, user))
  {
    var n := |ops| - 1;
    if Reactivates(s, ops[n], user) { assert ActiveFrom(s, ops, n, user); }
    if Active(s, ops[..n], user) {
      var i :| ActiveFrom(s, ops[..n], i, user);
      assert Deactivates(s, ops[n], user) || ActiveFrom(s, ops, i, user);
    }
    if Active(s, ops, user) {
      var i :| ActiveFrom(s, ops, i, user);
      if i < n { assert ActiveFrom(s, ops[..n], i, user); }
    }
  }

  /** Whether a user is active can be read off the history. */
  lemma {:induction false} ActiveIff(H: Digest, s: Accounts, ops: seq<Op>, user: UserId)
    ensures var t := Run(H, s, ops); user in t.users && t.users[user].isActive <==> Active(s, ops, user)
    decreases |ops|
  {
    if ops == [] {
      assert user in s.users && s.users[user].isActive ==> ActiveFrom(s, ops, -1, user);
    } else {
      ActiveIff(H, s, ops[..|ops| - 1], user);
      TenantsStay(H, s, ops[..|ops| - 1]);
      ActiveLast(s, ops, user);
    }
  }

  /** A token authenticates a user exactly if it was issued to that user at most 24 hours ago, no password
      change, role change, deactivation of that user or logout with that token came after, and the user
      is active: from the start or by a reactivation, with no deactivation since. */
  lemma AuthenticatesIff(H: Digest, s: Accounts, ops: seq<Op>, token: string, user: UserId, now: Time)
    requires s.sessions == map[] && FreshTokens(H, ops)
    ensures Authenticated(H, Run(H, s, ops), token, now) == Some(user)
       <==> Active(s, ops, user) &&
            exists since :: AliveSince(H, s, ops, H(token), user, since) && now - since <= 24 * 60 * 60 * 1_000_000
  {
    var t := Run(H, s, ops);
    ActiveIff(H, s, ops, user);
    if Authenticated(H, t, token, now) == Some(user) {
      var since := t.sessions[H(token)].expiresAt - SESSION_TTL;
      RowIff(H, s, ops, H(token), user, since);
    }
    forall since | AliveSince(H, s, ops, H(token), user, since) ensures HasRow(t, H(token), user, since) {
      RowIff(H, s, ops, H(token), user, since);
    }
  }

  lemma RevokedNotAlive(H: Digest, s: Accounts, ops: seq<Op>, i: nat, j: nat, user: UserId, since: Time)
    requires FreshTokens(H, ops) && i < j < |ops|
    requires ops[i].CreateSession? && Revokes(s, ops[j], ops[i].user)
    ensures !AliveSince(H, s, ops, H(ops[i].token), user, since)
  {
    forall k ensures !Alive(H, s, ops, k, H(ops[i].token), user) {
      if k == i && user == ops[i].user { assert Ends(H, s, ops[j], H(ops[i].token), user); }
    }
  }

  /** Once a user's password or role is changed or the user is deactivated, no token issued to that user
      before authenticates anyone at any later point, reactivation included. */
  lemma RevokedForever(H: Digest, s: Accounts, ops: seq<Op>, i: nat, j: nat, now: Time)
    requires s.sessions == map[] && FreshTokens(H, ops) && i < j < |ops|
    requires ops[i].CreateSession? && Revokes(s, ops[j], ops[i].user)
    ensures Authenticated(H, Run(H, s, ops), ops[i].token, now) == None
  {
    forall user: UserId ensures Authenticated(H, Run(H, s, ops), ops[i].token, now) != Some(user) {
      AuthenticatesIff(H, s, ops, ops[i].token, user, now);
      forall since ensures !AliveSince(H, s, ops, H(ops[i].token), user, since) {
        RevokedNotAlive(H, s, ops, i, j, user, since);
      }
    }
  }

  // ------------------------------------------------- the last write of each column

  predicate SetsPassword(op: Op, user: UserId) { op.SetUserPassword? && op.user == user }

  predicate SetsRole(s: Accounts, op: Op, user: UserId) {
    op.ChangeRole? && op.user == user && InTenant(s, user, op.tenantId)
  }

  /** What one op does to the password and the role of a user. */
  lemma OneUser(H: Digest, t: Accounts, op: Op, user: UserId) returns (before: User, next: Accounts)
    requires user in t.users
    ensures next == Next(H, t, op) && before == t.users[user] && user in next.users
    ensures next.users[user].passwordHash == if SetsPassword(op, user) then op.passwordHash else before.passwordHash
    ensures next.users[user].passwordSalt == if SetsPassword(op, user) then op.passwordSalt else before.passwordSalt
    ensures next.users[user].role == if SetsRole(t, op, user) then op.role else before.role
  {
    next, before := Next(H, t, op), t.users[user];
  }

  /** The password of a user is the one that op i set, the last op to set it; i is -1 if none did. */
  lemma {:induction false} PasswordIsLast(H: Digest, s: Accounts, ops: seq<Op>, user: UserId, i: int)
    requires user in s.users && -1 <= i < |ops| && (i >= 0 ==> SetsPassword(ops[i], user))
    requires forall j | i < j < |ops| :: !SetsPassword(ops[j], user)
    ensures var t := Run(H, s, ops);
            && user in t.users
            && t.users[user].passwordHash == (if i < 0 then s.users[user].passwordHash else ops[i].passwordHash)
            && t.users[user].passwordSalt == (if i < 0 then s.users[user].passwordSalt else ops[i].passwordSalt)
    decreases |ops|
  {
    if ops != [] {
      var n := |ops| - 1;
      TenantsStay(H, s, ops[..n]);
      var before, next := OneUser(H, Run(H, s, ops[..n]), ops[n], user);
      if i < n { PasswordIsLast(H, s, ops[..n], user, i); }
    }
  }

  /** The role of a user is the one that op i set, the last op of the user's own tenant to set it. */
  lemma {:induction false} RoleIsLast(H: Digest, s: Accounts, ops: seq<Op>, user: UserId, i: int)
    requires user in s.users && -1 <= i < |ops| && (i >= 0 ==> SetsRole(s, ops[i], user))
    requires forall j | i < j < |ops| :: !SetsRole(s, ops[j], user)
    ensures var t := Run(H, s, ops);
            user in t.users && t.users[user].role == if i < 0 then s.users[user].role else ops[i].role
    decreases |ops|
  {
    if ops != [] {
      var n := |ops| - 1;
      TenantsStay(H, s, ops[..n]);
      var before, next := OneUser(H, Run(H, s, ops[..n]), ops[n], user);
      if i < n { RoleIsLast(H, s, ops[..n], user, i); }
    }
  }

  /** A request with this token while the session issued at `since` is open. */
  predicate Sees(H: Digest, op: Op, hash: string, since: Time) {
    op.GetUserBySessionToken? && H(op.token) == hash && op.now - since <= 24 * 60 * 60 * 1_000_000
  }

  lemma IssuedFresh(H: Digest, s: Accounts, ops: seq<Op>)
    requires s.sessions == map[] && FreshTokens(H, ops) && ops != [] && ops[|ops| - 1].CreateSession?
    ensures H(ops[|ops| - 1].token) !in Run(H, s, ops[..|ops| - 1]).sessions
  {
    var hash, before := H(ops[|ops| - 1].token), ops[..|ops| - 1];
    var t := Run(H, s, before);
    if hash in t.sessions {
      RowIff(H, s, before, hash, t.sessions[hash].userId, t.sessions[hash].expiresAt - SESSION_TTL);
      NotIssuedBefore(H, s, ops, hash, t.sessions[hash].userId, t.sessions[hash].expiresAt - SESSION_TTL);
    }
  }

  /** What one op does to the last-seen time of a session that stays. */
  lemma OneSeen(H: Digest, t: Accounts, op: Op, hash: string, user: UserId, since: Time)
    requires HasRow(t, hash, user, since) && !Ends(H, t, op, hash, user)
    ensures hash in Next(H, t, op).sessions
    ensures Next(H, t, op).sessions[hash].lastSeenAt ==
              if Sees(H, op, hash, since) then Some(op.now) else t.sessions[hash].lastSeenAt
  {
  }

  /** The last-seen time of a live session issued by op i is that of op k, the last request with its token while
      it was open; there is none yet if k is i. */
  lemma {:induction false} LastSeenIs(H: Digest, s: Accounts, ops: seq<Op>, i: int, hash: string, user: UserId, k: int)
    requires s.sessions == map[] && FreshTokens(H, ops) && Alive(H, s, ops, i, hash, user) && i <= k < |ops|
    requires k == i || Sees(H, ops[k], hash, ops[i].now)
    requires forall j | k < j < |ops| :: !Sees(H, ops[j], hash, ops[i].now)
    ensures var t := Run(H, s, ops);
            hash in t.sessions && t.sessions[hash].lastSeenAt == if k == i then None else Some(ops[k].now)
    decreases |ops|
  {
    var n := |ops| - 1;
    var before := ops[..n];
    if i == n {
      IssuedFresh(H, s, ops);
      TenantsStay(H, s, before);
    } else {
      assert Alive(H, s, before, i, hash, user);
      assert AliveSince(H, s, before, hash, user, ops[i].now) by { assert before[i] == ops[i]; }
      RowIff(H, s, before, hash, user, ops[i].now);
      TenantsStay(H, s, before);
      SameRevokes(s, Run(H, s, before), ops[n], user);
      OneSeen(H, Run(H, s, before), ops[n], hash, user, ops[i].now);
      if k < n { LastSeenIs(H, s, before, i, hash, user, k); }
    }
  }

  /** An op with another tenant's id changes nothing at all. */
  lemma OtherTenantNoEffect(H: Digest, s: Accounts, user: UserId, tenantId: Tenant, role: string)
    requires user in s.users ==> s.users[user].tenantId != Some(tenantId)
    ensures Next(H, s, DeactivateUser(user, tenantId)) == s
    ensures Next(H, s, ReactivateUser(user, tenantId)) == s
    ensures Next(H, s, ChangeRole(user, role, tenantId)) == s
  {
  }
}
