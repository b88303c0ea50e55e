/** Local users: how IAM events reach them, and the login statement that reads the same tables. */
module LocalUsers {
  import opened Prelude
  import opened IamInbox

  datatype Subject = Subject(tenant: string, subject: string)

  datatype AccessKey = AccessKey(tenant: string, subject: string, client: string)

  datatype Profile = Profile(email: string, name: string)

  datatype LifecycleKind = UserCreated | UserUpdated | UserDisabled | UserReenabled | UserDeleted

  datatype LifecycleEvent = LifecycleEvent(
    id: string, kind: LifecycleKind, issuer: string, tenant: string, subject: string, version: int, profile: Option<Profile>)

  datatype AccessEvent = AccessEvent(
    id: string, issuer: string, tenant: string, subject: string, client: string, version: int, status: Status)

  /** The users of the IAM provider; `lifecycle`, `active` and `version` are what events and logins guard. */
  datatype User = User(id: string, email: string, name: string, lifecycle: Status, active: bool, version: int)

  datatype KeyRow = KeyRow(userId: string, active: bool)

  datatype Db = Db(
    lifecycle: Table<Subject>, access: Table<AccessKey>, users: map<Subject, User>, keys: map<string, KeyRow>)

  datatype Expected = Expected(issuer: string, tenant: string, client: string, additionalClients: set<string>)

  /** What a handler reports: whether the state row moved, whose cached keys to drop, whose sessions to end. */
  datatype Outcome = Outcome(applied: bool, invalidatedUser: Option<string>, endedSessions: Option<string>)

  const IGNORED := Outcome(false, None, None)

  // ---------------------------------------------------------------- lifecycle events

  predicate Ours(x: Expected, e: LifecycleEvent) {
    e.issuer == x.issuer && e.tenant == x.tenant
  }

  function StatusOf(kind: LifecycleKind): Status {
    match kind
    case UserDisabled => Blocked
    case UserDeleted => Withdrawn
    case _ => Active
  }

  function LifecycleDelivery(e: LifecycleEvent): Delivery<Subject> {
    Delivery(Subject(e.tenant, e.subject), Notice(e.id, e.version, StatusOf(e.kind)))
  }

  /** Another user already has the address: the unique index on users.email. */
  predicate EmailTaken(users: map<Subject, User>, k: Subject, email: string) {
    exists other | other in users :: other != k && users[other].email == email
  }

  function Deactivated(keys: map<string, KeyRow>, userId: string): map<string, KeyRow> {
    map id | id in keys :: if keys[id].userId == userId then keys[id].(active := false) else keys[id]
  }

  predicate OlderUser(db: Db, k: Subject, version: int) {
    k in db.users && db.users[k].version < version
  }

  predicate CarriesProfile(e: LifecycleEvent) {
    e.kind.UserUpdated? && e.profile.Some?
  }

  /** The UPDATE of users an applied event makes; None is a violated unique email, which rolls everything back. */
  function AfterApplied(db: Db, e: LifecycleEvent): Option<Db> {
    var k, status := Subject(e.tenant, e.subject), StatusOf(e.kind);
    if !OlderUser(db, k, e.version) || e.kind.UserCreated? then Some(db)
    else if CarriesProfile(e) then
      if EmailTaken(db.users, k, e.profile.value.email) then None
      else Some(db.(users := db.users[k := db.users[k].(email := e.profile.value.email, name := e.profile.value.name, version := e.version)]))
    else
      var user := db.users[k].(lifecycle := status, active := status == Active, version := e.version);
      Some(db.(users := db.users[k := user], keys := if status == Active then db.keys else Deactivated(db.keys, user.id)))
  }

  function AfterLifecycle(db: Db, e: LifecycleEvent): Option<Db> {
    var d := LifecycleDelivery(e);
    var received := db.(lifecycle := Receive(db.lifecycle, d));
    if Applies(db.lifecycle, d) then AfterApplied(received, e) else Some(received)
  }

  /** The users row whose UPDATE returned an id, in the branch that returns it. */
  function LifecycleOutcome(db: Db, e: LifecycleEvent): Outcome {
    var k := Subject(e.tenant, e.subject);
    if !Applies(db.lifecycle, LifecycleDelivery(e)) then IGNORED
    else if e.kind.UserCreated? || e.kind.UserUpdated? then Outcome(true, None, None)
    else Outcome(true, if OlderUser(db, k, e.version) then Some(db.users[k].id) else None, Some(e.subject))
  }

  // ---------------------------------------------------------------- service access events

  predicate OurAccess(x: Expected, e: AccessEvent) {
    e.issuer == x.issuer && e.tenant == x.tenant && (e.client == x.client || e.client in x.additionalClients)
  }

  function AccessDelivery(e: AccessEvent): Delivery<AccessKey> {
    Delivery(AccessKey(e.tenant, e.subject, e.client), Notice(e.id, e.version, e.status))
  }

  predicate Revokes(e: AccessEvent) {
    e.status == Disabled || e.status == Withdrawn
  }

  function AfterAccess(db: Db, e: AccessEvent): Db {
    var d, k := AccessDelivery(e), Subject(e.tenant, e.subject);
    db.(access := Receive(db.access, d),
        keys := if Applies(db.access, d) && Revokes(e) && k in db.users then Deactivated(db.keys, db.users[k].id) else db.keys)
  }

  function AccessOutcome(db: Db, e: AccessEvent): Outcome {
    var k := Subject(e.tenant, e.subject);
    if !Applies(db.access, AccessDelivery(e)) then IGNORED
    else if !Revokes(e) then Outcome(true, None, None)
    else Outcome(true, if k in db.users then Some(db.users[k].id) else None, Some(e.subject))
  }

  // ---------------------------------------------------------------- login

  datatype Identity = Identity(
    tenant: string, subject: string, email: string, name: Option<string>, userVersion: int, serviceVersion: Option<int>)

  datatype LoginConfig = LoginConfig(tenant: string, enforced: bool, client: string)

  /** Seconds: the statement's NOW() and the last heartbeat of each consumer. */
  datatype Health = Health(now: int, lifecycleSeen: int, accessSeen: int)

  datatype LoginError = NotOurs | MissingServiceVersion | InactiveOrStale | EmailInUse

  predicate TokenVersion(v: int) {
    1 <= v <= MAX_SAFE
  }

  predicate Fresh(health: Health, seen: int) {
    seen > health.now - 60
  }

  /** NOT EXISTS (a row that is not ACTIVE or is newer than the token). */
  predicate Clear(row: Option<Standing>, version: int) {
    row.Some? ==> row.value.status == Active && row.value.version <= version
  }

  /** The SELECT of the upsert yields its one row. */
  predicate Admits(db: Db, config: LoginConfig, i: Identity, health: Health)
    requires config.enforced ==> i.serviceVersion.Some?
  {
    && Clear(RowAt(db.lifecycle, Subject(i.tenant, i.subject)), i.userVersion)
    && Fresh(health, health.lifecycleSeen)
    && (config.enforced ==>
          && Clear(RowAt(db.access, AccessKey(i.tenant, i.subject, config.client)), i.serviceVersion.value)
          && Fresh(health, health.accessSeen))
  }

  /** The checks before the statement. */
  function Rejected(config: LoginConfig, i: Identity): Option<LoginError> {
    if i.tenant != config.tenant || i.subject == [] || i.email == [] || !TokenVersion(i.userVersion) then Some(NotOurs)
    else if config.enforced && !(i.serviceVersion.Some? && TokenVersion(i.serviceVersion.value)) then Some(MissingServiceVersion)
    else None
  }

  /** The row the upsert writes, if it writes one. */
  function Upserted(db: Db, i: Identity, newId: string): Option<User> {
    var k := Subject(i.tenant, i.subject);
    var name := if i.name.Some? then i.name.value else i.email;
    if k !in db.users then Some(User(newId, i.email, name, Active, true, i.userVersion))
    else
      var user := db.users[k];
      if user.active && user.lifecycle == Active then Some(user.(email := i.email, name := name, version := Max(user.version, i.userVersion)))
      else None
  }

  function Login(db: Db, config: LoginConfig, i: Identity, health: Health, newId: string): (r: Result<User, LoginError>)
  {
    match Rejected(config, i)
    case Some(e) => Err(e)
    case None =>
      if !Admits(db, config, i, health) then Err(InactiveOrStale)
      else match Upserted(db, i, newId)
        case None => Err(InactiveOrStale)
        case Some(user) => if EmailTaken(db.users, Subject(i.tenant, i.subject), i.email) then Err(EmailInUse) else Ok(user)
  }

  function AfterLogin(db: Db, config: LoginConfig, i: Identity, health: Health, newId: string): Db {
    match Login(db, config, i, health, newId)
    case Ok(user) => db.(users := db.users[Subject(i.tenant, i.subject) := user])
    case Err(_) => db
  }

  // ---------------------------------------------------------------- what each statement does

  /** The event is new to the inbox and newer than a row that is not withdrawn. */
  predicate NewTo<K>(t: Table<K>, k: K, id: string, version: int) {
    id !in t.receipts && (k in t.rows ==> t.rows[k].version < version && t.rows[k].status != Withdrawn)
  }

  /** An event of ours writes its receipt, moves the row it is newer than to the status of its kind, and no other row. */
  lemma LifecycleTablesExactly(db: Db, e: LifecycleEvent)
    requires AfterLifecycle(db, e).Some?
    ensures var k, after := Subject(e.tenant, e.subject), AfterLifecycle(db, e).value;
      && after.access == db.access && after.lifecycle.receipts == db.lifecycle.receipts + {e.id}
      && (!NewTo(db.lifecycle, k, e.id, e.version) ==> after.lifecycle.rows == db.lifecycle.rows)
      && (NewTo(db.lifecycle, k, e.id, e.version) ==>
            && (e.kind == UserDisabled ==> after.lifecycle.rows == db.lifecycle.rows[k := Standing(Blocked, e.version, e.id)])
            && (e.kind == UserDeleted ==> after.lifecycle.rows == db.lifecycle.rows[k := Standing(Withdrawn, e.version, e.id)])
            && (e.kind != UserDisabled && e.kind != UserDeleted ==>
                  after.lifecycle.rows == db.lifecycle.rows[k := Standing(Active, e.version, e.id)]))
  {}

  /** The user row an event finds and may change: older than the event, and the event is no creation. */
  predicate Reached(db: Db, e: LifecycleEvent) {
    var k := Subject(e.tenant, e.subject);
    NewTo(db.lifecycle, k, e.id, e.version) && k in db.users && db.users[k].version < e.version && e.kind != UserCreated
  }

  predicate SetsProfile(e: LifecycleEvent) {
    e.kind == UserUpdated && e.profile != None
  }

  predicate Disables(e: LifecycleEvent) {
    e.kind == UserDisabled || e.kind == UserDeleted
  }

  /** An event rolls back exactly when it sets a profile whose address another user has. */
  lemma RollbackExactly(db: Db, e: LifecycleEvent)
    ensures AfterLifecycle(db, e) == None
       <==> && Reached(db, e) && SetsProfile(e)
            && exists other | other in db.users :: other != Subject(e.tenant, e.subject) && db.users[other].email == e.profile.value.email
  {}

  /** The user rows an event leaves: its own one with the profile or the status it carries and its version, all others as they were. */
  lemma LifecycleUsersExactly(db: Db, e: LifecycleEvent)
    requires AfterLifecycle(db, e).Some?
    ensures var k, after := Subject(e.tenant, e.subject), AfterLifecycle(db, e).value;
      && (!Reached(db, e) ==> after.users == db.users)
      && (Reached(db, e) ==>
            var u := db.users[k];
            && (SetsProfile(e) ==>
                  after.users == db.users[k := User(u.id, e.profile.value.email, e.profile.value.name, u.lifecycle, u.active, e.version)])
            && (e.kind == UserDisabled ==> after.users == db.users[k := User(u.id, u.email, u.name, Blocked, false, e.version)])
            && (e.kind == UserDeleted ==> after.users == db.users[k := User(u.id, u.email, u.name, Withdrawn, false, e.version)])
            && (!SetsProfile(e) && !Disables(e) ==>
                  after.users == db.users[k := User(u.id, u.email, u.name, Active, true, e.version)]))
  {}

  /** The keys an event leaves: those of the user it disables stopped, all others as they were. */
  lemma LifecycleKeysExactly(db: Db, e: LifecycleEvent, id: string)
    requires AfterLifecycle(db, e).Some?
    ensures var k, keys := Subject(e.tenant, e.subject), AfterLifecycle(db, e).value.keys;
      && (id in keys <==> id in db.keys)
      && (id in db.keys ==>
            var stopped := Reached(db, e) && Disables(e) && db.keys[id].userId == db.users[k].id;
            keys[id] == KeyRow(db.keys[id].userId, db.keys[id].active && !stopped))
  {}

  /** What the caller is told: sessions end for every applied event but creations and updates, cached keys of a user it reached are dropped. */
  lemma LifecycleOutcomeExactly(db: Db, e: LifecycleEvent)
    ensures var k, o := Subject(e.tenant, e.subject), LifecycleOutcome(db, e);
      && (o.applied <==> NewTo(db.lifecycle, k, e.id, e.version))
      && (o.endedSessions == Some(e.subject) <==> o.applied && e.kind != UserCreated && e.kind != UserUpdated)
      && (o.endedSessions != Some(e.subject) ==> o.endedSessions == None)
      && (o.invalidatedUser.Some? <==> Reached(db, e) && e.kind != UserUpdated)
      && (o.invalidatedUser.Some? ==> o.invalidatedUser == Some(db.users[k].id))
  {}

  /** A service-access event of ours: receipt, row, and the keys of the subject's user stopped exactly by a new revocation. */
  lemma AccessExactly(db: Db, e: AccessEvent)
    ensures var k, u, after := AccessKey(e.tenant, e.subject, e.client), Subject(e.tenant, e.subject), AfterAccess(db, e);
      var applied := NewTo(db.access, k, e.id, e.version); var revokes := applied && (e.status == Disabled || e.status == Withdrawn);
      && after.lifecycle == db.lifecycle && after.users == db.users && after.keys.Keys == db.keys.Keys
      && after.access.receipts == db.access.receipts + {e.id}
      && after.access.rows == (if applied then db.access.rows[k := Standing(e.status, e.version, e.id)] else db.access.rows)
      && (forall id | id in db.keys :: after.keys[id].userId == db.keys[id].userId
            && (after.keys[id].active <==> db.keys[id].active && !(revokes && u in db.users && db.keys[id].userId == db.users[u].id)))
      && AccessOutcome(db, e) == Outcome(applied, if revokes && u in db.users then Some(db.users[u].id) else None,
                                         if revokes then Some(e.subject) else None)
  {}

  /** No row, or an ACTIVE one not newer than the token. */
  predicate Permits<K>(t: Table<K>, k: K, version: int) {
    k in t.rows ==> t.rows[k].status == Active && t.rows[k].version <= version
  }

  /**
   A login succeeds exactly for an identity of the tenant with an address and a valid token version, a state row that
   permits it, a consumer heard from within the last minute, where enforced the same for service access, a user row
   that is missing or active, and an address no other user has; it then writes that user and nothing else.
   */
  lemma LoginExactly(db: Db, config: LoginConfig, i: Identity, health: Health, newId: string)
    ensures var k, r := Subject(i.tenant, i.subject), Login(db, config, i, health, newId);
      && (r.Ok? <==>
            && i.tenant == config.tenant && i.subject != [] && i.email != [] && 1 <= i.userVersion <= MAX_SAFE
            && Permits(db.lifecycle, k, i.userVersion) && health.now - health.lifecycleSeen < 60
            && (config.enforced ==>
                  && i.serviceVersion != None && 1 <= i.serviceVersion.value <= MAX_SAFE
                  && Permits(db.access, AccessKey(i.tenant, i.subject, config.client), i.serviceVersion.value)
                  && health.now - health.accessSeen < 60)
            && (k in db.users ==> db.users[k].active && db.users[k].lifecycle == Active)
            && (forall other | other in db.users && other != k :: db.users[other].email != i.email))
      && (r.Ok? ==> r.value == User(if k in db.users then db.users[k].id else newId, i.email,
                                    if i.name == None then i.email else i.name.value, Active, true,
                                    if k in db.users then Max(db.users[k].version, i.userVersion) else i.userVersion))
      && AfterLogin(db, config, i, health, newId) == if r.Ok? then db.(users := db.users[k := r.value]) else db
  {}

  /** A failed login names its reason: what it claims, a missing service version, a taken address, or else its state. */
  lemma LoginRefusedFor(db: Db, config: LoginConfig, i: Identity, health: Health, newId: string)
    requires Login(db, config, i, health, newId).Err?
    ensures var error := Login(db, config, i, health, newId).error; var k := Subject(i.tenant, i.subject);
      var claimed := i.tenant == config.tenant && i.subject != [] && i.email != [] && 1 <= i.userVersion <= MAX_SAFE;
      var versioned := config.enforced ==> i.serviceVersion != None && 1 <= i.serviceVersion.value <= MAX_SAFE;
      && (error == NotOurs <==> !claimed)
      && (error == MissingServiceVersion <==> claimed && !versioned)
      && (error == EmailInUse ==> exists other | other in db.users :: other != k && db.users[other].email == i.email)
      && (error == InactiveOrStale ==>
            || !Permits(db.lifecycle, k, i.userVersion) || health.now - health.lifecycleSeen >= 60
            || (config.enforced && (!Permits(db.access, AccessKey(i.tenant, i.subject, config.client), i.serviceVersion.value)
                                    || health.now - health.accessSeen >= 60))
            || (k in db.users && !(db.users[k].active && db.users[k].lifecycle == Active)))
  {}

  /** Only events of the expected issuer and tenant, and for service access of an expected client, are handled. */
  lemma OursExactly(x: Expected, e: LifecycleEvent, change: AccessEvent)
    ensures Ours(x, e) <==> (e.issuer, e.tenant) == (x.issuer, x.tenant)
    ensures OurAccess(x, change) <==> (change.issuer, change.tenant) == (x.issuer, x.tenant) && change.client in {x.client} + x.additionalClients
  {}

  // ---------------------------------------------------------------- the store

  class UserStore {
    var lifecycle: Table<Subject>
    var access: Table<AccessKey>
    var users: map<Subject, User>
    var keys: map<string, KeyRow>

    constructor (start: Db)
      ensures State() == start
    {
      lifecycle, access, users, keys := start.lifecycle, start.access, start.users, start.keys;
    }

    function State(): Db
      reads this
    {
      Db(lifecycle, access, users, keys)
    }

    /** applyUserLifecycleEvent; Err is the rolled back transaction of a violated unique email. */
    method ApplyLifecycle(x: Expected, e: LifecycleEvent) returns (r: Result<Outcome, ()>)
      modifies this
      ensures !Ours(x, e) ==> r == Ok(IGNORED) && State() == old(State())
      ensures Ours(x, e) ==>
        match AfterLifecycle(old(State()), e)
        case Some(db) => r == Ok(LifecycleOutcome(old(State()), e)) && State() == db
        case None => r == Err(()) && State() == old(State())
    {
      if e.issuer != x.issuer || e.tenant != x.tenant { return Ok(IGNORED); }
      var k, n := Subject(e.tenant, e.subject), Notice(e.id, e.version, StatusOf(e.kind));
      if n.id in lifecycle.receipts { return Ok(IGNORED); }
      var before := lifecycle;
      lifecycle := lifecycle.(receipts := lifecycle.receipts + {n.id});
      if !Supersedes(RowAt(lifecycle, k), n) { return Ok(IGNORED); }
      lifecycle := lifecycle.(rows := lifecycle.rows[k := StandingOf(n)]);
      var userId: Option<string> := None;
      var older := k in users && users[k].version < e.version;
      if e.kind.UserUpdated? && e.profile.Some? {
        if older {
          if EmailTaken(users, k, e.profile.value.email) {
            lifecycle := before;
            return Err(());
          }
          users := users[k := users[k].(email := e.profile.value.email, name := e.profile.value.name, version := e.version)];
        }
      } else if !e.kind.UserCreated? {
        if older {
          users := users[k := users[k].(lifecycle := n.status, active := n.status == Active, version := e.version)];
          userId := Some(users[k].id);
          if n.status != Active { keys := Deactivated(keys, users[k].id); }
        }
      }
      if e.kind.UserUpdated? || e.kind.UserCreated? { return Ok(Outcome(true, None, None)); }
      return Ok(Outcome(true, userId, Some(e.subject)));
    }

    /** applyUserServiceAccessEvent. */
    method ApplyServiceAccess(x: Expected, e: AccessEvent) returns (r: Outcome)
      modifies this
      ensures !OurAccess(x, e) ==> r == IGNORED && State() == old(State())
      ensures OurAccess(x, e) ==> r == AccessOutcome(old(State()), e) && State() == AfterAccess(old(State()), e)
    {
      if e.issuer != x.issuer || e.tenant != x.tenant { return IGNORED; }
      if e.client != x.client && e.client !in x.additionalClients { return IGNORED; }
      var k, n := AccessKey(e.tenant, e.subject, e.client), Notice(e.id, e.version, e.status);
      if n.id in access.receipts { return IGNORED; }
      access := access.(receipts := access.receipts + {n.id});
      if !Supersedes(RowAt(access, k), n) { return IGNORED; }
      access := access.(rows := access.rows[k := StandingOf(n)]);
      if !Revokes(e) { return Outcome(true, None, None); }
      var userId: Option<string> := None;
      if Subject(e.tenant, e.subject) in users {
        userId := Some(users[Subject(e.tenant, e.subject)].id);
        keys := Deactivated(keys, userId.value);
      }
      return Outcome(true, userId, Some(e.subject));
    }

    /** ensureLocalUser: one guarded upsert, answered with the user's id. */
    method EnsureLocalUser(config: LoginConfig, i: Identity, health: Health, newId: string) returns (r: Result<string, LoginError>)
      modifies this
      ensures State() == AfterLogin(old(State()), config, i, health, newId)
      ensures match Login(old(State()), config, i, health, newId)
              case Ok(user) => r == Ok(user.id)
              case Err(e) => r == Err(e)
    {
      var rejected := Rejected(config, i);
      if rejected.Some? { return Err(rejected.value); }
      var k := Subject(i.tenant, i.subject);
      if !Admits(State(), config, i, health) { return Err(InactiveOrStale); }
      var user := Upserted(State(), i, newId);
      if user.None? { return Err(InactiveOrStale); }
      if EmailTaken(users, k, i.email) { return Err(EmailInUse); }
      users := users[k := user.value];
      return Ok(user.value.id);
    }
  }
}
