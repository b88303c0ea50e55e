/** Whole runs of events and logins on the user tables, in any order and with any redelivery. */
module LoginGate {
  import opened Prelude
  import opened IamInbox
  import opened LocalUsers

  datatype Step =
    | Lifecycle(e: LifecycleEvent)
    | Access(change: AccessEvent)
    | SignIn(i: Identity, health: Health, newId: string)
    | IssueKey(keyId: string, userId: string)   // a new, active API key; its id is fresh

  datatype Site = Site(x: Expected, config: LoginConfig)

  /** Does the step commit a delivery to the lifecycle inbox? A rolled back or foreign event does not. */
  predicate CommitsLifecycle(site: Site, db: Db, s: Step) {
    s.Lifecycle? && Ours(site.x, s.e) && AfterLifecycle(db, s.e).Some?
  }

  predicate CommitsAccess(site: Site, s: Step) {
    s.Access? && OurAccess(site.x, s.change)
  }

  function Next(site: Site, db: Db, s: Step): Db {
    match s
    case Lifecycle(e) => if CommitsLifecycle(site, db, s) then AfterLifecycle(db, e).value else db
    case Access(e) => if OurAccess(site.x, e) then AfterAccess(db, e) else db
    case SignIn(i, health, newId) => AfterLogin(db, site.config, i, health, newId)
    case IssueKey(keyId, userId) => if keyId in db.keys then db else db.(keys := db.keys[keyId := KeyRow(userId, true)])
  }

  /** Events of another issuer, tenant or client change nothing; a new key is active and leaves everything else alone. */
  lemma ForeignStepsIgnored(site: Site, db: Db, s: Step)
    ensures s.Lifecycle? && (s.e.issuer, s.e.tenant) != (site.x.issuer, site.x.tenant) ==> Next(site, db, s) == db
    ensures s.Access? && (s.change.issuer, s.change.tenant) != (site.x.issuer, site.x.tenant) ==> Next(site, db, s) == db
    ensures s.Access? && s.change.client !in {site.x.client} + site.x.additionalClients ==> Next(site, db, s) == db
    ensures s.IssueKey? && s.keyId !in db.keys ==> Next(site, db, s) == db.(keys := db.keys[s.keyId := KeyRow(s.userId, true)])
  {}

  /** Users and keys may exist before the first event; the inboxes start empty. */
  predicate Starts(db: Db) {
    db.lifecycle == Table({}, map[]) && db.access == Table({}, map[])
  }

  function DbAt(site: Site, start: Db, run: seq<Step>, n: nat): Db
    requires n <= |run|
  {
    if n == 0 then start else Next(site, DbAt(site, start, run, n - 1), run[n - 1])
  }

  /** An event id names one event of its stream. */
  ghost predicate EventsIdentify(run: seq<Step>) {
    && (forall m, n | 0 <= m < |run| && 0 <= n < |run| && run[m].Lifecycle? && run[n].Lifecycle? && run[m].e.id == run[n].e.id ::
          run[m] == run[n])
    && (forall m, n | 0 <= m < |run| && 0 <= n < |run| && run[m].Access? && run[n].Access? && run[m].change.id == run[n].change.id ::
          run[m] == run[n])
  }

  /** The committed lifecycle deliveries before step `n`. */
  function LifecycleLog(site: Site, start: Db, run: seq<Step>, n: nat): seq<Delivery<Subject>>
    requires n <= |run|
  {
    if n == 0 then []
    else
      var log, s := LifecycleLog(site, start, run, n - 1), run[n - 1];
      if CommitsLifecycle(site, DbAt(site, start, run, n - 1), s) then log + [LifecycleDelivery(s.e)] else log
  }

  function AccessLog(site: Site, run: seq<Step>, n: nat): seq<Delivery<AccessKey>>
    requires n <= |run|
  {
    if n == 0 then []
    else
      var log, s := AccessLog(site, run, n - 1), run[n - 1];
      if CommitsAccess(site, s) then log + [AccessDelivery(s.change)] else log
  }

  lemma ReceiveAppended<K>(ds: seq<Delivery<K>>, d: Delivery<K>)
    ensures ReceiveAll(ds + [d]) == Receive(ReceiveAll(ds), d)
  {
    assert (ds + [d])[..|ds|] == ds;
  }

  lemma NextMovesTables(site: Site, db: Db, s: Step)
    ensures Next(site, db, s).lifecycle == if CommitsLifecycle(site, db, s) then Receive(db.lifecycle, LifecycleDelivery(s.e)) else db.lifecycle
    ensures Next(site, db, s).access == if CommitsAccess(site, s) then Receive(db.access, AccessDelivery(s.change)) else db.access
  {}

  /** Whatever logins do in between, both state tables are the folds of their committed deliveries. */
  lemma {:induction false} TablesAreLogs(site: Site, start: Db, run: seq<Step>, n: nat)
    requires Starts(start) && n <= |run|
    ensures DbAt(site, start, run, n).lifecycle == ReceiveAll(LifecycleLog(site, start, run, n))
    ensures DbAt(site, start, run, n).access == ReceiveAll(AccessLog(site, run, n))
  {
    if n > 0 {
      TablesAreLogs(site, start, run, n - 1);
      var db, s := DbAt(site, start, run, n - 1), run[n - 1];
      NextMovesTables(site, db, s);
      if CommitsLifecycle(site, db, s) {
        ReceiveAppended(LifecycleLog(site, start, run, n - 1), LifecycleDelivery(s.e));
      } else {
        assert LifecycleLog(site, start, run, n) == LifecycleLog(site, start, run, n - 1);
      }
      if CommitsAccess(site, s) {
        ReceiveAppended(AccessLog(site, run, n - 1), AccessDelivery(s.change));
      } else {
        assert AccessLog(site, run, n) == AccessLog(site, run, n - 1);
      }
    }
  }

  lemma {:induction false} LogsGrow(site: Site, start: Db, run: seq<Step>, m: nat, n: nat)
    requires m <= n <= |run|
    ensures LifecycleLog(site, start, run, m) <= LifecycleLog(site, start, run, n)
    ensures AccessLog(site, run, m) <= AccessLog(site, run, n)
  {
    if m < n { LogsGrow(site, start, run, m, n - 1); }
  }

  lemma {:induction false} LifecycleLogFromSteps(site: Site, start: Db, run: seq<Step>, n: nat, i: nat)
    requires n <= |run| && i < |LifecycleLog(site, start, run, n)|
    ensures exists m | 0 <= m < n :: run[m].Lifecycle? && LifecycleLog(site, start, run, n)[i] == LifecycleDelivery(run[m].e)
  {
    if i < |LifecycleLog(site, start, run, n - 1)| { LifecycleLogFromSteps(site, start, run, n - 1, i); }
  }

  lemma {:induction false} AccessLogFromSteps(site: Site, run: seq<Step>, n: nat, i: nat)
    requires n <= |run| && i < |AccessLog(site, run, n)|
    ensures exists m | 0 <= m < n :: run[m].Access? && AccessLog(site, run, n)[i] == AccessDelivery(run[m].change)
  {
    if i < |AccessLog(site, run, n - 1)| { AccessLogFromSteps(site, run, n - 1, i); }
  }

  lemma LogsIdentify(site: Site, start: Db, run: seq<Step>, n: nat)
    requires EventsIdentify(run) && n <= |run|
    ensures DeliveriesIdentify(LifecycleLog(site, start, run, n)) && DeliveriesIdentify(AccessLog(site, run, n))
  {
    var ds, grants := LifecycleLog(site, start, run, n), AccessLog(site, run, n);
    forall i, j | 0 <= i < |ds| && 0 <= j < |ds| && ds[i].notice.id == ds[j].notice.id ensures ds[i] == ds[j] {
      LifecycleLogFromSteps(site, start, run, n, i);
      LifecycleLogFromSteps(site, start, run, n, j);
    }
    forall i, j | 0 <= i < |grants| && 0 <= j < |grants| && grants[i].notice.id == grants[j].notice.id ensures grants[i] == grants[j] {
      AccessLogFromSteps(site, run, n, i);
      AccessLogFromSteps(site, run, n, j);
    }
  }

  function LifecycleRow(site: Site, start: Db, run: seq<Step>, n: nat, k: Subject): Option<Standing>
    requires n <= |run|
  {
    RowAt(DbAt(site, start, run, n).lifecycle, k)
  }

  function AccessRow(site: Site, start: Db, run: seq<Step>, n: nat, k: AccessKey): Option<Standing>
    requires n <= |run|
  {
    RowAt(DbAt(site, start, run, n).access, k)
  }

  /** Over any run, state versions never drop and WITHDRAWN is permanent. */
  lemma StandingsAdvance(site: Site, start: Db, run: seq<Step>, m: nat, n: nat, k: Subject, a: AccessKey)
    requires Starts(start) && EventsIdentify(run) && m <= n <= |run|
    ensures NotBefore(LifecycleRow(site, start, run, m, k), LifecycleRow(site, start, run, n, k))
    ensures NotBefore(AccessRow(site, start, run, m, a), AccessRow(site, start, run, n, a))
  {
    TablesAreLogs(site, start, run, m);
    TablesAreLogs(site, start, run, n);
    LogsGrow(site, start, run, m, n);
    LogsIdentify(site, start, run, n);
    var ds, early := LifecycleLog(site, start, run, n), LifecycleLog(site, start, run, m);
    assert ds[..|early|] == early;
    TableRowsAdvance(ds, |early|, k);
    var grants, earlyGrants := AccessLog(site, run, n), AccessLog(site, run, m);
    assert grants[..|earlyGrants|] == earlyGrants;
    TableRowsAdvance(grants, |earlyGrants|, a);
  }

  lemma LifecycleLogHas(site: Site, start: Db, run: seq<Step>, m: nat, n: nat)
    requires m < n <= |run| && CommitsLifecycle(site, DbAt(site, start, run, m), run[m])
    ensures var i, log := |LifecycleLog(site, start, run, m)|, LifecycleLog(site, start, run, n);
            i < |log| && log[i] == LifecycleDelivery(run[m].e)
  {
    var log := LifecycleLog(site, start, run, m + 1);
    assert log == LifecycleLog(site, start, run, m) + [LifecycleDelivery(run[m].e)];
    LogsGrow(site, start, run, m + 1, n);
  }

  lemma AccessLogHas(site: Site, start: Db, run: seq<Step>, m: nat, n: nat)
    requires m < n <= |run| && CommitsAccess(site, run[m])
    ensures var i, log := |AccessLog(site, run, m)|, AccessLog(site, run, n); i < |log| && log[i] == AccessDelivery(run[m].change)
  {
    var log := AccessLog(site, run, m + 1);
    assert log == AccessLog(site, run, m) + [AccessDelivery(run[m].change)];
    LogsGrow(site, start, run, m + 1, n);
  }

  lemma LifecycleRowReaches(site: Site, start: Db, run: seq<Step>, m: nat, n: nat)
    requires Starts(start) && EventsIdentify(run) && m < n <= |run| && CommitsLifecycle(site, DbAt(site, start, run, m), run[m])
    ensures var row := LifecycleRow(site, start, run, n, Subject(run[m].e.tenant, run[m].e.subject));
            row.Some? && (row.value.version >= run[m].e.version || row.value.status == Withdrawn)
  {
    TablesAreLogs(site, start, run, n);
    LifecycleLogHas(site, start, run, m, n);
    LogsIdentify(site, start, run, n);
    TableRowReachesEach(LifecycleLog(site, start, run, n), |LifecycleLog(site, start, run, m)|);
  }

  lemma AccessRowReaches(site: Site, start: Db, run: seq<Step>, m: nat, n: nat)
    requires Starts(start) && EventsIdentify(run) && m < n <= |run| && CommitsAccess(site, run[m])
    ensures var row := AccessRow(site, start, run, n, AccessKey(run[m].change.tenant, run[m].change.subject, run[m].change.client));
            row.Some? && (row.value.version >= run[m].change.version || row.value.status == Withdrawn)
  {
    TablesAreLogs(site, start, run, n);
    AccessLogHas(site, start, run, m, n);
    LogsIdentify(site, start, run, n);
    TableRowReachesEach(AccessLog(site, run, n), |AccessLog(site, run, m)|);
  }

  predicate SignsIn(site: Site, start: Db, run: seq<Step>, n: nat)
    requires n < |run|
  {
    && run[n].SignIn?
    && Login(DbAt(site, start, run, n), site.config, run[n].i, run[n].health, run[n].newId).Ok?
  }

  /**
   Once an event of version w about a subject has committed, no token of that subject below w ever signs in
   again, whatever events and logins follow.
   */
  lemma StaleTokenNeverSignsIn(site: Site, start: Db, run: seq<Step>, m: nat, n: nat)
    requires Starts(start) && EventsIdentify(run) && m < n < |run| && CommitsLifecycle(site, DbAt(site, start, run, m), run[m])
    requires SignsIn(site, start, run, n) && run[n].i.tenant == run[m].e.tenant && run[n].i.subject == run[m].e.subject
    ensures run[n].i.userVersion >= run[m].e.version
  {
    LifecycleRowReaches(site, start, run, m, n);
  }

  /** The same for service access, where it is enforced, with the token's service access version. */
  lemma StaleAccessNeverSignsIn(site: Site, start: Db, run: seq<Step>, m: nat, n: nat)
    requires Starts(start) && EventsIdentify(run) && m < n < |run| && CommitsAccess(site, run[m]) && site.config.enforced
    requires SignsIn(site, start, run, n) && run[n].i.tenant == run[m].change.tenant && run[n].i.subject == run[m].change.subject
    requires run[m].change.client == site.config.client
    ensures run[n].i.serviceVersion.Some? && run[n].i.serviceVersion.value >= run[m].change.version
  {
    AccessRowReaches(site, start, run, m, n);
  }

  /** Nobody signs in while their row is not ACTIVE; a withdrawn subject or client never again. */
  lemma WithdrawnNeverSignsIn(site: Site, start: Db, run: seq<Step>, m: nat, n: nat)
    requires Starts(start) && EventsIdentify(run) && m <= n < |run| && SignsIn(site, start, run, n)
    ensures var row := LifecycleRow(site, start, run, m, Subject(run[n].i.tenant, run[n].i.subject));
            row.None? || row.value.status != Withdrawn
    ensures var row := AccessRow(site, start, run, m, AccessKey(run[n].i.tenant, run[n].i.subject, site.config.client));
            site.config.enforced ==> row.None? || row.value.status != Withdrawn
    ensures var row := LifecycleRow(site, start, run, n, Subject(run[n].i.tenant, run[n].i.subject));
            row.None? || row.value.status == Active
  {
    var i := run[n].i;
    StandingsAdvance(site, start, run, m, n, Subject(i.tenant, i.subject), AccessKey(i.tenant, i.subject, site.config.client));
  }

  /** Two runs that commit the same settled events about a subject agree on its state row, whatever else they did. */
  lemma RunsConverge(site: Site, start1: Db, run1: seq<Step>, start2: Db, run2: seq<Step>, k: Subject, s: set<Notice>, g: Notice)
    requires Starts(start1) && Starts(start2) && EventsIdentify(run1) && EventsIdentify(run2)
    requires IdsIdentify(s) && Settles(g, s)
    requires forall n :: (Delivery(k, n) in LifecycleLog(site, start1, run1, |run1|) <==> n in s)
                      && (Delivery(k, n) in LifecycleLog(site, start2, run2, |run2|) <==> n in s)
    ensures LifecycleRow(site, start1, run1, |run1|, k) == LifecycleRow(site, start2, run2, |run2|, k) == Some(StandingOf(g))
  {
    TablesAreLogs(site, start1, run1, |run1|);
    TablesAreLogs(site, start2, run2, |run2|);
    LogsIdentify(site, start1, run1, |run1|);
    LogsIdentify(site, start2, run2, |run2|);
    TablesConverge(LifecycleLog(site, start1, run1, |run1|), LifecycleLog(site, start2, run2, |run2|), k, s, g);
  }

  /** No event was committed about the key, or the one that settles its row is ACTIVE and not newer than the token. */
  ghost predicate AllowedBy(ns: seq<Notice>, version: int) {
    ns == [] || exists d: nat :: Decides(ns, d) && ns[d].status == Active && ns[d].version <= version
  }

  lemma NoticesIdentify<K>(ds: seq<Delivery<K>>, k: K, s: set<Notice>)
    requires DeliveriesIdentify(ds) && Lists(NoticesFor(ds, k), s)
    ensures IdsIdentify(s)
  {
    NoticesForExactly(ds, k);
    forall a, b | a in s && b in s && a.id == b.id ensures a == b {
      assert a in NoticesFor(ds, k) && b in NoticesFor(ds, k);
      var i :| 0 <= i < |ds| && ds[i] == Delivery(k, a);
      var j :| 0 <= j < |ds| && ds[j] == Delivery(k, b);
    }
  }

  lemma PermitsExactly<K>(ds: seq<Delivery<K>>, k: K, version: int)
    requires DeliveriesIdentify(ds)
    ensures Permits(ReceiveAll(ds), k, version) <==> AllowedBy(NoticesFor(ds, k), version)
  {
    var ns := NoticesFor(ds, k);
    TableRefinesInbox(ds, k);
    RowComesFromNotice(ns);
    if ns != [] {
      var s := set n | n in ns;
      NoticesIdentify(ds, k, s);
      var i := RowExactly(ns, s);
      if d: nat :| Decides(ns, d) && ns[d].status == Active && ns[d].version <= version { DecidesOnce(ns, d, i); }
    }
  }

  /** The token, and where enforced the service access, is one the committed events about its holder allow, with a live consumer. */
  ghost predicate Cleared(site: Site, start: Db, run: seq<Step>, n: nat, i: Identity, health: Health)
    requires n <= |run|
  {
    && AllowedBy(NoticesFor(LifecycleLog(site, start, run, n), Subject(i.tenant, i.subject)), i.userVersion)
    && health.now - health.lifecycleSeen < 60
    && (site.config.enforced ==>
          && i.serviceVersion != None && 1 <= i.serviceVersion.value <= MAX_SAFE
          && AllowedBy(NoticesFor(AccessLog(site, run, n), AccessKey(i.tenant, i.subject, site.config.client)), i.serviceVersion.value)
          && health.now - health.accessSeen < 60)
  }

  /**
   Over any run, exactly which logins succeed: those of the tenant with an address and a valid token version, cleared by
   the committed events, whose user row is missing or active and whose address no other user has.
   */
  lemma SignsInExactly(site: Site, start: Db, run: seq<Step>, n: nat)
    requires Starts(start) && EventsIdentify(run) && n < |run| && run[n].SignIn?
    ensures var i, users := run[n].i, DbAt(site, start, run, n).users; var k := Subject(i.tenant, i.subject);
      SignsIn(site, start, run, n) <==>
        && i.tenant == site.config.tenant && i.subject != [] && i.email != [] && 1 <= i.userVersion <= MAX_SAFE
        && Cleared(site, start, run, n, i, run[n].health)
        && (k in users ==> users[k].active && users[k].lifecycle == Active)
        && (forall other | other in users && other != k :: users[other].email != i.email)
  {
    var i := run[n].i;
    TablesAreLogs(site, start, run, n);
    LogsIdentify(site, start, run, n);
    PermitsExactly(LifecycleLog(site, start, run, n), Subject(i.tenant, i.subject), i.userVersion);
    if i.serviceVersion.Some? {
      PermitsExactly(AccessLog(site, run, n), AccessKey(i.tenant, i.subject, site.config.client), i.serviceVersion.value);
    }
    LoginExactly(DbAt(site, start, run, n), site.config, i, run[n].health, run[n].newId);
  }

  // ---------------------------------------------------------------- users and keys

  /** One step never lowers a user's version, and touches no user whose subject is withdrawn. */
  lemma StepKeepsUser(site: Site, db: Db, s: Step, k: Subject)
    requires k in db.users
    ensures k in Next(site, db, s).users && db.users[k].version <= Next(site, db, s).users[k].version
    ensures Next(site, db, s).users[k].id == db.users[k].id
    ensures RowAt(db.lifecycle, k).Some? && RowAt(db.lifecycle, k).value.status == Withdrawn ==> Next(site, db, s).users[k] == db.users[k]
  {}

  predicate Frozen(db: Db, k: Subject, user: User) {
    && k in db.users && db.users[k] == user
    && RowAt(db.lifecycle, k).Some? && RowAt(db.lifecycle, k).value.status == Withdrawn
  }

  lemma StepKeepsFrozen(site: Site, db: Db, s: Step, k: Subject, user: User)
    requires Frozen(db, k, user)
    ensures Frozen(Next(site, db, s), k, user)
  {}

  /** After withdrawal the local user is frozen for the rest of the run. */
  lemma {:induction false} WithdrawnUserFrozen(site: Site, start: Db, run: seq<Step>, m: nat, n: nat, k: Subject, user: User)
    requires m <= n <= |run| && Frozen(DbAt(site, start, run, m), k, user)
    ensures Frozen(DbAt(site, start, run, n), k, user)
  {
    if m < n {
      WithdrawnUserFrozen(site, start, run, m, n - 1, k, user);
      StepKeepsFrozen(site, DbAt(site, start, run, n - 1), run[n - 1], k, user);
    }
  }

  /** The lifecycle events that switch a user back on: a re-enabling, of this subject. */
  predicate Reenables(s: Step, k: Subject) {
    s.Lifecycle? && Subject(s.e.tenant, s.e.subject) == k && StatusOf(s.e.kind) == Active && !s.e.kind.UserCreated? && !CarriesProfile(s.e)
  }

  lemma StepKeepsInactive(site: Site, db: Db, s: Step, k: Subject)
    requires k in db.users && !db.users[k].active && !Reenables(s, k)
    ensures k in Next(site, db, s).users && !Next(site, db, s).users[k].active
  {}

  /** A switched-off user stays off through any logins and events until one re-enables that very subject. */
  lemma {:induction false} InactiveUntilReenabled(site: Site, start: Db, run: seq<Step>, m: nat, n: nat, k: Subject)
    requires m <= n <= |run| && k in DbAt(site, start, run, m).users && !DbAt(site, start, run, m).users[k].active
    requires forall i | m <= i < n :: !Reenables(run[i], k)
    ensures k in DbAt(site, start, run, n).users && !DbAt(site, start, run, n).users[k].active
  {
    if m < n {
      InactiveUntilReenabled(site, start, run, m, n - 1, k);
      StepKeepsInactive(site, DbAt(site, start, run, n - 1), run[n - 1], k);
    }
  }

  // ---------------------------------------------------------------- events reach users and keys for good

  predicate AppliesAt(site: Site, db: Db, s: Step) {
    CommitsLifecycle(site, db, s) && Applies(db.lifecycle, LifecycleDelivery(s.e))
  }

  predicate AppliesAccessAt(site: Site, db: Db, s: Step) {
    CommitsAccess(site, s) && Applies(db.access, AccessDelivery(s.change))
  }

  predicate UserAtLeast(db: Db, k: Subject, version: int) {
    k in db.users && db.users[k].version >= version
  }

  lemma StepKeepsAtLeast(site: Site, db: Db, s: Step, k: Subject, version: int)
    requires UserAtLeast(db, k, version)
    ensures UserAtLeast(Next(site, db, s), k, version)
  {
    StepKeepsUser(site, db, s, k);
  }

  /** User versions never drop. */
  lemma {:induction false} UserVersionsAdvance(site: Site, start: Db, run: seq<Step>, m: nat, n: nat, k: Subject, version: int)
    requires m <= n <= |run| && UserAtLeast(DbAt(site, start, run, m), k, version)
    ensures UserAtLeast(DbAt(site, start, run, n), k, version)
  {
    if m < n {
      UserVersionsAdvance(site, start, run, m, n - 1, k, version);
      StepKeepsAtLeast(site, DbAt(site, start, run, n - 1), run[n - 1], k, version);
    }
  }

  /** An applied event brings its own user up to its version, sets its status if it carries one, and touches nobody else. */
  lemma EventReachesItsUser(db: Db, e: LifecycleEvent)
    requires Applies(db.lifecycle, LifecycleDelivery(e)) && AfterLifecycle(db, e).Some?
    ensures var k, after := Subject(e.tenant, e.subject), AfterLifecycle(db, e).value;
      && after.users.Keys == db.users.Keys && after.access == db.access
      && (forall other | other in db.users && other != k :: after.users[other] == db.users[other])
      && (k in db.users && !e.kind.UserCreated? ==> after.users[k].version == Max(db.users[k].version, e.version))
      && (OlderUser(db, k, e.version) && !e.kind.UserCreated? && !CarriesProfile(e) ==>
            after.users[k].lifecycle == StatusOf(e.kind) && (after.users[k].active <==> StatusOf(e.kind) == Active))
      && (k in db.users ==> forall id | id in db.keys && db.keys[id].userId != db.users[k].id :: id in after.keys && after.keys[id] == db.keys[id])
  {}

  lemma AppliedReachesUser(site: Site, db: Db, s: Step, k: Subject)
    requires AppliesAt(site, db, s) && !s.e.kind.UserCreated? && k == Subject(s.e.tenant, s.e.subject) && k in db.users
    ensures UserAtLeast(Next(site, db, s), k, s.e.version)
  {
    EventReachesItsUser(db, s.e);
  }

  /** Once an event has been applied, its user's row is at least at its version for the rest of the run. */
  lemma {:induction false} UserReachesEvent(site: Site, start: Db, run: seq<Step>, m: nat, n: nat, k: Subject)
    requires m < n <= |run| && AppliesAt(site, DbAt(site, start, run, m), run[m]) && !run[m].e.kind.UserCreated?
    requires k == Subject(run[m].e.tenant, run[m].e.subject) && k in DbAt(site, start, run, m).users
    ensures UserAtLeast(DbAt(site, start, run, n), k, run[m].e.version)
  {
    if n == m + 1 {
      AppliedReachesUser(site, DbAt(site, start, run, m), run[m], k);
    } else {
      UserReachesEvent(site, start, run, m, n - 1, k);
      StepKeepsAtLeast(site, DbAt(site, start, run, n - 1), run[n - 1], k, run[m].e.version);
    }
  }

  /** The steps that may touch a subject's user row. */
  predicate Concerns(s: Step, k: Subject) {
    match s
    case Lifecycle(e) => Subject(e.tenant, e.subject) == k
    case SignIn(i, _, _) => Subject(i.tenant, i.subject) == k
    case _ => false
  }

  lemma OthersUntouchedStep(site: Site, db: Db, s: Step, k: Subject)
    requires !Concerns(s, k)
    ensures k in Next(site, db, s).users <==> k in db.users
    ensures k in db.users ==> Next(site, db, s).users[k] == db.users[k]
  {}

  /** A user row changes only through its own subject's events and logins. */
  lemma {:induction false} OthersUntouched(site: Site, start: Db, run: seq<Step>, m: nat, n: nat, k: Subject)
    requires m <= n <= |run| && forall i | m <= i < n :: !Concerns(run[i], k)
    ensures k in DbAt(site, start, run, n).users <==> k in DbAt(site, start, run, m).users
    ensures k in DbAt(site, start, run, m).users ==> DbAt(site, start, run, n).users[k] == DbAt(site, start, run, m).users[k]
  {
    if m < n {
      OthersUntouched(site, start, run, m, n - 1, k);
      OthersUntouchedStep(site, DbAt(site, start, run, n - 1), run[n - 1], k);
    }
  }

  predicate KeysStopped(keys: map<string, KeyRow>, userId: string) {
    forall id | id in keys && keys[id].userId == userId :: !keys[id].active
  }

  /**
   A committed disabling event stops the user's keys exactly when it supersedes the state row and is newer than the
   user row (or no key was active): a login with the event's own version, committed first, keeps the keys alive,
   and so does a newer event.
   */
  lemma DisablingStopsKeys(site: Site, db: Db, s: Step)
    requires CommitsLifecycle(site, db, s) && (s.e.kind.UserDisabled? || s.e.kind.UserDeleted?)
    requires Subject(s.e.tenant, s.e.subject) in db.users
    ensures var user := db.users[Subject(s.e.tenant, s.e.subject)];
      KeysStopped(Next(site, db, s).keys, user.id) <==>
        (Applies(db.lifecycle, LifecycleDelivery(s.e)) && user.version < s.e.version) || KeysStopped(db.keys, user.id)
  {}

  /** An applied access event that revokes stops every key of the subject's user, and no key of anybody else. */
  lemma RevokingStopsKeys(site: Site, db: Db, s: Step)
    requires AppliesAccessAt(site, db, s) && Revokes(s.change) && Subject(s.change.tenant, s.change.subject) in db.users
    ensures var userId := db.users[Subject(s.change.tenant, s.change.subject)].id; var keys := Next(site, db, s).keys;
      && KeysStopped(keys, userId) && keys.Keys == db.keys.Keys
      && forall id | id in keys && keys[id].userId != userId :: keys[id] == db.keys[id]
  {}

  /** Step m cut off every key the user had: a revoking access event, or a disabling event newer than the user row. */
  predicate CutsOff(site: Site, db: Db, s: Step, k: Subject) {
    && k in db.users
    && (|| (AppliesAccessAt(site, db, s) && Revokes(s.change) && k == Subject(s.change.tenant, s.change.subject))
        || (AppliesAt(site, db, s) && (s.e.kind.UserDisabled? || s.e.kind.UserDeleted?) && k == Subject(s.e.tenant, s.e.subject)
            && db.users[k].version < s.e.version))
  }

  lemma CutOffStops(site: Site, db: Db, s: Step, k: Subject)
    requires CutsOff(site, db, s, k)
    ensures KeysStopped(Next(site, db, s).keys, db.users[k].id)
  {
    if s.Access? { RevokingStopsKeys(site, db, s); } else { DisablingStopsKeys(site, db, s); }
  }

  /** An active key of the user in this table was issued by one of the given steps. */
  ghost predicate OnlyNewKeys(keys: map<string, KeyRow>, userId: string, run: seq<Step>, m: nat, n: nat)
    requires m <= n <= |run|
  {
    forall id | id in keys && keys[id].userId == userId && keys[id].active :: IssuedWithin(run, m, n, id, userId)
  }

  ghost predicate IssuedWithin(run: seq<Step>, m: nat, n: nat, id: string, userId: string)
    requires m <= n <= |run|
  {
    exists i | m <= i < n :: run[i] == IssueKey(id, userId)
  }

  lemma StepActivatesNothing(site: Site, db: Db, s: Step, id: string)
    requires id in Next(site, db, s).keys && Next(site, db, s).keys[id].active
    ensures (id in db.keys && db.keys[id] == Next(site, db, s).keys[id]) || s == IssueKey(id, Next(site, db, s).keys[id].userId)
  {}

  lemma {:induction false} StoppedStayStopped(site: Site, start: Db, run: seq<Step>, m: nat, n: nat, userId: string)
    requires m <= n <= |run| && KeysStopped(DbAt(site, start, run, m).keys, userId)
    ensures OnlyNewKeys(DbAt(site, start, run, n).keys, userId, run, m, n)
  {
    if m < n {
      StoppedStayStopped(site, start, run, m, n - 1, userId);
      var db, keys := DbAt(site, start, run, n - 1), DbAt(site, start, run, n).keys;
      forall id | id in keys && keys[id].userId == userId && keys[id].active ensures IssuedWithin(run, m, n, id, userId) {
        StepActivatesNothing(site, db, run[n - 1], id);
        if id in db.keys && db.keys[id] == keys[id] {
          assert IssuedWithin(run, m, n - 1, id, userId);
          var i :| m <= i < n - 1 && run[i] == IssueKey(id, userId);
        } else {
          assert run[n - 1] == IssueKey(id, userId);
        }
      }
    }
  }

  /**
   After a revoking access event, or a disabling event newer than the user row, no key the user had ever works again:
   at every later step an active key of that user was issued after the event.
   */
  lemma CutOffForGood(site: Site, start: Db, run: seq<Step>, m: nat, n: nat, k: Subject)
    requires m < n <= |run| && CutsOff(site, DbAt(site, start, run, m), run[m], k)
    ensures OnlyNewKeys(DbAt(site, start, run, n).keys, DbAt(site, start, run, m).users[k].id, run, m + 1, n)
  {
    CutOffStops(site, DbAt(site, start, run, m), run[m], k);
    StoppedStayStopped(site, start, run, m + 1, n, DbAt(site, start, run, m).users[k].id);
  }

  /** The other case does occur: a login at version 2, then the disabling event of version 2, and the key stays active. */
  lemma LateDisableKeepsKeys(site: Site, start: Db, i: Identity, e: LifecycleEvent, health: Health, user: User, keyId: string)
    requires Starts(start) && !site.config.enforced && Fresh(health, health.lifecycleSeen)
    requires i.tenant == site.config.tenant == site.x.tenant == e.tenant && i.subject == e.subject != [] && i.email == user.email != []
    requires i.userVersion == e.version == 2 && e.issuer == site.x.issuer && e.kind.UserDisabled?
    requires user.active && user.lifecycle == Active && user.version == 1
    requires start.users == map[Subject(i.tenant, i.subject) := user] && start.keys == map[keyId := KeyRow(user.id, true)]
    ensures var run := [SignIn(i, health, user.id), Lifecycle(e)];
            && SignsIn(site, start, run, 0) && AppliesAt(site, DbAt(site, start, run, 1), run[1])
            && DbAt(site, start, run, 2).keys == start.keys
  {
    var run := [SignIn(i, health, user.id), Lifecycle(e)];
    var k := Subject(i.tenant, i.subject);
    assert DbAt(site, start, run, 0) == start;
    assert !EmailTaken(start.users, k, i.email);
    var after := AfterLogin(start, site.config, i, health, user.id);
    assert DbAt(site, start, run, 1) == after;
    assert after.users[k].version == 2;
    assert DbAt(site, start, run, 2) == Next(site, after, run[1]);
  }
}
