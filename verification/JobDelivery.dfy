/** JobService: building the signed record of a request, and delivering pending jobs to a polling device. */
module JobDelivery {
  import opened Prelude
  import opened Ordering
  import opened JobContract
  import opened JobSigner
  import opened JobSize
  import opened ManagementModel
  import opened IssueProtocol

  datatype ManagementConfig = ManagementConfig(issuer: string, tenant: string, resource: string)

  /** The replicas of one gateway: shared configuration, primitives, and the public key behind each signing key id. */
  datatype Fleet = Fleet(p: Primitives, config: ManagementConfig, keyOf: string -> string)

  function TrustIn(f: Fleet, kid: string): JobTrust {
    JobTrust(kid, f.keyOf(kid))
  }

  function BindingOf(c: ManagementConfig, i: Identity): JobBinding {
    JobBinding(c.resource, c.issuer, i.tenant, i.organization, i.subject, i.device, i.version, i.jkt)
  }

  datatype Request = Request(
    requestId: string, organizationId: string, deviceId: string, resource: Resource, policyRevision: int, expectedStateVersion: int)

  /** The two random UUIDs drawn by the build callback. */
  datatype FreshIds = FreshIds(jobId: string, authorizationId: string)

  function JobFor(f: Fleet, q: Request, target: Identity, a: Authority, ids: FreshIds, now: int): ManagementJob {
    ManagementJob(
      ids.jobId, f.config.resource, f.config.issuer, f.config.tenant, q.organizationId, target.subject,
      target.device, target.version, target.jkt, Approval(a.subject, ids.authorizationId, a.checkedAt), q.resource,
      q.policyRevision, q.expectedStateVersion, now, now + 300)
  }

  /** The build callback of issue: parse the schema, sign, verify the own signature; None when any of them throws. */
  function BuildRecord(f: Fleet, kid: string, q: Request, target: Identity, a: Authority, ids: FreshIds, now: int): Option<StoredJob>
    requires ValidId(kid)
  {
    var job := JobFor(f, q, target, a, ids, now);
    match Sign(f.p, TrustIn(f, kid), job)
    case None => None
    case Some(compact) =>
      if Verify(f.p, compact, TrustIn(f, kid), BindingOf(f.config, target), now).Ok?
      then Some(StoredJob(job, compact, kid, a)) else None
  }

  /** What every stored record satisfies: it is the signature of its own job, issued within the windows for its key. */
  ghost predicate IssuedRecord(f: Fleet, k: JobKey, record: StoredJob) {
    var job := record.job;
    && TrustValid(TrustIn(f, record.kid)) && SchemaValid(f.p, job) && WindowsValid(job)
    && Sign(f.p, TrustIn(f, record.kid), job) == Some(record.compact)
    && job.iss == f.config.resource && job.identityIssuer == f.config.issuer && job.tenantId == f.config.tenant
    && k == JobKey(job.identityIssuer, job.tenantId, job.organizationId, k.requestId)
    && job.approvedBy.subject == record.authority.subject && job.approvedBy.approvedAt == record.authority.checkedAt
  }

  /** The target the service passes to the callback belongs to the configured tenant and the requested organization. */
  predicate TargetChecked(f: Fleet, q: Request, target: Identity) {
    && target.issuer == f.config.issuer && target.tenant == f.config.tenant
    && target.organization == q.organizationId && target.device == q.deviceId
  }

  /** Every value the job is made of is well formed, and its expiry still is a timestamp. */
  predicate Buildable(f: Fleet, q: Request, target: Identity, a: Authority, ids: FreshIds, now: int) {
    && ValidId(ids.jobId) && ValidId(ids.authorizationId) && ValidUrl(f.p, f.config.resource) && ValidUrl(f.p, f.config.issuer)
    && ValidId(f.config.tenant) && ValidId(q.organizationId) && ValidId(target.subject) && ValidId(q.deviceId)
    && Positive(target.version) && ValidThumbprint(target.jkt) && ValidId(a.subject) && Timestamp(a.checkedAt)
    && ResourceValid(q.resource) && Positive(q.policyRevision) && Positive(q.expectedStateVersion)
    && now + 300 <= MAX_SAFE
  }

  /**
   Building succeeds exactly when its values are well formed and the approval was checked no later than now and at
   most five minutes ago: an authority reply up to 5 s ahead of the gateway clock makes issue fail.
   */
  lemma BuildSucceedsExactly(f: Fleet, kid: string, q: Request, target: Identity, a: Authority, ids: FreshIds, now: int)
    requires SignsSoundly(f.p) && TrustValid(TrustIn(f, kid)) && Timestamp(now) && TargetChecked(f, q, target)
    ensures BuildRecord(f, kid, q, target, a, ids, now).Some?
       <==> Buildable(f, q, target, a, ids, now) && a.checkedAt <= now <= a.checkedAt + 300
  {
    var job := JobFor(f, q, target, a, ids, now);
    if SchemaValid(f.p, job) {
      SignVerify(f.p, TrustIn(f, kid), job, BindingOf(f.config, target), now);
    }
  }

  /** Every field of the signed job is that of the request, the target, the authority, the drawn ids or the clock. */
  lemma BuiltForRequest(f: Fleet, kid: string, q: Request, target: Identity, a: Authority, ids: FreshIds, now: int)
    requires ValidId(kid) && TargetChecked(f, q, target) && BuildRecord(f, kid, q, target, a, ids, now).Some?
    ensures var record := BuildRecord(f, kid, q, target, a, ids, now).value; var j := record.job;
      && record.kid == kid && record.authority == a
      && j.jobId == ids.jobId && j.iat == now && j.exp == now + 300
      && j.approvedBy == Approval(a.subject, ids.authorizationId, a.checkedAt)
      && j.iss == f.config.resource && j.identityIssuer == f.config.issuer && j.tenantId == f.config.tenant
      && j.organizationId == q.organizationId && j.deviceId == q.deviceId
      && j.subject == target.subject && j.deviceVersion == target.version && j.keyJkt == target.jkt
      && j.resource == q.resource && j.policyRevision == q.policyRevision && j.expectedStateVersion == q.expectedStateVersion
  {}

  lemma BuiltVerifies(f: Fleet, kid: string, q: Request, target: Identity, a: Authority, ids: FreshIds, issuedAt: int, verifiedAt: int)
    requires SignsSoundly(f.p) && TrustValid(TrustIn(f, kid)) && Timestamp(issuedAt) && TargetChecked(f, q, target)
    requires BuildRecord(f, kid, q, target, a, ids, issuedAt).Some?
    requires 0 <= verifiedAt && issuedAt - 5 <= verifiedAt < issuedAt + 300
    ensures var record := BuildRecord(f, kid, q, target, a, ids, issuedAt).value;
            var b := JobBinding(f.config.resource, f.config.issuer, target.tenant, q.organizationId, target.subject, q.deviceId,
                                target.version, target.jkt);
            var v := Verify(f.p, record.compact, TrustIn(f, kid), b, verifiedAt);
            && SchemaValid(f.p, record.job) && v == Ok(VerifiedJob(record.job, JobDigest(f.p, record.job), verifiedAt))
  {
    BuildSucceedsExactly(f, kid, q, target, a, ids, issuedAt);
    SignVerify(f.p, TrustIn(f, kid), JobFor(f, q, target, a, ids, issuedAt), BindingOf(f.config, target), verifiedAt);
  }

  /** The job asks for what the request asked, in the id drawn for it. */
  predicate AsksFor(j: ManagementJob, q: Request, jobId: string) {
    && j.jobId == jobId && j.resource == q.resource && j.policyRevision == q.policyRevision && j.expectedStateVersion == q.expectedStateVersion
    && ResourceValid(q.resource) && Positive(q.policyRevision) && Positive(q.expectedStateVersion)
  }

  /** Planning admits the job on exactly the requested state, below the last version, and moves it to the next one. */
  predicate PlansAsAsked(v: VerifiedJob, q: Request, jobId: string, state: ResourceState, now: int) {
    var plan := Plan(v, state, now, None);
    && (plan.Ok? <==> state == ResourceState(q.resource, q.policyRevision, q.expectedStateVersion, Active) && q.expectedStateVersion < MAX_SAFE)
    && (plan.Ok? ==> plan.value == PrepareRevoke(jobId, v.digest, q.resource.id, q.expectedStateVersion, q.expectedStateVersion + 1))
  }

  lemma AskedIsPlanned(v: VerifiedJob, q: Request, jobId: string, state: ResourceState, now: int)
    requires AsksFor(v.job, q, jobId) && InTime(v, now)
    ensures PlansAsAsked(v, q, jobId, state, now)
  {
    PlanPreparesExactly(v, state, now, None);
  }

  lemma BuiltAsks(f: Fleet, kid: string, q: Request, target: Identity, a: Authority, ids: FreshIds, now: int)
    requires SignsSoundly(f.p) && TrustValid(TrustIn(f, kid)) && Timestamp(now) && TargetChecked(f, q, target)
    requires BuildRecord(f, kid, q, target, a, ids, now).Some?
    ensures var j := BuildRecord(f, kid, q, target, a, ids, now).value.job;
            AsksFor(j, q, ids.jobId) && j.iat == now && j.exp == now + 300 <= MAX_SAFE
  {
    BuildSucceedsExactly(f, kid, q, target, a, ids, now);
    BuiltForRequest(f, kid, q, target, a, ids, now);
  }

  /**
   End to end, the signed job does what was asked and nothing else: while it is valid, the target verifies it, and
   planning admits it on exactly one state, the requested resource active at the requested revision and version,
   which it moves to the next version.
   */
  lemma BuiltRevokesExactly(f: Fleet, kid: string, q: Request, target: Identity, a: Authority, ids: FreshIds, issuedAt: int,
                            verifiedAt: int, now: int, state: ResourceState)
    requires SignsSoundly(f.p) && TrustValid(TrustIn(f, kid)) && Timestamp(issuedAt) && TargetChecked(f, q, target)
    requires BuildRecord(f, kid, q, target, a, ids, issuedAt).Some?
    requires 0 <= verifiedAt && issuedAt - 5 <= verifiedAt <= now < issuedAt + 300
    ensures var b := JobBinding(f.config.resource, f.config.issuer, target.tenant, q.organizationId, target.subject, q.deviceId,
                                target.version, target.jkt);
      var verified := Verify(f.p, BuildRecord(f, kid, q, target, a, ids, issuedAt).value.compact, TrustIn(f, kid), b, verifiedAt);
      verified.Ok? && PlansAsAsked(verified.value, q, ids.jobId, state, now)
  {
    BuiltAsks(f, kid, q, target, a, ids, issuedAt);
    BuiltVerifies(f, kid, q, target, a, ids, issuedAt, verifiedAt);
    var job := BuildRecord(f, kid, q, target, a, ids, issuedAt).value.job;
    AskedIsPlanned(VerifiedJob(job, JobDigest(f.p, job), verifiedAt), q, ids.jobId, state, now);
  }

  /** Whatever the callback returns satisfies the record invariant under the request's key. */
  lemma BuiltRecordIsIssued(f: Fleet, kid: string, q: Request, target: Identity, a: Authority, ids: FreshIds, now: int)
    requires SignsSoundly(f.p) && TrustValid(TrustIn(f, kid)) && Timestamp(now) && TargetChecked(f, q, target)
    requires BuildRecord(f, kid, q, target, a, ids, now).Some?
    ensures IssuedRecord(f, JobKey(f.config.issuer, f.config.tenant, q.organizationId, q.requestId),
                         BuildRecord(f, kid, q, target, a, ids, now).value)
  {
    BuildSucceedsExactly(f, kid, q, target, a, ids, now);
  }

  // ---------------------------------------------------------------- the pending query

  datatype Slot = Slot(createdAt: int, jobId: string)

  /** ORDER BY created_at, job_id. */
  predicate SlotLe(a: Slot, b: Slot) {
    a.createdAt < b.createdAt || (a.createdAt == b.createdAt && LexLe(a.jobId, b.jobId))
  }

  lemma SlotOrderIsTotal()
    ensures TotalOrder(SlotLe)
  {
    LexIsTotalOrder();
  }

  function SlotOf(row: JobRow): Slot {
    Slot(row.createdAt, row.jobId)
  }

  predicate Completed(results: map<string, ResultRow>, jobId: string) {
    jobId in results && results[jobId].result.termination.Confirmed?
  }

  /** The WHERE clause: the device's live jobs of the current key id without a confirmed result. */
  predicate Selected(db: Db, i: Identity, kid: string, clock: int, k: JobKey)
    requires k in db.jobs
  {
    var row := db.jobs[k];
    && k.issuer == i.issuer && k.tenant == i.tenant && k.organization == i.organization
    && row.deviceId == i.device && row.kid == kid && Live(row, clock) && !Completed(db.results, row.jobId)
  }

  function SelectedSlots(db: Db, i: Identity, kid: string, clock: int): set<Slot> {
    set k | k in db.jobs && Selected(db, i, kid, clock, k) :: SlotOf(db.jobs[k])
  }

  /** The first twenty selected slots. */
  function PendingSlots(db: Db, i: Identity, kid: string, clock: int): seq<Slot> {
    assert TotalOrder(SlotLe) by { SlotOrderIsTotal(); }
    var all := Sorted(SlotLe, SelectedSlots(db, i, kid, clock));
    if |all| <= 20 then all else all[..20]
  }

  predicate SlotUsed(jobs: map<JobKey, JobRow>, slot: Slot) {
    exists k | k in jobs :: SlotOf(jobs[k]) == slot
  }

  function KeyAt(jobs: map<JobKey, JobRow>, slot: Slot): (k: JobKey)
    requires UniqueJobIds(jobs) && SlotUsed(jobs, slot)
    ensures k in jobs && SlotOf(jobs[k]) == slot
  {
    var k :| k in jobs && SlotOf(jobs[k]) == slot;
    k
  }

  function RecordAt(jobs: map<JobKey, JobRow>, slot: Slot): StoredJob
    requires UniqueJobIds(jobs) && SlotUsed(jobs, slot)
  {
    jobs[KeyAt(jobs, slot)].record
  }

  lemma SelectedSlotUsed(db: Db, i: Identity, kid: string, clock: int, slot: Slot)
    requires slot in SelectedSlots(db, i, kid, clock)
    ensures SlotUsed(db.jobs, slot)
  {}

  lemma PendingSlotSelected(db: Db, i: Identity, kid: string, clock: int, n: nat)
    requires n < |PendingSlots(db, i, kid, clock)|
    ensures PendingSlots(db, i, kid, clock)[n] in SelectedSlots(db, i, kid, clock)
  {
    SlotOrderIsTotal();
    var all := Sorted(SlotLe, SelectedSlots(db, i, kid, clock));
    assert all[n] in all;
  }

  lemma PendingSlotsUsed(db: Db, i: Identity, kid: string, clock: int)
    ensures forall n | 0 <= n < |PendingSlots(db, i, kid, clock)| :: SlotUsed(db.jobs, PendingSlots(db, i, kid, clock)[n])
  {
    var slots := PendingSlots(db, i, kid, clock);
    forall n | 0 <= n < |slots| ensures SlotUsed(db.jobs, slots[n]) {
      PendingSlotSelected(db, i, kid, clock, n);
      SelectedSlotUsed(db, i, kid, clock, slots[n]);
    }
  }

  /** PostgresJobStore.pending. */
  function PendingRecords(db: Db, i: Identity, kid: string, clock: int): (r: seq<StoredJob>)
    requires UniqueJobIds(db.jobs)
    ensures |r| == |PendingSlots(db, i, kid, clock)| <= 20
  {
    var slots := PendingSlots(db, i, kid, clock);
    PendingSlotsUsed(db, i, kid, clock);
    seq(|slots|, n requires 0 <= n < |slots| && SlotUsed(db.jobs, slots[n]) => RecordAt(db.jobs, slots[n]))
  }

  ghost predicate RowBehind(db: Db, i: Identity, kid: string, clock: int, slot: Slot, record: StoredJob) {
    exists k | k in db.jobs :: Selected(db, i, kid, clock, k) && SlotOf(db.jobs[k]) == slot && db.jobs[k].record == record
  }

  /** Every candidate is a selected row, and candidates come strictly in creation order. */
  lemma PendingRecordsSelected(db: Db, i: Identity, kid: string, clock: int)
    requires UniqueJobIds(db.jobs)
    ensures var r := PendingRecords(db, i, kid, clock); var slots := PendingSlots(db, i, kid, clock);
      && (forall n | 0 <= n < |r| :: RowBehind(db, i, kid, clock, slots[n], r[n]))
      && (forall m, n | 0 <= m < n < |r| :: SlotLe(slots[m], slots[n]) && slots[m] != slots[n])
  {
    SlotOrderIsTotal();
    PendingSlotsUsed(db, i, kid, clock);
    var all := Sorted(SlotLe, SelectedSlots(db, i, kid, clock));
    var r, slots := PendingRecords(db, i, kid, clock), PendingSlots(db, i, kid, clock);
    forall n | 0 <= n < |r| ensures RowBehind(db, i, kid, clock, slots[n], r[n]) {
      assert slots[n] == all[n] && all[n] in all;
      var k :| k in db.jobs && Selected(db, i, kid, clock, k) && SlotOf(db.jobs[k]) == slots[n];
      assert r[n] == RecordAt(db.jobs, slots[n]);
    }
  }

  lemma RecordAtOwnSlot(jobs: map<JobKey, JobRow>, k: JobKey)
    requires UniqueJobIds(jobs) && k in jobs
    ensures SlotUsed(jobs, SlotOf(jobs[k])) && RecordAt(jobs, SlotOf(jobs[k])) == jobs[k].record
  {}

  lemma SelectedSlotListed(db: Db, i: Identity, kid: string, clock: int, slot: Slot)
    requires slot in SelectedSlots(db, i, kid, clock)
    ensures var slots := PendingSlots(db, i, kid, clock);
            slot in slots || (|slots| == 20 && forall n | 0 <= n < 20 :: SlotLe(slots[n], slot))
  {
    SlotOrderIsTotal();
    var all := Sorted(SlotLe, SelectedSlots(db, i, kid, clock));
    var a :| 0 <= a < |all| && all[a] == slot;
    var slots := PendingSlots(db, i, kid, clock);
    if a < |slots| { assert slots[a] == all[a]; }
  }

  /** A selected row is left out only behind twenty earlier ones. */
  lemma PendingRecordsComplete(db: Db, i: Identity, kid: string, clock: int, k: JobKey)
    requires UniqueJobIds(db.jobs) && k in db.jobs && Selected(db, i, kid, clock, k)
    ensures var slots := PendingSlots(db, i, kid, clock);
      || (exists n | 0 <= n < |slots| ::
            slots[n] == SlotOf(db.jobs[k]) && PendingRecords(db, i, kid, clock)[n] == db.jobs[k].record)
      || (|slots| == 20 && forall n | 0 <= n < 20 :: SlotLe(slots[n], SlotOf(db.jobs[k])))
  {
    var slots := PendingSlots(db, i, kid, clock);
    SelectedSlotListed(db, i, kid, clock, SlotOf(db.jobs[k]));
    RecordAtOwnSlot(db.jobs, k);
    PendingSlotsUsed(db, i, kid, clock);
    if SlotOf(db.jobs[k]) in slots {
      var n :| 0 <= n < |slots| && slots[n] == SlotOf(db.jobs[k]);
      assert PendingRecords(db, i, kid, clock)[n] == RecordAt(db.jobs, slots[n]);
    }
  }

  /** Row a was created before row b, job ids breaking ties. */
  predicate Earlier(a: JobRow, b: JobRow) {
    a.createdAt < b.createdAt || (a.createdAt == b.createdAt && a.jobId != b.jobId && LexLe(a.jobId, b.jobId))
  }

  /** The keys list the first twenty of the chosen rows in creation order, or all of them if there are fewer. */
  ghost predicate FirstTwenty(jobs: map<JobKey, JobRow>, chosen: set<JobKey>, ks: seq<JobKey>)
    requires chosen <= jobs.Keys
  {
    && |ks| <= 20 && (forall n | 0 <= n < |ks| :: ks[n] in chosen)
    && (forall m, n | 0 <= m < n < |ks| :: Earlier(jobs[ks[m]], jobs[ks[n]]))
    && (forall k | k in chosen && k !in ks :: |ks| == 20 && forall n | 0 <= n < 20 :: Earlier(jobs[ks[n]], jobs[k]))
  }

  function SelectedKeys(db: Db, i: Identity, kid: string, clock: int): set<JobKey> {
    set k | k in db.jobs && Selected(db, i, kid, clock, k)
  }

  lemma OneKeyPerSlot(jobs: map<JobKey, JobRow>, k: JobKey)
    requires UniqueJobIds(jobs) && k in jobs
    ensures SlotUsed(jobs, SlotOf(jobs[k])) && KeyAt(jobs, SlotOf(jobs[k])) == k
  {}

  /** The keys behind the candidates, in order. */
  function PendingKeys(db: Db, i: Identity, kid: string, clock: int): (ks: seq<JobKey>)
    requires UniqueJobIds(db.jobs)
    ensures |ks| == |PendingSlots(db, i, kid, clock)|
  {
    var slots := PendingSlots(db, i, kid, clock);
    PendingSlotsUsed(db, i, kid, clock);
    seq(|slots|, n requires 0 <= n < |slots| && SlotUsed(db.jobs, slots[n]) => KeyAt(db.jobs, slots[n]))
  }

  lemma PendingKeyAt(db: Db, i: Identity, kid: string, clock: int, n: nat)
    requires UniqueJobIds(db.jobs) && n < |PendingSlots(db, i, kid, clock)|
    ensures var k := PendingKeys(db, i, kid, clock)[n];
      && k in SelectedKeys(db, i, kid, clock) && SlotOf(db.jobs[k]) == PendingSlots(db, i, kid, clock)[n]
      && PendingRecords(db, i, kid, clock)[n] == db.jobs[k].record
  {
    var slots := PendingSlots(db, i, kid, clock);
    PendingSlotsUsed(db, i, kid, clock);
    PendingSlotSelected(db, i, kid, clock, n);
    var k :| k in db.jobs && Selected(db, i, kid, clock, k) && SlotOf(db.jobs[k]) == slots[n];
    OneKeyPerSlot(db.jobs, k);
  }

  lemma PendingKeysOrdered(db: Db, i: Identity, kid: string, clock: int, m: nat, n: nat)
    requires UniqueJobIds(db.jobs) && m < n < |PendingSlots(db, i, kid, clock)|
    ensures var ks := PendingKeys(db, i, kid, clock);
            ks[m] in db.jobs && ks[n] in db.jobs && Earlier(db.jobs[ks[m]], db.jobs[ks[n]])
  {
    PendingKeyAt(db, i, kid, clock, m);
    PendingKeyAt(db, i, kid, clock, n);
    PendingRecordsSelected(db, i, kid, clock);
  }

  lemma UnlistedIsLater(db: Db, i: Identity, kid: string, clock: int, k: JobKey)
    requires UniqueJobIds(db.jobs) && k in SelectedKeys(db, i, kid, clock) && k !in PendingKeys(db, i, kid, clock)
    ensures var ks := PendingKeys(db, i, kid, clock);
            |ks| == 20 && forall n | 0 <= n < 20 :: ks[n] in db.jobs && Earlier(db.jobs[ks[n]], db.jobs[k])
  {
    var slots, ks := PendingSlots(db, i, kid, clock), PendingKeys(db, i, kid, clock);
    SelectedSlotListed(db, i, kid, clock, SlotOf(db.jobs[k]));
    forall n | 0 <= n < |slots| ensures ks[n] in db.jobs && SlotOf(db.jobs[ks[n]]) == slots[n] != SlotOf(db.jobs[k]) {
      PendingKeyAt(db, i, kid, clock, n);
      assert ks[n] in ks;
      OneKeyPerSlot(db.jobs, k);
      OneKeyPerSlot(db.jobs, ks[n]);
    }
  }

  /** The candidates are the records of the first twenty selected rows in creation order. */
  lemma PendingIsFirstTwenty(db: Db, i: Identity, kid: string, clock: int)
    requires UniqueJobIds(db.jobs)
    ensures var ks, records := PendingKeys(db, i, kid, clock), PendingRecords(db, i, kid, clock);
      && FirstTwenty(db.jobs, SelectedKeys(db, i, kid, clock), ks) && |records| == |ks|
      && forall n | 0 <= n < |ks| :: ks[n] in db.jobs && records[n] == db.jobs[ks[n]].record
  {
    var ks, records := PendingKeys(db, i, kid, clock), PendingRecords(db, i, kid, clock);
    forall n | 0 <= n < |ks|
      ensures ks[n] in SelectedKeys(db, i, kid, clock) && ks[n] in db.jobs && records[n] == db.jobs[ks[n]].record
    {
      PendingKeyAt(db, i, kid, clock, n);
    }
    forall m, n | 0 <= m < n < |ks| ensures Earlier(db.jobs[ks[m]], db.jobs[ks[n]]) { PendingKeysOrdered(db, i, kid, clock, m, n); }
    forall k | k in SelectedKeys(db, i, kid, clock) && k !in ks
      ensures |ks| == 20 && forall n | 0 <= n < 20 :: Earlier(db.jobs[ks[n]], db.jobs[k])
    {
      UnlistedIsLater(db, i, kid, clock, k);
    }
  }

  // ---------------------------------------------------------------- delivery

  /** The authority service's answer about one approver: granted, 403 or 503. */
  datatype AuthorityReply = Granted(authority: Authority) | Denied | AuthorityUnavailable

  datatype ServiceError = Forbidden | ServiceUnavailable

  predicate VersionsCurrent(record: StoredJob, reply: AuthorityReply) {
    && reply.Granted?
    && reply.authority.userVersion == record.authority.userVersion
    && reply.authority.serviceAccessVersion == record.authority.serviceAccessVersion
  }

  /** The service delivers a record when the approver is unchanged and its signature, binding and clock verify. */
  predicate Delivers(f: Fleet, kid: string, i: Identity, record: StoredJob, reply: AuthorityReply, now: int) {
    VersionsCurrent(record, reply) && Verify(f.p, record.compact, TrustIn(f, kid), BindingOf(f.config, i), now).Ok?
  }

  /** The same decision read off the stored job alone, field by field: no signature, no parsing. */
  predicate Due(f: Fleet, i: Identity, record: StoredJob, reply: AuthorityReply, now: int) {
    var job := record.job;
    && reply.Granted? && reply.authority.userVersion == record.authority.userVersion
    && reply.authority.serviceAccessVersion == record.authority.serviceAccessVersion
    && job.iss == f.config.resource && job.identityIssuer == f.config.issuer && job.tenantId == i.tenant
    && job.organizationId == i.organization && job.subject == i.subject && job.deviceId == i.device
    && job.deviceVersion == i.version && job.keyJkt == i.jkt
    && 0 <= now <= MAX_SAFE && job.iat - 5 <= now < job.exp
  }

  /** The compacts of the kept records among the first `n`, in order. */
  function KeptUpTo(records: seq<StoredJob>, keep: seq<bool>, n: nat): seq<string>
    requires |keep| == |records| && n <= |records|
  {
    if n == 0 then [] else KeptUpTo(records, keep, n - 1) + if keep[n - 1] then [records[n - 1].compact] else []
  }

  function Kept(records: seq<StoredJob>, keep: seq<bool>): seq<string>
    requires |keep| == |records|
  {
    KeptUpTo(records, keep, |records|)
  }

  /** The texts are those of the records at the given places: every kept one, once and in order. */
  ghost predicate ListsKept(records: seq<StoredJob>, keep: seq<bool>, n: nat, texts: seq<string>, at: seq<nat>) {
    && |keep| == |records| && n <= |records| && |at| == |texts|
    && (forall m | 0 <= m < |at| :: at[m] < n && keep[at[m]] && texts[m] == records[at[m]].compact)
    && (forall l, m | 0 <= l < m < |at| :: at[l] < at[m])
    && (forall m | 0 <= m < n && keep[m] :: m in at)
  }

  lemma ListsKeptNext(records: seq<StoredJob>, keep: seq<bool>, n: nat, texts: seq<string>, next: seq<string>, at: seq<nat>)
      returns (more: seq<nat>)
    requires ListsKept(records, keep, n, texts, at) && n < |records|
    requires next == texts + if keep[n] then [records[n].compact] else []
    ensures ListsKept(records, keep, n + 1, next, more)
  {
    more := if keep[n] then at + [n] else at;
    forall m | 0 <= m < n + 1 && keep[m] ensures m in more {
      if m == n {
        assert more[|at|] == n;
      } else {
        var l :| 0 <= l < |at| && at[l] == m;
        assert more[l] == m;
      }
    }
  }

  lemma KeptNext(records: seq<StoredJob>, keep: seq<bool>, n: nat)
    requires |keep| == |records| && n < |records|
    ensures KeptUpTo(records, keep, n + 1) == KeptUpTo(records, keep, n) + if keep[n] then [records[n].compact] else []
  {}

  /** What is kept is the order-preserving subsequence of the records with a positive decision. */
  lemma {:induction false} KeptExactly(records: seq<StoredJob>, keep: seq<bool>, n: nat) returns (at: seq<nat>)
    requires |keep| == |records| && n <= |records|
    ensures ListsKept(records, keep, n, KeptUpTo(records, keep, n), at)
  {
    if n == 0 { return []; }
    var before := KeptExactly(records, keep, n - 1);
    KeptNext(records, keep, n - 1);
    at := ListsKeptNext(records, keep, n - 1, KeptUpTo(records, keep, n - 1), KeptUpTo(records, keep, n), before);
  }

  function Decisions(f: Fleet, kid: string, i: Identity, records: seq<StoredJob>, replies: seq<AuthorityReply>, nows: seq<int>): (r: seq<bool>)
    requires |replies| == |records| == |nows|
    ensures |r| == |records|
  {
    seq(|records|, n requires 0 <= n < |records| => Delivers(f, kid, i, records[n], replies[n], nows[n]))
  }

  lemma DecisionAt(f: Fleet, kid: string, i: Identity, records: seq<StoredJob>, replies: seq<AuthorityReply>, nows: seq<int>, n: nat)
    requires |replies| == |records| == |nows| && n < |records|
    ensures Decisions(f, kid, i, records, replies, nows)[n] == Delivers(f, kid, i, records[n], replies[n], nows[n])
  {}

  class JobService {
    const f: Fleet
    const kid: string

    constructor (f: Fleet, kid: string)
      ensures this.f == f && this.kid == kid
    {
      this.f, this.kid := f, kid;
    }

    /** The checks of one record; a denied approver or any job error skips it. */
    method Check(i: Identity, record: StoredJob, reply: AuthorityReply, now: int) returns (delivers: bool)
      ensures delivers == Delivers(f, kid, i, record, reply, now)
    {
      if !reply.Granted? { return false; }
      var current := reply.authority;
      if current.userVersion != record.authority.userVersion
         || current.serviceAccessVersion != record.authority.serviceAccessVersion { return false; }
      var verified := Verify(f.p, record.compact, TrustIn(f, kid), BindingOf(f.config, i), now);
      return verified.Ok?;
    }

    /** The delivery loop: an unavailable authority aborts, every other refusal skips the record. */
    method Collect(i: Identity, records: seq<StoredJob>, replies: seq<AuthorityReply>, nows: seq<int>)
      returns (r: Result<seq<string>, ServiceError>)
      requires |replies| == |nows| == |records|
      ensures r == if exists n | 0 <= n < |replies| :: replies[n].AuthorityUnavailable? then Err(ServiceUnavailable)
                   else Ok(Kept(records, Decisions(f, kid, i, records, replies, nows)))
    {
      ghost var keep := Decisions(f, kid, i, records, replies, nows);
      var output: seq<string> := [];
      for n := 0 to |records|
        invariant output == KeptUpTo(records, keep, n)
        invariant forall m | 0 <= m < n :: !replies[m].AuthorityUnavailable?
      {
        if replies[n].AuthorityUnavailable? { return Err(ServiceUnavailable); }
        var delivers := Check(i, records[n], replies[n], nows[n]);
        DecisionAt(f, kid, i, records, replies, nows, n);
        if delivers { output := output + [records[n].compact]; }
      }
      return Ok(output);
    }

    /**
     pending: `deviceError` is what the device authorizer throws, if anything; `replies` and `nows` are the
     authority's answers and the gateway clock read for each record in turn.
     */
    method Pending(db: Db, i: Identity, clock: int, deviceError: Option<ServiceError>,
                   replies: seq<AuthorityReply>, nows: seq<int>)
      returns (r: Result<seq<string>, ServiceError>)
      requires UniqueJobIds(db.jobs)
      requires |replies| == |nows| == |PendingRecords(db, i, kid, clock)|
      ensures deviceError.Some? ==> r == Err(deviceError.value)
      ensures deviceError.None? ==>
        r == if exists n | 0 <= n < |replies| :: replies[n].AuthorityUnavailable? then Err(ServiceUnavailable)
             else Ok(Kept(PendingRecords(db, i, kid, clock), Decisions(f, kid, i, PendingRecords(db, i, kid, clock), replies, nows)))
    {
      if deviceError.Some? { return Err(deviceError.value); }
      r := Collect(i, PendingRecords(db, i, kid, clock), replies, nows);
    }
  }

  /** For a stored record of the polled key id, verifying its text is reading its job: the signature adds no case. */
  lemma DeliversExactlyDue(f: Fleet, k: JobKey, i: Identity, record: StoredJob, reply: AuthorityReply, now: int)
    requires SignsSoundly(f.p) && IssuedRecord(f, k, record)
    ensures Delivers(f, record.kid, i, record, reply, now) <==> Due(f, i, record, reply, now)
  {
    if Timestamp(now) {
      SignVerify(f.p, TrustIn(f, record.kid), record.job, BindingOf(f.config, i), now);
    }
  }

  ghost predicate AllIssued(f: Fleet, jobs: map<JobKey, JobRow>) {
    forall k | k in jobs :: IssuedRecord(f, k, jobs[k].record) && jobs[k].kid == jobs[k].record.kid
  }

  function DueDecisions(f: Fleet, i: Identity, records: seq<StoredJob>, replies: seq<AuthorityReply>, nows: seq<int>): (r: seq<bool>)
    requires |replies| == |records| == |nows|
    ensures |r| == |records|
  {
    seq(|records|, n requires 0 <= n < |records| => Due(f, i, records[n], replies[n], nows[n]))
  }

  ghost predicate IssuedUnder(f: Fleet, kid: string, record: StoredJob) {
    record.kid == kid && exists k :: IssuedRecord(f, k, record)
  }

  lemma PendingRecordsIssued(f: Fleet, kid: string, db: Db, i: Identity, clock: int)
    requires UniqueJobIds(db.jobs) && AllIssued(f, db.jobs)
    ensures forall n | 0 <= n < |PendingRecords(db, i, kid, clock)| :: IssuedUnder(f, kid, PendingRecords(db, i, kid, clock)[n])
  {
    var records, slots := PendingRecords(db, i, kid, clock), PendingSlots(db, i, kid, clock);
    PendingRecordsSelected(db, i, kid, clock);
    forall n | 0 <= n < |records| ensures IssuedUnder(f, kid, records[n]) {
      assert RowBehind(db, i, kid, clock, slots[n], records[n]);
    }
  }

  lemma DecisionsAgree(f: Fleet, kid: string, i: Identity, records: seq<StoredJob>, replies: seq<AuthorityReply>, nows: seq<int>)
    requires SignsSoundly(f.p) && |replies| == |nows| == |records|
    requires forall n | 0 <= n < |records| :: IssuedUnder(f, kid, records[n])
    ensures Decisions(f, kid, i, records, replies, nows) == DueDecisions(f, i, records, replies, nows)
  {
    forall n | 0 <= n < |records|
      ensures Delivers(f, kid, i, records[n], replies[n], nows[n]) <==> Due(f, i, records[n], replies[n], nows[n])
    {
      assert IssuedUnder(f, kid, records[n]);
      var k :| IssuedRecord(f, k, records[n]);
      DeliversExactlyDue(f, k, i, records[n], replies[n], nows[n]);
    }
  }

  /**
   pending delivers exactly the order-preserving subsequence of its candidates whose approver versions are
   unchanged, whose binding is the polling identity and whose window contains the clock.
   */
  lemma PendingDeliversDue(f: Fleet, kid: string, db: Db, i: Identity, clock: int, replies: seq<AuthorityReply>, nows: seq<int>)
    requires SignsSoundly(f.p) && UniqueJobIds(db.jobs) && AllIssued(f, db.jobs)
    requires |replies| == |nows| == |PendingRecords(db, i, kid, clock)|
    ensures var records := PendingRecords(db, i, kid, clock);
            Kept(records, Decisions(f, kid, i, records, replies, nows)) == Kept(records, DueDecisions(f, i, records, replies, nows))
  {
    PendingRecordsIssued(f, kid, db, i, clock);
    DecisionsAgree(f, kid, i, PendingRecords(db, i, kid, clock), replies, nows);
  }

  /** Nothing is delivered ten minutes after its approval, nor to any other device, owner, key or organization. */
  lemma DeliveryIsBounded(f: Fleet, k: JobKey, i: Identity, record: StoredJob, reply: AuthorityReply, now: int)
    requires SignsSoundly(f.p) && IssuedRecord(f, k, record) && Delivers(f, record.kid, i, record, reply, now)
    ensures record.authority.checkedAt - 5 <= now < record.authority.checkedAt + 600
    ensures record.job.deviceId == i.device && record.job.subject == i.subject && record.job.keyJkt == i.jkt
    ensures record.job.deviceVersion == i.version && k.tenant == i.tenant && k.organization == i.organization
  {
    DeliversExactlyDue(f, k, i, record, reply, now);
  }
}
