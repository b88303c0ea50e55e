/** Whole runs of daemon management: reports and issue statements of any replicas, in any order, on one database. */
module ManagementRuns {
  import opened Prelude
  import opened JobContract
  import opened JobSigner
  import opened JobSize
  import opened ManagementModel
  import opened ReportStore
  import opened IssueProtocol
  import opened JobDelivery

  /** The database with the issue calls in progress on it; `log` lists the accepted reports. */
  datatype System = System(
    heads: map<DeviceKey, Head>, reports: map<ReportKey, ReportRow>, results: map<string, ResultRow>,
    log: seq<Accepted>, issue: State)

  datatype Event =
    | Submit(i: Identity, r: Report)
    | Statement(a: Action)

  /** The configuration of a run: the fleet, its lock hash, and the digest it computes over issued jobs. */
  datatype Site = Site(f: Fleet, d: Deployment, digest: Digest)

  /** The record is what the service's build callback returned for a request of key k, under one of the fleet's keys. */
  ghost predicate BuiltFor(f: Fleet, k: JobKey, record: StoredJob) {
    exists kid, q, target, a, ids, now :: ValidId(kid) && Builds(f, k, record, kid, q, target, a, ids, now)
  }

  ghost predicate Builds(f: Fleet, k: JobKey, record: StoredJob, kid: string, q: Request, target: Identity, a: Authority,
                         ids: FreshIds, now: int)
    requires ValidId(kid)
  {
    && TrustValid(TrustIn(f, kid)) && Timestamp(now) && TargetChecked(f, q, target)
    && k == JobKey(f.config.issuer, f.config.tenant, q.organizationId, q.requestId)
    && BuildRecord(f, kid, q, target, a, ids, now) == Some(record)
  }

  lemma BuiltIsIssued(f: Fleet, k: JobKey, record: StoredJob)
    requires SignsSoundly(f.p) && BuiltFor(f, k, record)
    ensures IssuedRecord(f, k, record)
  {
    var kid, q, target, a, ids, now :| ValidId(kid) && Builds(f, k, record, kid, q, target, a, ids, now);
    BuiltRecordIsIssued(f, kid, q, target, a, ids, now);
  }

  /** Records come from the build callback of the service, and the digest is SHA-256 of the canonical JSON. */
  ghost predicate Faithful(site: Site) {
    && (forall k, record | site.d.canBuild(k, record) :: BuiltFor(site.f, k, record))
    && (forall j | SchemaValid(site.f.p, j) :: site.digest(j) == JobDigest(site.f.p, j))
    && SignsSoundly(site.f.p)
  }

  function DbOf(s: System): Db {
    Db(s.heads, s.reports, s.issue.jobs, s.results)
  }

  ghost predicate CanHappen(site: Site, s: System, e: Event) {
    match e
    case Submit(_, r) => r.sequence > 0 && UniqueJobIds(s.issue.jobs)
    case Statement(a) => Enabled(site.d, s.issue, a)
  }

  ghost function Next(site: Site, s: System, e: Event): System
    requires CanHappen(site, s, e)
  {
    match e
    case Submit(i, r) =>
      var db := After(site.digest, DbOf(s), i, r, s.issue.clock);
      System(db.heads, db.reports, db.results, LogAfter(site.digest, DbOf(s), s.log, i, r, s.issue.clock), s.issue)
    case Statement(a) => s.(issue := Step(site.d, s.issue, a))
  }

  ghost predicate History(site: Site, states: seq<System>, events: seq<Event>) {
    && |states| == |events| + 1
    && forall n | 0 <= n < |events| :: CanHappen(site, states[n], events[n]) && states[n + 1] == Next(site, states[n], events[n])
  }

  ghost predicate Fresh(s: System) {
    s.heads == map[] && s.reports == map[] && s.results == map[] && s.log == [] && Initial(s.issue)
  }

  /** Receipts are stamped by the database clock: in acceptance order they never decrease. */
  ghost predicate ReceiptsOrdered(log: seq<Accepted>, clock: int) {
    && (forall n | 0 <= n < |log| :: log[n].receipt.receivedAt <= clock)
    && (forall m, n | 0 <= m < n < |log| :: log[m].receipt.receivedAt <= log[n].receipt.receivedAt)
  }

  ghost predicate Good(site: Site, s: System) {
    && Consistent(site.digest, DbOf(s), s.log) && ReceiptsName(s.log) && ReceiptsOrdered(s.log, s.issue.clock)
    && Invariant(site.d, s.issue)
  }

  lemma ReportKeepsReceipts(site: Site, s: System, i: Identity, r: Report)
    requires UniqueJobIds(s.issue.jobs) && ReceiptsOrdered(s.log, s.issue.clock)
    ensures ReceiptsOrdered(LogAfter(site.digest, DbOf(s), s.log, i, r, s.issue.clock), s.issue.clock)
  {}

  lemma ReportKeepsGood(site: Site, s: System, i: Identity, r: Report)
    requires Good(site, s) && CanHappen(site, s, Submit(i, r))
    ensures Good(site, Next(site, s, Submit(i, r)))
  {
    var s' := Next(site, s, Submit(i, r));
    Commits(site.digest, DbOf(s), s.log, i, r, s.issue.clock);
    ReportKeepsReceipts(site, s, i, r);
    assert DbOf(s') == After(site.digest, DbOf(s), i, r, s.issue.clock);
  }

  /** More issued jobs and a later clock keep a state good. */
  lemma IssuingKeepsGood(site: Site, s: System, issue: State)
    requires Good(site, s) && Invariant(site.d, issue) && JobsKept(s.issue.jobs, issue.jobs) && s.issue.clock <= issue.clock
    ensures Good(site, s.(issue := issue))
  {
    JobsGrow(site.digest, DbOf(s), s.log, issue.jobs);
  }

  lemma ClockAdvances(site: Site, s: State, a: Action)
    requires Enabled(site.d, s, a)
    ensures s.clock <= Step(site.d, s, a).clock
  {}

  lemma StatementKeepsGood(site: Site, s: System, a: Action)
    requires Good(site, s) && CanHappen(site, s, Statement(a))
    ensures Good(site, Next(site, s, Statement(a)))
  {
    StepKeepsInvariant(site.d, s.issue, a);
    CommittedRowsStay(site.d, s.issue, a);
    ClockAdvances(site, s.issue, a);
    IssuingKeepsGood(site, s, Step(site.d, s.issue, a));
  }

  lemma NextKeepsGood(site: Site, s: System, e: Event)
    requires Good(site, s) && CanHappen(site, s, e)
    ensures Good(site, Next(site, s, e))
  {
    match e
    case Submit(i, r) => ReportKeepsGood(site, s, i, r);
    case Statement(a) => StatementKeepsGood(site, s, a);
  }

  /** Every state of every run from an empty database is good. */
  lemma {:induction false} EveryStateGood(site: Site, states: seq<System>, events: seq<Event>, n: nat)
    requires History(site, states, events) && Fresh(states[0]) && n < |states|
    ensures Good(site, states[n])
  {
    if n == 0 {
      assert DbOf(states[0]) == Db(map[], map[], map[], map[]);
    } else {
      EveryStateGood(site, states, events, n - 1);
      NextKeepsGood(site, states[n - 1], events[n - 1]);
    }
  }

  /**
   In every reachable state a new report is accepted, and its receipt stamped now, exactly when its device has sent
   neither its id nor anything as new nor anything for another subject, and every result it carries confirms, in
   every field, a job issued to the sender.
   */
  lemma AcceptsAlwaysExactly(site: Site, states: seq<System>, events: seq<Event>, n: nat, i: Identity, r: Report)
    requires History(site, states, events) && Fresh(states[0]) && n < |states|
    ensures UniqueJobIds(states[n].issue.jobs)
    ensures var s := states[n]; var receipt := Receipt(r.reportId, r.sequence, s.issue.clock);
      var accepts := AcceptsNew(site.digest, DbOf(s), i, r, s.issue.clock);
      && (accepts <==>
            && r.sequence > 0
            && (forall e | e in s.log && DeviceOf(e.identity) == DeviceOf(i) ::
                  e.report.reportId != r.reportId && e.report.sequence < r.sequence && e.identity.subject == i.subject)
            && AllHaveJobs(site.digest, s.issue.jobs, i, r))
      && (accepts ==>
            && Answer(site.digest, DbOf(s), i, r, s.issue.clock) == Ok(receipt)
            && Next(site, s, Submit(i, r)).log == s.log + [Accepted(i, r, receipt)])
  {
    EveryStateGood(site, states, events, n);
    AcceptsNewExactly(site.digest, DbOf(states[n]), states[n].log, i, r, states[n].issue.clock);
  }

  /** In every reachable state, every result row names an issued job it fully matches and a stored report that carries it. */
  lemma ResultsAlwaysExplained(site: Site, states: seq<System>, events: seq<Event>, n: nat, j: string)
    requires History(site, states, events) && Fresh(states[0]) && n < |states| && j in states[n].results
    ensures UniqueJobIds(states[n].issue.jobs) && ResultExplained(site.digest, DbOf(states[n]), j)
  {
    EveryStateGood(site, states, events, n);
    ResultRowExplained(site.digest, DbOf(states[n]), states[n].log, j);
  }

  /** In every reachable state, no stored report mentions a job more recently than the job's result row, and the newest mention is the row. */
  lemma ResultsAlwaysNewest(site: Site, states: seq<System>, events: seq<Event>, n: nat, k: ReportKey, result: JobResult)
    requires History(site, states, events) && Fresh(states[0]) && n < |states|
    requires k in states[n].reports && result in ResultsIn(states[n].reports[k].payloadHash.report)
    ensures result.jobId in states[n].results && states[n].results[result.jobId].device == k.device
    ensures states[n].reports[k].sequence <= states[n].results[result.jobId].sequence
    ensures states[n].reports[k].sequence == states[n].results[result.jobId].sequence ==>
              states[n].results[result.jobId].result == result
  {
    EveryStateGood(site, states, events, n);
    ResultRowIsNewest(site.digest, DbOf(states[n]), states[n].log, k, result);
  }

  /** In every reachable state, a device head is the stored report of that device's greatest sequence. */
  lemma HeadsAlwaysGreatest(site: Site, states: seq<System>, events: seq<Event>, n: nat, d: DeviceKey)
    requires History(site, states, events) && Fresh(states[0]) && n < |states| && d in states[n].heads
    ensures states[n].heads[d].latest.Some?
    ensures var e, key := states[n].heads[d].latest.value, ReportKey(d, states[n].heads[d].latest.value.report.reportId);
            && KeyOf(e) == key && key in states[n].reports
            && states[n].reports[key] == ReportRow(states[n].heads[d].sequence, PayloadHash(e.report), e.receipt)
            && e in states[n].log && states[n].heads[d].subject == e.identity.subject
    ensures forall k | k in states[n].reports && k.device == d :: states[n].reports[k].sequence <= states[n].heads[d].sequence
  {
    EveryStateGood(site, states, events, n);
    HeadHoldsGreatest(site.digest, DbOf(states[n]), states[n].log, d);
  }

  lemma {:induction false} LogOnlyGrows(site: Site, states: seq<System>, events: seq<Event>, m: nat, n: nat)
    requires History(site, states, events) && m <= n < |states|
    ensures states[m].log <= states[n].log
  {
    if m < n { LogOnlyGrows(site, states, events, m, n - 1); }
  }

  /**
   A report accepted at any moment of a run is answered with its original receipt at every later moment,
   from the same device and owner, whatever happened in between, and the state does not move.
   */
  lemma RetryAlwaysSafe(site: Site, states: seq<System>, events: seq<Event>, m: nat, n: nat, a: nat, i: Identity)
    requires History(site, states, events) && Fresh(states[0]) && m <= n < |states| && a < |states[m].log|
    requires DeviceOf(i) == DeviceOf(states[m].log[a].identity) && i.subject == states[m].log[a].identity.subject
    ensures UniqueJobIds(states[n].issue.jobs)
    ensures Answer(site.digest, DbOf(states[n]), i, states[m].log[a].report, states[n].issue.clock) == Ok(states[m].log[a].receipt)
    ensures CanHappen(site, states[n], Submit(i, states[m].log[a].report))
    ensures Next(site, states[n], Submit(i, states[m].log[a].report)) == states[n]
  {
    EveryStateGood(site, states, events, n);
    LogOnlyGrows(site, states, events, m, n);
    assert states[n].log[a] == states[m].log[a];
    ResendReturnsReceipt(site.digest, DbOf(states[n]), states[n].log, a, i, states[n].issue.clock);
  }

  /** Every committed row of every run is the signature of its own record, so delivery may trust the stored job. */
  lemma JobsAlwaysIssued(site: Site, states: seq<System>, events: seq<Event>, n: nat)
    requires Faithful(site) && History(site, states, events) && Fresh(states[0]) && n < |states|
    ensures AllIssued(site.f, states[n].issue.jobs) && UniqueJobIds(states[n].issue.jobs)
  {
    EveryStateGood(site, states, events, n);
    forall k | k in states[n].issue.jobs
      ensures IssuedRecord(site.f, k, states[n].issue.jobs[k].record) && states[n].issue.jobs[k].kid == states[n].issue.jobs[k].record.kid
    {
      assert RowBelongs(site.d, k, states[n].issue.jobs[k].requestHash, states[n].issue.jobs[k]);
      BuiltIsIssued(site.f, k, states[n].issue.jobs[k].record);
    }
  }

  /** Stored report k carries the newest result of the job. */
  ghost predicate NewestResult(reports: map<ReportKey, ReportRow>, jobId: string, k: ReportKey, result: JobResult) {
    && k in reports && Carries(reports[k].payloadHash.report, result) && result.jobId == jobId
    && forall other, mention | other in reports && Carries(reports[other].payloadHash.report, mention) && mention.jobId == jobId ::
         reports[other].sequence <= reports[k].sequence
  }

  /** The newest stored report that mentions the job says its termination is confirmed. */
  ghost predicate ReportedDone(reports: map<ReportKey, ReportRow>, jobId: string) {
    exists k, result :: NewestResult(reports, jobId, k, result) && result.termination.Confirmed?
  }

  lemma RowIsNewestResult(site: Site, s: System, jobId: string)
    requires Good(site, s) && jobId in s.results
    ensures var row := s.results[jobId]; var k := ReportKey(row.device, row.reportId);
            NewestResult(s.reports, jobId, k, row.result) && s.reports[k].sequence == row.sequence
  {
    var row := s.results[jobId];
    var k := ReportKey(row.device, row.reportId);
    ResultRowExplained(site.digest, DbOf(s), s.log, jobId);
    forall other, mention | other in s.reports && Carries(s.reports[other].payloadHash.report, mention) && mention.jobId == jobId
      ensures s.reports[other].sequence <= s.reports[k].sequence
    {
      ResultRowIsNewest(site.digest, DbOf(s), s.log, other, mention);
    }
  }

  lemma CompletedExactly(site: Site, s: System, jobId: string)
    requires Good(site, s)
    ensures Completed(s.results, jobId) <==> ReportedDone(s.reports, jobId)
  {
    if jobId in s.results { RowIsNewestResult(site, s, jobId); }
    if k, result :| NewestResult(s.reports, jobId, k, result) && result.termination.Confirmed? {
      ResultRowIsNewest(site.digest, DbOf(s), s.log, k, result);
      var own := ReportKey(s.results[jobId].device, s.results[jobId].reportId);
      assert own in s.reports && Carries(s.reports[own].payloadHash.report, s.results[jobId].result);
    }
  }

  /** The job is the poller's own, signed by the polled key, not expired, and not reported done. */
  ghost predicate Open(s: System, i: Identity, kid: string, k: JobKey)
    requires k in s.issue.jobs
  {
    var record := s.issue.jobs[k].record;
    && k.issuer == i.issuer && k.tenant == i.tenant && k.organization == i.organization
    && record.job.deviceId == i.device && record.kid == kid
    && s.issue.clock < record.job.exp * 1000 && !ReportedDone(s.reports, record.job.jobId)
  }

  lemma SelectedExactly(site: Site, s: System, i: Identity, kid: string, k: JobKey)
    requires Good(site, s) && k in s.issue.jobs
    ensures Selected(DbOf(s), i, kid, s.issue.clock, k) <==> Open(s, i, kid, k)
  {
    assert RowBelongs(site.d, k, s.issue.jobs[k].requestHash, s.issue.jobs[k]);
    CompletedExactly(site, s, s.issue.jobs[k].jobId);
  }

  ghost function OpenKeys(s: System, i: Identity, kid: string): set<JobKey> {
    set k | k in s.issue.jobs && Open(s, i, kid, k)
  }

  /**
   In every reachable state, what a poll considers are the records of the first twenty open jobs, in creation order:
   unexpired jobs of the poller and the key whose newest stored report does not confirm their termination.
   */
  lemma CandidatesAlwaysExactly(site: Site, states: seq<System>, events: seq<Event>, n: nat, i: Identity, kid: string)
      returns (ks: seq<JobKey>)
    requires History(site, states, events) && Fresh(states[0]) && n < |states|
    ensures UniqueJobIds(states[n].issue.jobs) && FirstTwenty(states[n].issue.jobs, OpenKeys(states[n], i, kid), ks)
    ensures var records := PendingRecords(DbOf(states[n]), i, kid, states[n].issue.clock);
      |records| == |ks| && forall m | 0 <= m < |ks| :: ks[m] in states[n].issue.jobs && records[m] == states[n].issue.jobs[ks[m]].record
  {
    var s := states[n];
    EveryStateGood(site, states, events, n);
    PendingIsFirstTwenty(DbOf(s), i, kid, s.issue.clock);
    ks := PendingKeys(DbOf(s), i, kid, s.issue.clock);
    forall k | k in s.issue.jobs ensures Selected(DbOf(s), i, kid, s.issue.clock, k) <==> Open(s, i, kid, k) {
      SelectedExactly(site, s, i, kid, k);
    }
    assert SelectedKeys(DbOf(s), i, kid, s.issue.clock) == OpenKeys(s, i, kid);
  }

  /** What one poll delivers is decided exactly by approver, binding and window, and each delivered record is young and the poller's. */
  ghost predicate DeliversRightly(f: Fleet, kid: string, i: Identity, records: seq<StoredJob>, replies: seq<AuthorityReply>, nows: seq<int>)
    requires |replies| == |nows| == |records|
  {
    && Decisions(f, kid, i, records, replies, nows) == DueDecisions(f, i, records, replies, nows)
    && forall n | 0 <= n < |records| && Decisions(f, kid, i, records, replies, nows)[n] :: YoungAndOwn(records[n], i, nows[n])
  }

  predicate YoungAndOwn(record: StoredJob, i: Identity, now: int) {
    && record.authority.checkedAt - 5 <= now < record.authority.checkedAt + 600
    && record.job.deviceId == i.device && record.job.subject == i.subject && record.job.keyJkt == i.jkt
    && record.job.deviceVersion == i.version && record.job.tenantId == i.tenant && record.job.organizationId == i.organization
  }

  /**
   End to end: in every reachable state, polling delivers exactly the candidates that are due, in order, none of
   them 600 s after its approval and none to another device.
   */
  lemma PendingAlwaysRight(site: Site, states: seq<System>, events: seq<Event>, n: nat, kid: string, i: Identity,
                           replies: seq<AuthorityReply>, nows: seq<int>)
    requires Faithful(site) && History(site, states, events) && Fresh(states[0]) && n < |states|
    ensures UniqueJobIds(states[n].issue.jobs)
    ensures var records := PendingRecords(DbOf(states[n]), i, kid, states[n].issue.clock);
            |replies| == |nows| == |records| ==>
              && DeliversRightly(site.f, kid, i, records, replies, nows)
              && Kept(records, Decisions(site.f, kid, i, records, replies, nows)) == Kept(records, DueDecisions(site.f, i, records, replies, nows))
  {
    JobsAlwaysIssued(site, states, events, n);
    var records := PendingRecords(DbOf(states[n]), i, kid, states[n].issue.clock);
    PendingRecordsIssued(site.f, kid, DbOf(states[n]), i, states[n].issue.clock);
    if |replies| == |nows| == |records| {
      DecisionsAgree(site.f, kid, i, records, replies, nows);
      forall r | 0 <= r < |records| && Decisions(site.f, kid, i, records, replies, nows)[r] ensures YoungAndOwn(records[r], i, nows[r]) {
        DeliveredIsYoung(site.f, kid, i, records[r], replies[r], nows[r]);
      }
    }
  }

  lemma DeliveredIsYoung(f: Fleet, kid: string, i: Identity, record: StoredJob, reply: AuthorityReply, now: int)
    requires SignsSoundly(f.p) && IssuedUnder(f, kid, record) && Delivers(f, kid, i, record, reply, now)
    ensures YoungAndOwn(record, i, now)
  {
    var k :| IssuedRecord(f, k, record);
    DeliveryIsBounded(f, k, i, record, reply, now);
  }

  /** A daemon's answer to a verified job: blocked admission, the digest it computed, the version it moved to. */
  function HonestResult(v: VerifiedJob, t: Termination): JobResult {
    JobResult(v.job.jobId, v.digest, v.job.resource.id, v.job.expectedStateVersion + 1, t)
  }

  /** Verifying a stored text returns its own job, its own digest, and a matching binding. */
  lemma VerifiedRecord(f: Fleet, k: JobKey, record: StoredJob, b: JobBinding, now: int)
    requires SignsSoundly(f.p) && IssuedRecord(f, k, record)
    requires Verify(f.p, record.compact, TrustIn(f, record.kid), b, now).Ok?
    ensures Verify(f.p, record.compact, TrustIn(f, record.kid), b, now).value == VerifiedJob(record.job, JobDigest(f.p, record.job), now)
    ensures Bound(record.job, b)
  {
    if Timestamp(now) { SignVerify(f.p, TrustIn(f, record.kid), record.job, b, now); }
  }

  lemma BoundResultMatches(digest: Digest, config: ManagementConfig, jobs: map<JobKey, JobRow>, k: JobKey, i: Identity,
                           v: VerifiedJob, r: Report, t: Termination)
    requires UniqueJobIds(jobs) && k in jobs && jobs[k].jobId == v.job.jobId && jobs[k].record.job == v.job
    requires k.issuer == i.issuer && k.tenant == i.tenant && i.resource == config.resource
    requires Bound(v.job, BindingOf(config, i)) && digest(v.job) == v.digest
    requires r.observedAt.ms >= v.job.iat * 1000 - 5000
    ensures ResultMatches(digest, jobs, i, r, HonestResult(v, t))
  {
    assert FindJob(jobs, v.job.jobId, i.issuer, i.tenant) == Some(jobs[k].record);
  }

  /** What verification of the delivered text returns is exactly what acceptance of the result demands. */
  lemma HonestResultMatches(site: Site, jobs: map<JobKey, JobRow>, k: JobKey, i: Identity, now: int, r: Report, t: Termination)
    requires Faithful(site) && UniqueJobIds(jobs) && AllIssued(site.f, jobs) && k in jobs
    requires jobs[k] == RowOf(jobs[k].requestHash, jobs[k].record, jobs[k].createdAt)
    requires i.issuer == site.f.config.issuer && i.tenant == site.f.config.tenant && i.resource == site.f.config.resource
    requires Verify(site.f.p, jobs[k].record.compact, TrustIn(site.f, jobs[k].kid), BindingOf(site.f.config, i), now).Ok?
    requires r.observedAt.ms >= jobs[k].record.job.iat * 1000 - 5000
    ensures var v := Verify(site.f.p, jobs[k].record.compact, TrustIn(site.f, jobs[k].kid), BindingOf(site.f.config, i), now).value;
            ResultMatches(site.digest, jobs, i, r, HonestResult(v, t))
  {
    var record := jobs[k].record;
    assert IssuedRecord(site.f, k, record) && jobs[k].kid == record.kid;
    VerifiedRecord(site.f, k, record, BindingOf(site.f.config, i), now);
    var v := VerifiedJob(record.job, JobDigest(site.f.p, record.job), now);
    BoundResultMatches(site.digest, site.f.config, jobs, k, i, v, r, t);
  }
}
