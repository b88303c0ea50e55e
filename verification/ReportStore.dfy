/** PostgresManagementStore.accept: one transaction over heads, reports, receipts and job results. */
module ReportStore {
  import opened Prelude
  import opened JobContract
  import opened ManagementModel

  datatype ReportError = DeviceNotAuthorized | ReportConflict | ReportOutOfOrder | JobResultMismatch

  // ---------------------------------------------------------------- the transaction as a function

  /** The rows sharing the report id or the sequence on this device. */
  function Duplicates(reports: map<ReportKey, ReportRow>, device: DeviceKey, r: Report): set<ReportKey> {
    set k | k in reports && k.device == device && (k.reportId == r.reportId || reports[k].sequence == r.sequence)
  }

  /** The one row that makes a resent report a retry: same id, same sequence, same content. */
  predicate IsRetry(reports: map<ReportKey, ReportRow>, device: DeviceKey, r: Report) {
    var k := ReportKey(device, r.reportId);
    && Duplicates(reports, device, r) == {k}
    && reports[k].sequence == r.sequence && reports[k].payloadHash == PayloadHash(r)
  }

  /** The hex SHA-256 of a job's canonical JSON, as the deployment computes it. */
  type Digest = ManagementJob -> string

  /** A reported result agrees with the issued job in every field and was observed no earlier than 5 s before issue. */
  predicate ResultMatches(digest: Digest, jobs: map<JobKey, JobRow>, i: Identity, r: Report, result: JobResult)
    requires UniqueJobIds(jobs)
  {
    match FindJob(jobs, result.jobId, i.issuer, i.tenant)
    case None => false
    case Some(record) =>
      var job := record.job;
      && job.iss == i.resource && job.subject == i.subject
      && job.organizationId == i.organization && job.deviceId == i.device
      && job.deviceVersion == i.version && job.keyJkt == i.jkt
      && job.resource.id == result.resourceId && job.expectedStateVersion + 1 == result.stateVersion
      && digest(job) == result.digest
      && r.observedAt.ms >= job.iat * 1000 - 5000
  }

  ghost predicate ResultsMatch(digest: Digest, jobs: map<JobKey, JobRow>, i: Identity, r: Report)
    requires UniqueJobIds(jobs)
  {
    && (forall n | 0 <= n < |ResultsIn(r)| :: ResultMatches(digest, jobs, i, r, ResultsIn(r)[n]))
    && (forall m, n | 0 <= m < n < |ResultsIn(r)| :: ResultsIn(r)[m].jobId != ResultsIn(r)[n].jobId)
  }

  function RowFor(e: Accepted, result: JobResult): ResultRow {
    ResultRow(DeviceOf(e.identity), e.report.reportId, e.report.sequence, result, e.report.observedAt, e.receipt.receivedAt)
  }

  /** INSERT ... ON CONFLICT (job_id) DO UPDATE ... WHERE device_key equal AND stored sequence smaller. */
  function Upsert(results: map<string, ResultRow>, jobId: string, row: ResultRow): map<string, ResultRow> {
    if jobId in results && !(results[jobId].device == row.device && results[jobId].sequence < row.sequence) then results
    else results[jobId := row]
  }

  function UpsertAll(results: map<string, ResultRow>, e: Accepted, reported: seq<JobResult>): map<string, ResultRow> {
    if reported == [] then results
    else
      var last := reported[|reported| - 1];
      Upsert(UpsertAll(results, e, reported[..|reported| - 1]), last.jobId, RowFor(e, last))
  }

  function HeadSequence(heads: map<DeviceKey, Head>, device: DeviceKey): int {
    if device in heads then heads[device].sequence else 0
  }

  function EntryFor(i: Identity, r: Report, now: int): Accepted {
    Accepted(i, r, Receipt(r.reportId, r.sequence, now))
  }

  function HeadFor(heads: map<DeviceKey, Head>, e: Accepted): Head {
    var device := DeviceOf(e.identity);
    var before := if device in heads then heads[device]
                  else Head(e.identity.issuer, e.identity.tenant, e.identity.subject, 0, None);
    before.(sequence := e.report.sequence, latest := Some(e))
  }

  function Record(db: Db, e: Accepted): Db {
    var device := DeviceOf(e.identity);
    db.(heads := db.heads[device := HeadFor(db.heads, e)],
        reports := db.reports[ReportKey(device, e.report.reportId)
                   := ReportRow(e.report.sequence, PayloadHash(e.report), e.receipt)],
        results := UpsertAll(db.results, e, ResultsIn(e.report)))
  }

  /** What accept answers on given tables, and whether it commits a new report. */
  ghost function Answer(digest: Digest, db: Db, i: Identity, r: Report, now: int): Result<Receipt, ReportError>
    requires UniqueJobIds(db.jobs)
  {
    var device := DeviceOf(i);
    if device in db.heads && db.heads[device].subject != i.subject then Err(DeviceNotAuthorized)
    else if Duplicates(db.reports, device, r) != {} then
      if IsRetry(db.reports, device, r) then Ok(db.reports[ReportKey(device, r.reportId)].receipt) else Err(ReportConflict)
    else if r.sequence <= HeadSequence(db.heads, device) then Err(ReportOutOfOrder)
    else if !ResultsMatch(digest, db.jobs, i, r) then Err(JobResultMismatch)
    else Ok(EntryFor(i, r, now).receipt)
  }

  ghost predicate AcceptsNew(digest: Digest, db: Db, i: Identity, r: Report, now: int)
    requires UniqueJobIds(db.jobs)
  {
    Answer(digest, db, i, r, now).Ok? && Duplicates(db.reports, DeviceOf(i), r) == {}
  }

  /** The committed tables after one call. */
  ghost function After(digest: Digest, db: Db, i: Identity, r: Report, now: int): Db
    requires UniqueJobIds(db.jobs)
  {
    if AcceptsNew(digest, db, i, r, now) then Record(db, EntryFor(i, r, now)) else db
  }

  /** The accepted reports after one call. */
  ghost function LogAfter(digest: Digest, db: Db, log: seq<Accepted>, i: Identity, r: Report, now: int): seq<Accepted>
    requires UniqueJobIds(db.jobs)
  {
    if AcceptsNew(digest, db, i, r, now) then log + [EntryFor(i, r, now)] else log
  }

  // ---------------------------------------------------------------- the tables as a function of the accepted reports

  function HeadsOf(log: seq<Accepted>): map<DeviceKey, Head> {
    if log == [] then map[]
    else
      var e := log[|log| - 1];
      HeadsOf(log[..|log| - 1])[DeviceOf(e.identity)
        := Head(e.identity.issuer, e.identity.tenant, e.identity.subject, e.report.sequence, Some(e))]
  }

  function KeyOf(e: Accepted): ReportKey {
    ReportKey(DeviceOf(e.identity), e.report.reportId)
  }

  function ReportsOf(log: seq<Accepted>): map<ReportKey, ReportRow> {
    if log == [] then map[]
    else
      var e := log[|log| - 1];
      ReportsOf(log[..|log| - 1])[KeyOf(e) := ReportRow(e.report.sequence, PayloadHash(e.report), e.receipt)]
  }

  function NewRows(e: Accepted, reported: seq<JobResult>): map<string, ResultRow> {
    if reported == [] then map[]
    else
      var last := reported[|reported| - 1];
      NewRows(e, reported[..|reported| - 1])[last.jobId := RowFor(e, last)]
  }

  /** Every accepted result overwrites: no guard, nothing dropped. */
  function ResultsOf(log: seq<Accepted>): map<string, ResultRow> {
    if log == [] then map[]
    else
      var e := log[|log| - 1];
      ResultsOf(log[..|log| - 1]) + NewRows(e, ResultsIn(e.report))
  }

  predicate Mentions(e: Accepted, jobId: string) {
    exists n | 0 <= n < |ResultsIn(e.report)| :: ResultsIn(e.report)[n].jobId == jobId
  }

  ghost predicate SameDevice(e: Accepted, f: Accepted) {
    DeviceOf(e.identity) == DeviceOf(f.identity)
  }

  /** Per device: strictly increasing sequences, unique report ids, one subject. */
  ghost predicate Ordered(log: seq<Accepted>) {
    && (forall m | 0 <= m < |log| :: log[m].report.sequence > 0)
    && (forall m, n | 0 <= m < n < |log| && SameDevice(log[m], log[n]) ::
          && log[m].report.sequence < log[n].report.sequence
          && log[m].report.reportId != log[n].report.reportId
          && log[m].identity.subject == log[n].identity.subject)
  }

  ghost predicate AllMatched(digest: Digest, jobs: map<JobKey, JobRow>, log: seq<Accepted>)
    requires UniqueJobIds(jobs)
  {
    forall n | 0 <= n < |log| :: ResultsMatch(digest, jobs, log[n].identity, log[n].report)
  }

  /** The invariant of every reachable state: all three tables are exactly what the accepted reports determine. */
  ghost predicate Consistent(digest: Digest, db: Db, log: seq<Accepted>) {
    && UniqueJobIds(db.jobs)
    && db.heads == HeadsOf(log) && db.reports == ReportsOf(log) && db.results == ResultsOf(log)
    && Ordered(log) && AllMatched(digest, db.jobs, log)
  }

  // ---------------------------------------------------------------- what the tables hold

  function HeadOf(e: Accepted): Head {
    Head(e.identity.issuer, e.identity.tenant, e.identity.subject, e.report.sequence, Some(e))
  }

  /** Entry n is the last one of device d. */
  ghost predicate LastOf(log: seq<Accepted>, n: nat, d: DeviceKey)
    requires n < |log|
  {
    DeviceOf(log[n].identity) == d && forall m | n < m < |log| :: DeviceOf(log[m].identity) != d
  }

  lemma LastStays(log: seq<Accepted>, init: seq<Accepted>, n: nat, d: DeviceKey)
    requires |log| == |init| + 1 && log[..|init|] == init && n < |init|
    requires LastOf(init, n, d) && DeviceOf(log[|init|].identity) != d
    ensures LastOf(log, n, d) && log[n] == init[n]
  {
    assert log[n] == init[n];
    forall m | n < m < |log| ensures DeviceOf(log[m].identity) != d {
      if m < |init| { assert log[m] == init[m]; }
    }
  }

  /** The head of a device is its last accepted report. */
  lemma {:induction false} HeadIsLatest(log: seq<Accepted>, d: DeviceKey)
    ensures d !in HeadsOf(log) ==> forall m | 0 <= m < |log| :: DeviceOf(log[m].identity) != d
    ensures d in HeadsOf(log) ==> exists n | 0 <= n < |log| :: LastOf(log, n, d) && HeadsOf(log)[d] == HeadOf(log[n])
  {
    if log != [] {
      var init, e := log[..|log| - 1], log[|log| - 1];
      HeadIsLatest(init, d);
      if DeviceOf(e.identity) == d {
        assert LastOf(log, |log| - 1, d);
      } else if d in HeadsOf(init) {
        var n :| 0 <= n < |init| && LastOf(init, n, d) && HeadsOf(init)[d] == HeadOf(init[n]);
        LastStays(log, init, n, d);
      } else {
        forall m | 0 <= m < |log| ensures DeviceOf(log[m].identity) != d {
          if m < |init| { assert log[m] == init[m]; }
        }
      }
    }
  }

  /** The head carries the greatest sequence and the one subject of its device. */
  lemma HeadIsGreatest(log: seq<Accepted>, m: nat)
    requires Ordered(log) && m < |log|
    ensures var d := DeviceOf(log[m].identity);
            && d in HeadsOf(log) && log[m].report.sequence <= HeadsOf(log)[d].sequence
            && HeadsOf(log)[d].subject == log[m].identity.subject
            && (log[m].report.sequence == HeadsOf(log)[d].sequence ==> HeadsOf(log)[d].latest == Some(log[m]))
  {
    var d := DeviceOf(log[m].identity);
    HeadIsLatest(log, d);
    var n :| 0 <= n < |log| && LastOf(log, n, d) && HeadsOf(log)[d] == HeadOf(log[n]);
    assert SameDevice(log[m], log[n]);
  }

  /** Every stored report row belongs to an accepted report. */
  lemma {:induction false} RowHasEntry(log: seq<Accepted>, k: ReportKey)
    requires k in ReportsOf(log)
    ensures exists n | 0 <= n < |log| :: KeyOf(log[n]) == k
              && ReportsOf(log)[k] == ReportRow(log[n].report.sequence, PayloadHash(log[n].report), log[n].receipt)
  {
    var init, e := log[..|log| - 1], log[|log| - 1];
    if KeyOf(e) == k {
      assert KeyOf(log[|log| - 1]) == k;
    } else {
      RowHasEntry(init, k);
      var n :| 0 <= n < |init| && KeyOf(init[n]) == k
        && ReportsOf(init)[k] == ReportRow(init[n].report.sequence, PayloadHash(init[n].report), init[n].receipt);
      assert log[n] == init[n];
    }
  }

  lemma OrderedPrefix(log: seq<Accepted>)
    requires Ordered(log) && log != []
    ensures Ordered(log[..|log| - 1])
  {}

  /** Every accepted report keeps its own row: later reports never replace it. */
  lemma {:induction false} EntryHasRow(log: seq<Accepted>, n: nat)
    requires Ordered(log) && n < |log|
    ensures KeyOf(log[n]) in ReportsOf(log)
    ensures ReportsOf(log)[KeyOf(log[n])] == ReportRow(log[n].report.sequence, PayloadHash(log[n].report), log[n].receipt)
  {
    var init, e := log[..|log| - 1], log[|log| - 1];
    if n < |init| {
      OrderedPrefix(log);
      EntryHasRow(init, n);
      assert KeyOf(log[n]) != KeyOf(e) by {
        if SameDevice(log[n], log[|log| - 1]) {}
      }
    }
  }

  lemma {:induction false} NewRowsExactly(e: Accepted, reported: seq<JobResult>)
    requires forall m, n | 0 <= m < n < |reported| :: reported[m].jobId != reported[n].jobId
    ensures forall j :: j in NewRows(e, reported) <==> exists n | 0 <= n < |reported| :: reported[n].jobId == j
    ensures forall n | 0 <= n < |reported| :: NewRows(e, reported)[reported[n].jobId] == RowFor(e, reported[n])
  {
    if reported != [] {
      var init, last := reported[..|reported| - 1], reported[|reported| - 1];
      NewRowsExactly(e, init);
      forall j ensures j in NewRows(e, reported) <==> exists n | 0 <= n < |reported| :: reported[n].jobId == j {
        if j in NewRows(e, init) {
          var n :| 0 <= n < |init| && init[n].jobId == j;
          assert reported[n].jobId == j;
        }
        if n :| 0 <= n < |reported| && reported[n].jobId == j {
          if n < |init| { assert init[n].jobId == j; }
        }
        assert reported[|reported| - 1] == last;
      }
      forall n | 0 <= n < |reported| ensures NewRows(e, reported)[reported[n].jobId] == RowFor(e, reported[n]) {
        if n < |init| { assert init[n] == reported[n]; }
      }
    }
  }

  lemma MentionedNow(log: seq<Accepted>, j: string)
    requires log != [] && DistinctResults(log[|log| - 1].report) && Mentions(log[|log| - 1], j)
    ensures IsLastMention(log, |log| - 1, j)
  {
    var e := log[|log| - 1];
    NewRowsExactly(e, ResultsIn(e.report));
    var k :| 0 <= k < |ResultsIn(e.report)| && ResultsIn(e.report)[k].jobId == j;
    assert ResultsOf(log)[j] == RowFor(e, ResultsIn(e.report)[k]);
  }

  lemma NotMentionedNow(log: seq<Accepted>, j: string)
    requires log != [] && DistinctResults(log[|log| - 1].report) && !Mentions(log[|log| - 1], j)
    ensures j in ResultsOf(log) <==> j in ResultsOf(log[..|log| - 1])
    ensures j in ResultsOf(log) ==> ResultsOf(log)[j] == ResultsOf(log[..|log| - 1])[j]
  {
    var e := log[|log| - 1];
    NewRowsExactly(e, ResultsIn(e.report));
  }

  /** The result row of a job is the one carried by the last accepted report that mentions the job. */
  lemma {:induction false} ResultIsLatest(log: seq<Accepted>, j: string)
    requires forall n | 0 <= n < |log| :: DistinctResults(log[n].report)
    ensures j !in ResultsOf(log) ==> forall m | 0 <= m < |log| :: !Mentions(log[m], j)
    ensures j in ResultsOf(log) ==> exists n | 0 <= n < |log| :: IsLastMention(log, n, j)
  {
    if log != [] {
      var init := log[..|log| - 1];
      assert forall n | 0 <= n < |init| :: init[n] == log[n];
      ResultIsLatest(init, j);
      if Mentions(log[|log| - 1], j) {
        MentionedNow(log, j);
      } else {
        NotMentionedNow(log, j);
        if j in ResultsOf(log) {
          var n :| 0 <= n < |init| && IsLastMention(init, n, j);
          LastMentionStays(log, init, n, j, ResultsOf(init)[j]);
          assert IsLastMention(log, n, j);
        }
      }
    }
  }

  lemma LastMentionStays(log: seq<Accepted>, init: seq<Accepted>, n: nat, j: string, row: ResultRow)
    requires |log| == |init| + 1 && log[..|init|] == init && n < |init|
    requires LastMention(init, n, j, row) && !Mentions(log[|init|], j)
    ensures LastMention(log, n, j, row)
  {
    assert log[n] == init[n];
    forall m | n < m < |log| ensures !Mentions(log[m], j) {
      if m < |init| { assert log[m] == init[m]; }
    }
  }

  ghost predicate DistinctResults(r: Report) {
    forall m, n | 0 <= m < n < |ResultsIn(r)| :: ResultsIn(r)[m].jobId != ResultsIn(r)[n].jobId
  }

  /** The entry carries a result of job j, and `row` is the row it upserts. */
  ghost predicate Says(e: Accepted, j: string, row: ResultRow) {
    exists k | 0 <= k < |ResultsIn(e.report)| :: ResultsIn(e.report)[k].jobId == j && row == RowFor(e, ResultsIn(e.report)[k])
  }

  /** Entry n mentions job j, no later entry does, and `row` is what entry n says. */
  ghost predicate LastMention(log: seq<Accepted>, n: nat, j: string, row: ResultRow)
    requires n < |log|
  {
    Says(log[n], j, row) && forall m | n < m < |log| :: !Mentions(log[m], j)
  }

  ghost predicate IsLastMention(log: seq<Accepted>, n: nat, j: string)
    requires n < |log|
  {
    j in ResultsOf(log) && LastMention(log, n, j, ResultsOf(log)[j])
  }

  /** Two reports whose results matched and that mention one job come from the same device. */
  lemma MentionsPinDevice(digest: Digest, jobs: map<JobKey, JobRow>, e: Accepted, f: Accepted, j: string)
    requires UniqueJobIds(jobs) && Mentions(e, j) && Mentions(f, j)
    requires ResultsMatch(digest, jobs, e.identity, e.report) && ResultsMatch(digest, jobs, f.identity, f.report)
    ensures SameDevice(e, f)
  {
    var m :| 0 <= m < |ResultsIn(e.report)| && ResultsIn(e.report)[m].jobId == j;
    var n :| 0 <= n < |ResultsIn(f.report)| && ResultsIn(f.report)[n].jobId == j;
    assert ResultMatches(digest, jobs, e.identity, e.report, ResultsIn(e.report)[m]);
    assert ResultMatches(digest, jobs, f.identity, f.report, ResultsIn(f.report)[n]);
    var a :| a in jobs && jobs[a].jobId == j && a.issuer == e.identity.issuer && a.tenant == e.identity.tenant
      && FindJob(jobs, j, e.identity.issuer, e.identity.tenant) == Some(jobs[a].record);
    var b :| b in jobs && jobs[b].jobId == j && b.issuer == f.identity.issuer && b.tenant == f.identity.tenant
      && FindJob(jobs, j, f.identity.issuer, f.identity.tenant) == Some(jobs[b].record);
  }

  // ---------------------------------------------------------------- preservation

  lemma {:induction false} UpsertsApply(results: map<string, ResultRow>, e: Accepted, reported: seq<JobResult>)
    requires forall n | 0 <= n < |reported| :: reported[n].jobId in results ==>
               results[reported[n].jobId].device == DeviceOf(e.identity) && results[reported[n].jobId].sequence < e.report.sequence
    requires forall m, n | 0 <= m < n < |reported| :: reported[m].jobId != reported[n].jobId
    ensures UpsertAll(results, e, reported) == results + NewRows(e, reported)
  {
    if reported != [] {
      var init, last := reported[..|reported| - 1], reported[|reported| - 1];
      assert forall n | 0 <= n < |init| :: init[n] == reported[n];
      UpsertsApply(results, e, init);
      FreshJobId(e, reported);
      UpsertApplies(results, NewRows(e, init), last.jobId, RowFor(e, last));
    }
  }

  lemma FreshJobId(e: Accepted, reported: seq<JobResult>)
    requires reported != []
    requires forall m, n | 0 <= m < n < |reported| :: reported[m].jobId != reported[n].jobId
    ensures reported[|reported| - 1].jobId !in NewRows(e, reported[..|reported| - 1])
  {
    NewRowsExactly(e, reported[..|reported| - 1]);
  }

  lemma UpsertApplies(results: map<string, ResultRow>, more: map<string, ResultRow>, j: string, row: ResultRow)
    requires j !in more
    requires j in results ==> results[j].device == row.device && results[j].sequence < row.sequence
    ensures Upsert(results + more, j, row) == results + more[j := row]
  {}

  /** The WHERE guard of the upsert is never false: an accepted result is always newer and from the same device. */
  lemma GuardHolds(digest: Digest, db: Db, log: seq<Accepted>, i: Identity, r: Report, now: int, n: nat)
    requires Consistent(digest, db, log) && AcceptsNew(digest, db, i, r, now) && n < |ResultsIn(r)|
    ensures ResultsIn(r)[n].jobId in db.results ==>
              && db.results[ResultsIn(r)[n].jobId].device == DeviceOf(i)
              && db.results[ResultsIn(r)[n].jobId].sequence < r.sequence
  {
    var j := ResultsIn(r)[n].jobId;
    if j in db.results {
      DistinctInLog(digest, db.jobs, log);
      ResultIsLatest(log, j);
      var m :| 0 <= m < |log| && IsLastMention(log, m, j);
      var e := EntryFor(i, r, now);
      assert Mentions(log[m], j) && Mentions(e, j);
      MentionsPinDevice(digest, db.jobs, log[m], e, j);
      HeadIsGreatest(log, m);
    }
  }

  lemma DistinctInLog(digest: Digest, jobs: map<JobKey, JobRow>, log: seq<Accepted>)
    requires UniqueJobIds(jobs) && AllMatched(digest, jobs, log)
    ensures forall n | 0 <= n < |log| :: DistinctResults(log[n].report)
  {
    forall n | 0 <= n < |log| ensures DistinctResults(log[n].report) {
      assert ResultsMatch(digest, jobs, log[n].identity, log[n].report);
    }
  }

  lemma NewEntryOrdered(digest: Digest, db: Db, log: seq<Accepted>, i: Identity, r: Report, now: int)
    requires Consistent(digest, db, log) && AcceptsNew(digest, db, i, r, now) && r.sequence > 0
    ensures Ordered(log + [EntryFor(i, r, now)])
  {
    var e := EntryFor(i, r, now);
    var after := log + [e];
    forall m, n | 0 <= m < n < |after| && SameDevice(after[m], after[n])
      ensures && after[m].report.sequence < after[n].report.sequence
              && after[m].report.reportId != after[n].report.reportId
              && after[m].identity.subject == after[n].identity.subject
    {
      if n == |log| {
        HeadIsGreatest(log, m);
        EntryHasRow(log, m);
        assert KeyOf(log[m]) !in Duplicates(db.reports, DeviceOf(i), r);
      } else {
        assert after[m] == log[m] && after[n] == log[n];
      }
    }
  }

  lemma RecordedResults(digest: Digest, db: Db, log: seq<Accepted>, i: Identity, r: Report, now: int)
    requires Consistent(digest, db, log) && AcceptsNew(digest, db, i, r, now)
    ensures UpsertAll(db.results, EntryFor(i, r, now), ResultsIn(r))
         == db.results + NewRows(EntryFor(i, r, now), ResultsIn(r))
  {
    forall n | 0 <= n < |ResultsIn(r)|
      ensures ResultsIn(r)[n].jobId in db.results ==>
                && db.results[ResultsIn(r)[n].jobId].device == DeviceOf(i)
                && db.results[ResultsIn(r)[n].jobId].sequence < r.sequence
    {
      GuardHolds(digest, db, log, i, r, now, n);
    }
    UpsertsApply(db.results, EntryFor(i, r, now), ResultsIn(r));
  }

  lemma RecordedHead(digest: Digest, db: Db, log: seq<Accepted>, i: Identity, r: Report, now: int)
    requires Consistent(digest, db, log) && AcceptsNew(digest, db, i, r, now)
    ensures HeadFor(db.heads, EntryFor(i, r, now)) == Head(i.issuer, i.tenant, i.subject, r.sequence, Some(EntryFor(i, r, now)))
  {
    HeadIsLatest(log, DeviceOf(i));
  }

  lemma TablesOfExtended(log: seq<Accepted>, e: Accepted)
    ensures HeadsOf(log + [e]) == HeadsOf(log)[DeviceOf(e.identity)
              := Head(e.identity.issuer, e.identity.tenant, e.identity.subject, e.report.sequence, Some(e))]
    ensures ReportsOf(log + [e]) == ReportsOf(log)[KeyOf(e) := ReportRow(e.report.sequence, PayloadHash(e.report), e.receipt)]
    ensures ResultsOf(log + [e]) == ResultsOf(log) + NewRows(e, ResultsIn(e.report))
  {
    assert (log + [e])[..|log + [e]| - 1] == log;
  }

  /** Accepting a new report keeps all three tables equal to what the accepted reports determine. */
  lemma RecordConsistent(digest: Digest, db: Db, log: seq<Accepted>, i: Identity, r: Report, now: int)
    requires Consistent(digest, db, log) && AcceptsNew(digest, db, i, r, now) && r.sequence > 0
    ensures Consistent(digest, Record(db, EntryFor(i, r, now)), log + [EntryFor(i, r, now)])
  {
    var e := EntryFor(i, r, now);
    TablesOfExtended(log, e);
    NewEntryOrdered(digest, db, log, i, r, now);
    RecordedHead(digest, db, log, i, r, now);
    RecordedResults(digest, db, log, i, r, now);
    ExtendedMatched(digest, db.jobs, log, e);
  }

  lemma ExtendedMatched(digest: Digest, jobs: map<JobKey, JobRow>, log: seq<Accepted>, e: Accepted)
    requires UniqueJobIds(jobs) && AllMatched(digest, jobs, log) && ResultsMatch(digest, jobs, e.identity, e.report)
    ensures AllMatched(digest, jobs, log + [e])
  {
    forall n | 0 <= n < |log + [e]| ensures ResultsMatch(digest, jobs, (log + [e])[n].identity, (log + [e])[n].report) {
      if n < |log| { assert (log + [e])[n] == log[n]; }
    }
  }

  // ---------------------------------------------------------------- what the invariant means

  lemma OnlyDuplicate(digest: Digest, db: Db, log: seq<Accepted>, n: nat)
    requires Consistent(digest, db, log) && n < |log|
    ensures Duplicates(db.reports, DeviceOf(log[n].identity), log[n].report) == {KeyOf(log[n])}
  {
    var d, r := DeviceOf(log[n].identity), log[n].report;
    EntryHasRow(log, n);
    forall k | k in Duplicates(db.reports, d, r) ensures k == KeyOf(log[n]) {
      RowHasEntry(log, k);
      var m :| 0 <= m < |log| && KeyOf(log[m]) == k
        && ReportsOf(log)[k] == ReportRow(log[m].report.sequence, PayloadHash(log[m].report), log[m].receipt);
      assert SameDevice(log[m], log[n]) && SameDevice(log[n], log[m]);
    }
  }

  /** A report accepted once is answered with its original receipt forever after, and nothing changes. */
  lemma ResendReturnsReceipt(digest: Digest, db: Db, log: seq<Accepted>, n: nat, i: Identity, now: int)
    requires Consistent(digest, db, log) && n < |log|
    requires DeviceOf(i) == DeviceOf(log[n].identity) && i.subject == log[n].identity.subject
    ensures Answer(digest, db, i, log[n].report, now) == Ok(log[n].receipt)
    ensures !AcceptsNew(digest, db, i, log[n].report, now)
  {
    OnlyDuplicate(digest, db, log, n);
    EntryHasRow(log, n);
    HeadIsGreatest(log, n);
  }

  /** A report of a known device is a retry exactly when that very report was accepted before. */
  lemma RetryExactly(digest: Digest, db: Db, log: seq<Accepted>, d: DeviceKey, r: Report)
    requires Consistent(digest, db, log)
    ensures IsRetry(db.reports, d, r) <==> exists n | 0 <= n < |log| :: DeviceOf(log[n].identity) == d && log[n].report == r
  {
    if IsRetry(db.reports, d, r) {
      var k := ReportKey(d, r.reportId);
      assert k in Duplicates(db.reports, d, r);
      RowHasEntry(log, k);
      var n :| 0 <= n < |log| && KeyOf(log[n]) == k
        && ReportsOf(log)[k] == ReportRow(log[n].report.sequence, PayloadHash(log[n].report), log[n].receipt);
      assert DeviceOf(log[n].identity) == d && log[n].report == r;
    }
    if n :| 0 <= n < |log| && DeviceOf(log[n].identity) == d && log[n].report == r {
      OnlyDuplicate(digest, db, log, n);
      EntryHasRow(log, n);
    }
  }

  /** The row holds the issued job of a reported result: of this very identity, and confirmed in every field. */
  predicate AnswersJob(digest: Digest, k: JobKey, row: JobRow, i: Identity, r: Report, result: JobResult) {
    var job := row.record.job;
    && row.jobId == result.jobId && k.issuer == i.issuer && k.tenant == i.tenant
    && job.iss == i.resource && job.subject == i.subject && job.organizationId == i.organization
    && job.deviceId == i.device && job.deviceVersion == i.version && job.keyJkt == i.jkt
    && result.resourceId == job.resource.id && result.stateVersion == job.expectedStateVersion + 1
    && result.digest == digest(job) && r.observedAt.ms >= job.iat * 1000 - 5000
  }

  ghost predicate HasJob(digest: Digest, jobs: map<JobKey, JobRow>, i: Identity, r: Report, result: JobResult) {
    exists k | k in jobs :: AnswersJob(digest, k, jobs[k], i, r, result)
  }

  lemma MatchesExactly(digest: Digest, jobs: map<JobKey, JobRow>, i: Identity, r: Report, result: JobResult)
    requires UniqueJobIds(jobs)
    ensures ResultMatches(digest, jobs, i, r, result) <==> HasJob(digest, jobs, i, r, result)
  {
    if k :| k in jobs && AnswersJob(digest, k, jobs[k], i, r, result) {
      assert FindJob(jobs, result.jobId, i.issuer, i.tenant).Some?;
    }
    if ResultMatches(digest, jobs, i, r, result) {
      var k :| k in jobs && jobs[k].jobId == result.jobId && k.issuer == i.issuer && k.tenant == i.tenant
        && FindJob(jobs, result.jobId, i.issuer, i.tenant) == Some(jobs[k].record);
      assert AnswersJob(digest, k, jobs[k], i, r, result);
    }
  }

  /** Every result of the report has its issued job, and no job is reported twice. */
  ghost predicate AllHaveJobs(digest: Digest, jobs: map<JobKey, JobRow>, i: Identity, r: Report) {
    r.jobResults.Some? ==>
      && (forall n | 0 <= n < |r.jobResults.value| :: HasJob(digest, jobs, i, r, r.jobResults.value[n]))
      && (forall m, n | 0 <= m < n < |r.jobResults.value| :: r.jobResults.value[m].jobId != r.jobResults.value[n].jobId)
  }

  lemma AllMatchExactly(digest: Digest, jobs: map<JobKey, JobRow>, i: Identity, r: Report)
    requires UniqueJobIds(jobs)
    ensures ResultsMatch(digest, jobs, i, r) <==> AllHaveJobs(digest, jobs, i, r)
  {
    if r.jobResults.Some? {
      var results := r.jobResults.value;
      assert ResultsIn(r) == results;
      forall n | 0 <= n < |results|
        ensures ResultMatches(digest, jobs, i, r, results[n]) <==> HasJob(digest, jobs, i, r, results[n])
      {
        MatchesExactly(digest, jobs, i, r, results[n]);
      }
      if ResultsMatch(digest, jobs, i, r) {
        forall n | 0 <= n < |results| ensures HasJob(digest, jobs, i, r, results[n]) { assert results[n] == ResultsIn(r)[n]; }
      }
    }
  }

  // What the accepted reports of the sender's device say about a new one.

  predicate OtherOwner(log: seq<Accepted>, i: Identity) {
    exists n | 0 <= n < |log| :: DeviceOf(log[n].identity) == DeviceOf(i) && log[n].identity.subject != i.subject
  }

  predicate Taken(log: seq<Accepted>, i: Identity, r: Report) {
    exists n | 0 <= n < |log| :: DeviceOf(log[n].identity) == DeviceOf(i)
      && (log[n].report.reportId == r.reportId || log[n].report.sequence == r.sequence)
  }

  predicate Sent(log: seq<Accepted>, i: Identity, r: Report) {
    exists n | 0 <= n < |log| :: DeviceOf(log[n].identity) == DeviceOf(i) && log[n].report == r
  }

  predicate Behind(log: seq<Accepted>, i: Identity, r: Report) {
    r.sequence <= 0 || exists n | 0 <= n < |log| :: DeviceOf(log[n].identity) == DeviceOf(i) && log[n].report.sequence > r.sequence
  }

  lemma HeadKnowsOwner(digest: Digest, db: Db, log: seq<Accepted>, i: Identity)
    requires Consistent(digest, db, log)
    ensures DeviceOf(i) in db.heads && db.heads[DeviceOf(i)].subject != i.subject <==> OtherOwner(log, i)
  {
    HeadIsLatest(log, DeviceOf(i));
    if n :| 0 <= n < |log| && DeviceOf(log[n].identity) == DeviceOf(i) && log[n].identity.subject != i.subject {
      HeadIsGreatest(log, n);
    }
  }

  lemma DuplicatesAreTaken(digest: Digest, db: Db, log: seq<Accepted>, i: Identity, r: Report)
    requires Consistent(digest, db, log)
    ensures Duplicates(db.reports, DeviceOf(i), r) != {} <==> Taken(log, i, r)
  {
    if k :| k in Duplicates(db.reports, DeviceOf(i), r) {
      RowHasEntry(log, k);
      var n :| 0 <= n < |log| && KeyOf(log[n]) == k
        && ReportsOf(log)[k] == ReportRow(log[n].report.sequence, PayloadHash(log[n].report), log[n].receipt);
    }
    if n :| 0 <= n < |log| && DeviceOf(log[n].identity) == DeviceOf(i)
            && (log[n].report.reportId == r.reportId || log[n].report.sequence == r.sequence) {
      EntryHasRow(log, n);
      assert KeyOf(log[n]) in Duplicates(db.reports, DeviceOf(i), r);
    }
  }

  lemma HeadKnowsSequence(digest: Digest, db: Db, log: seq<Accepted>, i: Identity, r: Report)
    requires Consistent(digest, db, log) && !Taken(log, i, r)
    ensures r.sequence <= HeadSequence(db.heads, DeviceOf(i)) <==> Behind(log, i, r)
  {
    HeadIsLatest(log, DeviceOf(i));
    if n :| 0 <= n < |log| && DeviceOf(log[n].identity) == DeviceOf(i) && log[n].report.sequence > r.sequence {
      HeadIsGreatest(log, n);
    }
  }

  /** A new report is accepted exactly when its device never sent its id, nothing as new, nothing for anyone else, and its results hold. */
  lemma AcceptsNewExactly(digest: Digest, db: Db, log: seq<Accepted>, i: Identity, r: Report, now: int)
    requires Consistent(digest, db, log)
    ensures AcceptsNew(digest, db, i, r, now) <==>
      && r.sequence > 0
      && (forall n | 0 <= n < |log| && DeviceOf(log[n].identity) == DeviceOf(i) ::
            log[n].report.reportId != r.reportId && log[n].report.sequence < r.sequence && log[n].identity.subject == i.subject)
      && AllHaveJobs(digest, db.jobs, i, r)
    ensures AcceptsNew(digest, db, i, r, now) ==>
      && Answer(digest, db, i, r, now) == Ok(Receipt(r.reportId, r.sequence, now))
      && LogAfter(digest, db, log, i, r, now) == log + [Accepted(i, r, Receipt(r.reportId, r.sequence, now))]
  {
    HeadKnowsOwner(digest, db, log, i);
    DuplicatesAreTaken(digest, db, log, i, r);
    if !Taken(log, i, r) { HeadKnowsSequence(digest, db, log, i, r); }
    AllMatchExactly(digest, db.jobs, i, r);
  }

  /** Every other report is answered by the first of these that applies; only the very report sent before is accepted again. */
  lemma RefusesExactly(digest: Digest, db: Db, log: seq<Accepted>, i: Identity, r: Report, now: int)
    requires Consistent(digest, db, log)
    ensures var answer := Answer(digest, db, i, r, now);
      if OtherOwner(log, i) then answer == Err(DeviceNotAuthorized)
      else if Sent(log, i, r) then answer.Ok? && !AcceptsNew(digest, db, i, r, now)
      else if Taken(log, i, r) then answer == Err(ReportConflict)
      else if Behind(log, i, r) then answer == Err(ReportOutOfOrder)
      else if !AllHaveJobs(digest, db.jobs, i, r) then answer == Err(JobResultMismatch)
      else answer.Ok? && AcceptsNew(digest, db, i, r, now)
  {
    HeadKnowsOwner(digest, db, log, i);
    DuplicatesAreTaken(digest, db, log, i, r);
    RetryExactly(digest, db, log, DeviceOf(i), r);
    if !Taken(log, i, r) { HeadKnowsSequence(digest, db, log, i, r); }
    AllMatchExactly(digest, db.jobs, i, r);
  }

  predicate Carries(r: Report, result: JobResult) {
    r.jobResults.Some? && result in r.jobResults.value
  }

  /** A job result row names an issued job it confirms in every field and a stored report of that device that carries it. */
  ghost predicate ResultExplained(digest: Digest, db: Db, j: string)
    requires UniqueJobIds(db.jobs) && j in db.results
  {
    var row := db.results[j];
    var k := ReportKey(row.device, row.reportId);
    && row.result.jobId == j
    && k in db.reports && db.reports[k].sequence == row.sequence
    && db.reports[k].receipt == Receipt(row.reportId, row.sequence, row.receivedAt)
    && var r := db.reports[k].payloadHash.report;
       && r.reportId == row.reportId && r.observedAt == row.observedAt && Carries(r, row.result)
       && exists i: Identity :: DeviceOf(i) == row.device && HasJob(digest, db.jobs, i, r, row.result)
  }

  /** The receipt of an accepted report names it. */
  ghost predicate ReceiptsName(log: seq<Accepted>) {
    forall n | 0 <= n < |log| :: log[n].receipt.reportId == log[n].report.reportId && log[n].receipt.sequence == log[n].report.sequence
  }

  lemma ResultRowExplained(digest: Digest, db: Db, log: seq<Accepted>, j: string)
    requires Consistent(digest, db, log) && ReceiptsName(log) && j in db.results
    ensures ResultExplained(digest, db, j)
  {
    DistinctInLog(digest, db.jobs, log);
    ResultIsLatest(log, j);
    var n :| 0 <= n < |log| && IsLastMention(log, n, j);
    var k :| 0 <= k < |ResultsIn(log[n].report)|
      && ResultsIn(log[n].report)[k].jobId == j && ResultsOf(log)[j] == RowFor(log[n], ResultsIn(log[n].report)[k]);
    EntryHasRow(log, n);
    MatchesExactly(digest, db.jobs, log[n].identity, log[n].report, ResultsIn(log[n].report)[k]);
  }

  /** On one device, no mention of a job is newer than the last one, and the last one's own result is the row. */
  lemma LastMentionNewest(log: seq<Accepted>, m: nat, n: nat, result: JobResult, row: ResultRow)
    requires Ordered(log) && m < |log| && n < |log| && LastMention(log, n, result.jobId, row)
    requires result in ResultsIn(log[m].report) && SameDevice(log[m], log[n]) && DistinctResults(log[n].report)
    ensures row.device == DeviceOf(log[m].identity) && log[m].report.sequence <= row.sequence
    ensures log[m].report.sequence == row.sequence ==> row.result == result
  {
    var j := result.jobId;
    assert Mentions(log[m], j);
    assert m <= n;
    var k :| 0 <= k < |ResultsIn(log[n].report)| && ResultsIn(log[n].report)[k].jobId == j && row == RowFor(log[n], ResultsIn(log[n].report)[k]);
    if m < n { assert log[m].report.sequence < log[n].report.sequence; }
  }

  lemma SaysMentions(e: Accepted, j: string, row: ResultRow)
    requires Says(e, j, row)
    ensures Mentions(e, j)
  {}

  lemma MentionsShareDevice(digest: Digest, db: Db, log: seq<Accepted>, m: nat, n: nat, j: string)
    requires Consistent(digest, db, log) && m < |log| && n < |log| && Mentions(log[m], j) && Mentions(log[n], j)
    ensures SameDevice(log[m], log[n]) && DistinctResults(log[n].report)
  {
    DistinctInLog(digest, db.jobs, log);
    MentionsPinDevice(digest, db.jobs, log[m], log[n], j);
  }

  lemma LatestMention(digest: Digest, db: Db, log: seq<Accepted>, m: nat, j: string) returns (n: nat)
    requires Consistent(digest, db, log) && m < |log| && Mentions(log[m], j)
    ensures n < |log| && j in db.results && LastMention(log, n, j, db.results[j])
  {
    DistinctInLog(digest, db.jobs, log);
    ResultIsLatest(log, j);
    n :| 0 <= n < |log| && IsLastMention(log, n, j);
  }

  lemma MentionNotNewer(digest: Digest, db: Db, log: seq<Accepted>, m: nat, result: JobResult)
    requires Consistent(digest, db, log) && m < |log| && result in ResultsIn(log[m].report)
    ensures result.jobId in db.results
    ensures var row := db.results[result.jobId];
            && row.device == DeviceOf(log[m].identity) && log[m].report.sequence <= row.sequence
            && (log[m].report.sequence == row.sequence ==> row.result == result)
  {
    assert Mentions(log[m], result.jobId);
    var n := LatestMention(digest, db, log, m, result.jobId);
    SaysMentions(log[n], result.jobId, db.results[result.jobId]);
    MentionsShareDevice(digest, db, log, m, n, result.jobId);
    LastMentionNewest(log, m, n, result, db.results[result.jobId]);
  }

  /** A stored report that mentions a job is never newer than the job's result row: nothing was dropped. */
  lemma ResultRowIsNewest(digest: Digest, db: Db, log: seq<Accepted>, k: ReportKey, result: JobResult)
    requires Consistent(digest, db, log)
    requires k in db.reports && result in ResultsIn(db.reports[k].payloadHash.report)
    ensures result.jobId in db.results && db.results[result.jobId].device == k.device
    ensures db.reports[k].sequence <= db.results[result.jobId].sequence
    ensures db.reports[k].sequence == db.results[result.jobId].sequence ==> db.results[result.jobId].result == result
  {
    RowHasEntry(log, k);
    var m :| 0 <= m < |log| && KeyOf(log[m]) == k
      && ReportsOf(log)[k] == ReportRow(log[m].report.sequence, PayloadHash(log[m].report), log[m].receipt);
    MentionNotNewer(digest, db, log, m, result);
  }

  /** A stored head is the report and receipt of the greatest stored sequence of its device. */
  lemma HeadHoldsGreatest(digest: Digest, db: Db, log: seq<Accepted>, d: DeviceKey)
    requires Consistent(digest, db, log) && d in db.heads
    ensures db.heads[d].latest.Some? && db.heads[d].sequence > 0
    ensures var e := db.heads[d].latest.value;
            && KeyOf(e) == ReportKey(d, e.report.reportId) && KeyOf(e) in db.reports
            && db.reports[KeyOf(e)] == ReportRow(db.heads[d].sequence, PayloadHash(e.report), e.receipt)
            && e in log && db.heads[d].subject == e.identity.subject
    ensures forall k | k in db.reports && k.device == d :: db.reports[k].sequence <= db.heads[d].sequence
  {
    HeadIsLatest(log, d);
    var n :| 0 <= n < |log| && LastOf(log, n, d) && HeadsOf(log)[d] == HeadOf(log[n]);
    EntryHasRow(log, n);
    forall k | k in db.reports && k.device == d ensures db.reports[k].sequence <= db.heads[d].sequence {
      RowHasEntry(log, k);
      var m :| 0 <= m < |log| && KeyOf(log[m]) == k
        && ReportsOf(log)[k] == ReportRow(log[m].report.sequence, PayloadHash(log[m].report), log[m].receipt);
      HeadIsGreatest(log, m);
    }
  }

  lemma FoundJobStays(jobs: map<JobKey, JobRow>, more: map<JobKey, JobRow>, j: string, issuer: string, tenant: string)
    requires UniqueJobIds(jobs) && UniqueJobIds(more)
    requires forall k | k in jobs :: k in more && more[k] == jobs[k]
    requires FindJob(jobs, j, issuer, tenant).Some?
    ensures FindJob(more, j, issuer, tenant) == FindJob(jobs, j, issuer, tenant)
  {
    var k :| k in jobs && jobs[k].jobId == j && k.issuer == issuer && k.tenant == tenant
      && jobs[k].record == FindJob(jobs, j, issuer, tenant).value;
    assert more[k].jobId == j;
  }

  /** Issuing more jobs never invalidates a stored result: the invariant is kept by every growth of the jobs table. */
  lemma JobsGrow(digest: Digest, db: Db, log: seq<Accepted>, more: map<JobKey, JobRow>)
    requires Consistent(digest, db, log) && UniqueJobIds(more)
    requires forall k | k in db.jobs :: k in more && more[k] == db.jobs[k]
    ensures Consistent(digest, db.(jobs := more), log)
  {
    forall n | 0 <= n < |log| ensures ResultsMatch(digest, more, log[n].identity, log[n].report) {
      var i, r := log[n].identity, log[n].report;
      assert ResultsMatch(digest, db.jobs, i, r);
      forall m | 0 <= m < |ResultsIn(r)| ensures ResultMatches(digest, more, i, r, ResultsIn(r)[m]) {
        assert ResultMatches(digest, db.jobs, i, r, ResultsIn(r)[m]);
        FoundJobStays(db.jobs, more, ResultsIn(r)[m].jobId, i.issuer, i.tenant);
      }
    }
  }

  // ---------------------------------------------------------------- the transaction step by step

  function IdsUpTo(reported: seq<JobResult>, n: nat): set<string>
    requires n <= |reported|
  {
    set m | 0 <= m < n :: reported[m].jobId
  }

  ghost predicate PrefixMatches(digest: Digest, jobs: map<JobKey, JobRow>, i: Identity, r: Report, n: nat)
    requires UniqueJobIds(jobs) && n <= |ResultsIn(r)|
  {
    && (forall m | 0 <= m < n :: ResultMatches(digest, jobs, i, r, ResultsIn(r)[m]))
    && (forall m, k | 0 <= m < k < n :: ResultsIn(r)[m].jobId != ResultsIn(r)[k].jobId)
  }

  lemma UpsertStep(results: map<string, ResultRow>, e: Accepted, reported: seq<JobResult>, n: nat)
    requires n < |reported|
    ensures UpsertAll(results, e, reported[..n + 1])
         == Upsert(UpsertAll(results, e, reported[..n]), reported[n].jobId, RowFor(e, reported[n]))
  {
    assert reported[..n + 1][..n] == reported[..n];
  }

  lemma PrefixStep(digest: Digest, jobs: map<JobKey, JobRow>, i: Identity, r: Report, n: nat)
    requires UniqueJobIds(jobs) && n < |ResultsIn(r)| && PrefixMatches(digest, jobs, i, r, n)
    ensures IdsUpTo(ResultsIn(r), n + 1) == IdsUpTo(ResultsIn(r), n) + {ResultsIn(r)[n].jobId}
    ensures PrefixMatches(digest, jobs, i, r, n + 1)
       <==> ResultsIn(r)[n].jobId !in IdsUpTo(ResultsIn(r), n) && ResultMatches(digest, jobs, i, r, ResultsIn(r)[n])
    ensures !PrefixMatches(digest, jobs, i, r, n + 1) ==> !ResultsMatch(digest, jobs, i, r)
  {}

  /** The declared constraints the statements rely on: UNIQUE (job_id) and reports REFERENCES heads. */
  ghost predicate Constraints(db: Db) {
    UniqueJobIds(db.jobs) && forall k | k in db.reports :: k.device in db.heads
  }

  /** The store of one database. Its invariant over whole runs is Consistent, kept by After: see Commits. */
  class ManagementStore {
    const digest: Digest
    var heads: map<DeviceKey, Head>
    var reports: map<ReportKey, ReportRow>
    var jobs: map<JobKey, JobRow>
    var results: map<string, ResultRow>

    function Tables(): Db
      reads this
    {
      Db(heads, reports, jobs, results)
    }

    ghost predicate Valid()
      reads this
    {
      Constraints(Tables())
    }

    constructor (digest: Digest)
      ensures Valid() && this.digest == digest && Tables() == Db(map[], map[], map[], map[])
    {
      this.digest := digest;
      heads, reports, jobs, results := map[], map[], map[], map[];
    }

    /** SELECT the duplicates; the one row of an exact retry yields its receipt, any other duplicate is a conflict. */
    method FindPrior(d: DeviceKey, r: Report) returns (prior: Option<Result<Receipt, ReportError>>)
      ensures prior.None? <==> Duplicates(reports, d, r) == {}
      ensures prior.Some? ==> prior.value == if IsRetry(reports, d, r) then Ok(reports[ReportKey(d, r.reportId)].receipt)
                                             else Err(ReportConflict)
    {
      var duplicates := Duplicates(reports, d, r);
      if duplicates == {} {
        return None;
      }
      var row :| row in duplicates;
      if duplicates != {row} || row.reportId != r.reportId || reports[row].sequence != r.sequence
         || reports[row].payloadHash != PayloadHash(r)
      {
        return Some(Err(ReportConflict));
      }
      return Some(Ok(reports[row].receipt));
    }

    /** The reported results one by one, each checked against its issued job before it is upserted. */
    method RecordResults(i: Identity, r: Report, e: Accepted) returns (matched: bool)
      requires UniqueJobIds(jobs)
      modifies `results
      ensures matched <==> ResultsMatch(digest, jobs, i, r)
      ensures matched ==> results == UpsertAll(old(results), e, ResultsIn(r))
    {
      var reported := ResultsIn(r);
      var seen: set<string> := {};
      assert reported[..0] == [];
      for n := 0 to |reported|
        invariant results == UpsertAll(old(results), e, reported[..n])
        invariant seen == IdsUpTo(reported, n)
        invariant PrefixMatches(digest, jobs, i, r, n)
      {
        var result := reported[n];
        PrefixStep(digest, jobs, i, r, n);
        if result.jobId in seen || !ResultMatches(digest, jobs, i, r, result) {
          return false;
        }
        seen := seen + {result.jobId};
        results := Upsert(results, result.jobId, RowFor(e, result));
        UpsertStep(old(results), e, reported, n);
      }
      assert reported[..|reported|] == reported;
      return true;
    }

    /** The statements between BEGIN and COMMIT. */
    method Transact(i: Identity, r: Report, now: int) returns (answer: Result<Receipt, ReportError>)
      requires Valid()
      modifies `heads, `reports, `results
      ensures answer == Answer(digest, old(Tables()), i, r, now)
      ensures answer.Ok? ==> Tables() == After(digest, old(Tables()), i, r, now)
    {
      var device := DeviceOf(i);
      if device !in heads {
        heads := heads[device := Head(i.issuer, i.tenant, i.subject, 0, None)];
      }
      var head := heads[device];
      if head.subject != i.subject {
        return Err(DeviceNotAuthorized);
      }
      var prior := FindPrior(device, r);
      if prior.Some? {
        return prior.value;
      }
      if r.sequence <= head.sequence {
        return Err(ReportOutOfOrder);
      }
      var e := EntryFor(i, r, now);
      reports := reports[ReportKey(device, r.reportId) := ReportRow(r.sequence, PayloadHash(r), e.receipt)];
      var matched := RecordResults(i, r, e);
      if !matched {
        return Err(JobResultMismatch);
      }
      heads := heads[device := head.(sequence := r.sequence, latest := Some(e))];
      return Ok(e.receipt);
    }

    /** accept: every thrown outcome rolls the tables back. */
    method Accept(i: Identity, r: Report, now: int) returns (answer: Result<Receipt, ReportError>)
      requires Valid()
      modifies this
      ensures Valid()
      ensures answer == Answer(digest, old(Tables()), i, r, now)
      ensures Tables() == After(digest, old(Tables()), i, r, now)
      ensures answer.Err? ==> Tables() == old(Tables())
    {
      var heads0, reports0, results0 := heads, reports, results;
      AfterKeepsConstraints(digest, Tables(), i, r, now);
      answer := Transact(i, r, now);
      if answer.Err? {
        heads, reports, results := heads0, reports0, results0;
      }
    }
  }

  lemma AfterKeepsConstraints(digest: Digest, db: Db, i: Identity, r: Report, now: int)
    requires Constraints(db)
    ensures Constraints(After(digest, db, i, r, now))
    ensures Answer(digest, db, i, r, now).Err? ==> After(digest, db, i, r, now) == db
  {}

  lemma DuplicateHasHead(digest: Digest, db: Db, log: seq<Accepted>, k: ReportKey)
    requires Consistent(digest, db, log) && k in db.reports
    ensures k.device in db.heads
  {
    RowHasEntry(log, k);
    var n :| 0 <= n < |log| && KeyOf(log[n]) == k;
    HeadIsLatest(log, k.device);
  }

  /** Every consistent state satisfies the declared constraints. */
  lemma ConsistentMeetsConstraints(digest: Digest, db: Db, log: seq<Accepted>)
    requires Consistent(digest, db, log)
    ensures Constraints(db)
  {
    forall k | k in db.reports ensures k.device in db.heads { DuplicateHasHead(digest, db, log, k); }
  }

  /** One call keeps the invariant, whatever it answers; a refused call changes nothing. */
  lemma Commits(digest: Digest, db: Db, log: seq<Accepted>, i: Identity, r: Report, now: int)
    requires Consistent(digest, db, log) && ReceiptsName(log) && r.sequence > 0
    ensures Consistent(digest, After(digest, db, i, r, now), LogAfter(digest, db, log, i, r, now))
    ensures ReceiptsName(LogAfter(digest, db, log, i, r, now))
    ensures Answer(digest, db, i, r, now).Err? ==> After(digest, db, i, r, now) == db
  {
    if AcceptsNew(digest, db, i, r, now) { RecordConsistent(digest, db, log, i, r, now); }
  }
}
