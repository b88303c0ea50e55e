/**
 The entities and tables of daemon management. A SHA-256 over a JSON list is an ideal injective hash, so a
 hashed key is the tuple it is taken over and a payload hash is the report it is taken over.
 */
module ManagementModel {
  import opened Prelude
  import opened JobContract

  datatype Identity = Identity(
    issuer: string, tenant: string, subject: string, organization: string, client: string, resource: string,
    device: string, version: int, jkt: string, userVersion: string, serviceVersion: string)

  /** A timestamp text together with the milliseconds Date.parse reads from it. */
  datatype Instant = Instant(text: string, ms: int)

  datatype Termination = Confirmed | Unknown

  datatype JobResult = JobResult(jobId: string, digest: string, resourceId: string, stateVersion: int, termination: Termination)

  datatype Connection = Connected | Unavailable

  datatype PolicyState = Valid | Expired | Unverified

  datatype Policy = Policy(state: PolicyState, revision: Option<int>)

  /** `details` stands for the optional report fields that no modelled decision reads. */
  datatype Report = Report(
    reportId: string, sequence: int, observedAt: Instant, connection: Connection, policy: Option<Policy>,
    jobResults: Option<seq<JobResult>>, details: string)

  datatype Receipt = Receipt(reportId: string, sequence: int, receivedAt: int)

  datatype Authority = Authority(subject: string, organization: string, userVersion: string, serviceAccessVersion: string, checkedAt: int)

  datatype StoredJob = StoredJob(job: ManagementJob, compact: string, kid: string, authority: Authority)

  datatype DeviceKey = DeviceKey(issuer: string, tenant: string, device: string)

  datatype PayloadHash = PayloadHash(report: Report)

  /** sequence 0 and no latest report mark a head that was inserted but not yet updated. */
  datatype Head = Head(issuer: string, tenant: string, subject: string, sequence: int, latest: Option<Accepted>)

  datatype ReportKey = ReportKey(device: DeviceKey, reportId: string)

  datatype ReportRow = ReportRow(sequence: int, payloadHash: PayloadHash, receipt: Receipt)

  datatype JobKey = JobKey(issuer: string, tenant: string, organization: string, requestId: string)

  datatype JobRow = JobRow(
    requestHash: string, jobId: string, deviceId: string, kid: string, expiresAt: int, record: StoredJob, createdAt: int)

  datatype ResultRow = ResultRow(
    device: DeviceKey, reportId: string, sequence: int, result: JobResult, observedAt: Instant, receivedAt: int)

  datatype Db = Db(
    heads: map<DeviceKey, Head>, reports: map<ReportKey, ReportRow>, jobs: map<JobKey, JobRow>, results: map<string, ResultRow>)

  /** One accepted report: the identity that sent it, its content and the receipt it was given. */
  datatype Accepted = Accepted(identity: Identity, report: Report, receipt: Receipt)

  function DeviceOf(i: Identity): DeviceKey {
    DeviceKey(i.issuer, i.tenant, i.device)
  }

  /** report.status.job_results ?? [] */
  function ResultsIn(r: Report): seq<JobResult> {
    if r.jobResults.Some? then r.jobResults.value else []
  }

  /** The UNIQUE constraint on job_id. */
  ghost predicate UniqueJobIds(jobs: map<JobKey, JobRow>) {
    forall j, k | j in jobs && k in jobs && jobs[j].jobId == jobs[k].jobId :: j == k
  }

  /** SELECT record FROM jobs WHERE job_id = $1 AND issuer = $2 AND tenant = $3. */
  function FindJob(jobs: map<JobKey, JobRow>, jobId: string, issuer: string, tenant: string): (r: Option<StoredJob>)
    requires UniqueJobIds(jobs)
    ensures r.Some? ==> exists k | k in jobs :: jobs[k].jobId == jobId && k.issuer == issuer && k.tenant == tenant && jobs[k].record == r.value
    ensures r.None? ==> forall k | k in jobs && jobs[k].jobId == jobId :: k.issuer != issuer || k.tenant != tenant
  {
    if exists k | k in jobs :: jobs[k].jobId == jobId && k.issuer == issuer && k.tenant == tenant then
      var k :| k in jobs && jobs[k].jobId == jobId && k.issuer == issuer && k.tenant == tenant;
      Some(jobs[k].record)
    else None
  }
}
