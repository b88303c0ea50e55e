/**
 PostgresJobStore.issue. First the transaction as one step, then the same transaction split at every
 statement and run by any number of replicas: lock, read, build, insert, commit, with failure anywhere.
 */
module IssueProtocol {
  import opened Prelude
  import opened ManagementModel

  datatype IssueError = RequestConflict | RequestExpired | Failed

  /** Integer columns to_timestamp(exp): expiry in seconds, compared with the database clock in milliseconds. */
  predicate Live(row: JobRow, clock: int) {
    row.expiresAt * 1000 > clock
  }

  function RowOf(requestHash: string, record: StoredJob, createdAt: int): JobRow {
    JobRow(requestHash, record.job.jobId, record.job.deviceId, record.kid, record.job.exp, record, createdAt)
  }

  // ---------------------------------------------------------------- one uninterrupted transaction

  /** The answer to a request whose row is already committed. */
  function PriorAnswer(row: JobRow, requestHash: string, clock: int): Result<StoredJob, IssueError> {
    if row.requestHash != requestHash then Err(RequestConflict)
    else if !Live(row, clock) then Err(RequestExpired)
    else Ok(row.record)
  }

  function IssueAnswer(jobs: map<JobKey, JobRow>, k: JobKey, requestHash: string, clock: int, built: Option<StoredJob>)
    : Result<StoredJob, IssueError>
  {
    if k in jobs then PriorAnswer(jobs[k], requestHash, clock)
    else if built.None? || IdCommitted(jobs, built.value.job.jobId) then Err(Failed)
    else Ok(built.value)
  }

  /** The UNIQUE constraint on job_id refuses a second row with the same id. */
  predicate IdCommitted(jobs: map<JobKey, JobRow>, jobId: string) {
    exists k | k in jobs :: jobs[k].jobId == jobId
  }

  function IssueAfter(jobs: map<JobKey, JobRow>, k: JobKey, requestHash: string, clock: int, built: Option<StoredJob>)
    : map<JobKey, JobRow>
  {
    if k in jobs || built.None? || IdCommitted(jobs, built.value.job.jobId) then jobs
    else jobs[k := RowOf(requestHash, built.value, clock)]
  }

  /**
   What each answer means: a committed request yields its record exactly to its own hash while the row is unexpired, a
   new one yields what was built exactly if its job id is new, and then, and only then, one row is added, stamped now.
   */
  lemma IssueExactly(jobs: map<JobKey, JobRow>, k: JobKey, requestHash: string, clock: int, built: Option<StoredJob>)
    ensures var answer, after := IssueAnswer(jobs, k, requestHash, clock, built), IssueAfter(jobs, k, requestHash, clock, built);
      && (k in jobs ==>
            && after == jobs
            && (answer == Err(RequestConflict) <==> jobs[k].requestHash != requestHash)
            && (answer == Err(RequestExpired) <==> jobs[k].requestHash == requestHash && jobs[k].expiresAt * 1000 <= clock)
            && (answer == Ok(jobs[k].record) <==> jobs[k].requestHash == requestHash && clock < jobs[k].expiresAt * 1000))
      && (k !in jobs ==>
            var builds := built != None && forall other | other in jobs :: jobs[other].jobId != built.value.job.jobId;
            && answer == (if builds then Ok(built.value) else Err(Failed))
            && (!builds ==> after == jobs)
            && (builds ==> var record := built.value;
                  after == jobs[k := JobRow(requestHash, record.job.jobId, record.job.deviceId, record.kid, record.job.exp, record, clock)]))
  {}

  class JobStore {
    var jobs: map<JobKey, JobRow>

    /** `built` is what the build callback yields, None when it throws; it is read only when no row exists. */
    method Issue(k: JobKey, requestHash: string, clock: int, built: Option<StoredJob>) returns (r: Result<StoredJob, IssueError>)
      modifies this
      ensures r == IssueAnswer(old(jobs), k, requestHash, clock, built)
      ensures jobs == IssueAfter(old(jobs), k, requestHash, clock, built)
    {
      if k in jobs {
        var row := jobs[k];
        if row.requestHash != requestHash { return Err(RequestConflict); }
        if !Live(row, clock) { return Err(RequestExpired); }
        return Ok(row.record);
      }
      if built.None? || IdCommitted(jobs, built.value.job.jobId) { return Err(Failed); }
      jobs := jobs[k := RowOf(requestHash, built.value, clock)];
      return Ok(built.value);
    }
  }

  // ---------------------------------------------------------------- interleaved statements

  datatype Phase =
    | Waiting
    | Locked
    | Building
    | Built(record: StoredJob)
    | Inserted(row: JobRow)
    | Finished(answer: Result<StoredJob, IssueError>)

  /** `begun` is the database clock when the call began. */
  datatype Call = Call(key: JobKey, requestHash: string, phase: Phase, begun: int)

  /** `locks` maps an advisory lock number to the call that holds it; `clock` is the database clock. */
  datatype State = State(jobs: map<JobKey, JobRow>, locks: map<int, nat>, calls: map<nat, Call>, clock: int)

  datatype Action =
    | Begin(c: nat, key: JobKey, requestHash: string)
    | Lock(c: nat)
    | Read(c: nat)
    | Build(c: nat, record: StoredJob)
    | Insert(c: nat)
    | Commit(c: nat)
    | LoseCommit(c: nat)   // committed, but the answer never reaches the caller
    | Fail(c: nat)         // error, rollback or crash at any statement
    | Tick(now: int)

  /**
   `lockOf` is the truncated hash of a request key: any function, collisions included. `canBuild` is what the
   build callback may return for a key.
   */
  datatype Deployment = Deployment(lockOf: JobKey -> int, canBuild: (JobKey, StoredJob) -> bool)

  predicate HoldsLock(d: Deployment, s: State, c: nat) {
    c in s.calls && var l := d.lockOf(s.calls[c].key); l in s.locks && s.locks[l] == c
  }

  function Released(d: Deployment, s: State, c: nat): map<int, nat>
    requires c in s.calls
  {
    if HoldsLock(d, s, c) then s.locks - {d.lockOf(s.calls[c].key)} else s.locks
  }

  function Moved(s: State, c: nat, phase: Phase): map<nat, Call>
    requires c in s.calls
  {
    s.calls[c := s.calls[c].(phase := phase)]
  }

  /** The call ends with an answer and its transaction releases its lock. */
  function Ended(d: Deployment, s: State, c: nat, answer: Result<StoredJob, IssueError>): State
    requires c in s.calls
  {
    s.(locks := Released(d, s, c), calls := Moved(s, c, Finished(answer)))
  }

  predicate JobIdTaken(s: State, jobId: string) {
    || IdCommitted(s.jobs, jobId)
    || (exists c | c in s.calls :: s.calls[c].phase.Inserted? && s.calls[c].phase.row.jobId == jobId)
  }

  predicate Enabled(d: Deployment, s: State, a: Action) {
    match a
    case Begin(c, _, _) => c !in s.calls
    case Lock(c) => c in s.calls && s.calls[c].phase.Waiting? && d.lockOf(s.calls[c].key) !in s.locks
    case Read(c) => c in s.calls && s.calls[c].phase.Locked?
    case Build(c, record) => c in s.calls && s.calls[c].phase.Building? && d.canBuild(s.calls[c].key, record)
    case Insert(c) => c in s.calls && s.calls[c].phase.Built? && !JobIdTaken(s, s.calls[c].phase.record.job.jobId)
    case Commit(c) => c in s.calls && s.calls[c].phase.Inserted?
    case LoseCommit(c) => c in s.calls && s.calls[c].phase.Inserted?
    case Fail(c) => c in s.calls && !s.calls[c].phase.Finished?
    case Tick(now) => s.clock <= now
  }

  function Step(d: Deployment, s: State, a: Action): State
    requires Enabled(d, s, a)
  {
    match a
    case Begin(c, key, hash) => s.(calls := s.calls[c := Call(key, hash, Waiting, s.clock)])
    case Lock(c) => s.(locks := s.locks[d.lockOf(s.calls[c].key) := c], calls := Moved(s, c, Locked))
    case Read(c) =>
      var call := s.calls[c];
      if call.key in s.jobs then Ended(d, s, c, PriorAnswer(s.jobs[call.key], call.requestHash, s.clock))
      else s.(calls := Moved(s, c, Building))
    case Build(c, record) => s.(calls := Moved(s, c, Built(record)))
    case Insert(c) =>
      // A row committed under the same key would make the INSERT fail.
      if s.calls[c].key in s.jobs then Ended(d, s, c, Err(Failed))
      else s.(calls := Moved(s, c, Inserted(RowOf(s.calls[c].requestHash, s.calls[c].phase.record, s.clock))))
    case Commit(c) =>
      var row := s.calls[c].phase.row;
      Ended(d, s, c, Ok(row.record)).(jobs := s.jobs[s.calls[c].key := row])
    case LoseCommit(c) =>
      Ended(d, s, c, Err(Failed)).(jobs := s.jobs[s.calls[c].key := s.calls[c].phase.row])
    case Fail(c) => Ended(d, s, c, Err(Failed))
    case Tick(now) => s.(clock := now)
  }

  ghost predicate Steps(d: Deployment, s: State, a: Action, s': State) {
    Enabled(d, s, a) && s' == Step(d, s, a)
  }

  ghost predicate Run(d: Deployment, states: seq<State>, actions: seq<Action>) {
    && |states| == |actions| + 1
    && forall i | 0 <= i < |actions| :: Steps(d, states[i], actions[i], states[i + 1])
  }

  predicate Active(p: Phase) {
    p.Locked? || p.Building? || p.Built? || p.Inserted?
  }

  /** A row a call has inserted or committed belongs to its own request and is what its build returned. */
  predicate RowBelongs(d: Deployment, k: JobKey, requestHash: string, row: JobRow) {
    row == RowOf(requestHash, row.record, row.createdAt) && d.canBuild(k, row.record)
  }

  /** A lock number in use belongs to a call at work on a key of that number, and every call at work holds its lock. */
  ghost predicate LocksAgree(d: Deployment, s: State) {
    && (forall l | l in s.locks ::
          s.locks[l] in s.calls && Active(s.calls[s.locks[l]].phase) && d.lockOf(s.calls[s.locks[l]].key) == l)
    && (forall c | c in s.calls && Active(s.calls[c].phase) :: HoldsLock(d, s, c))
  }

  predicate PastRead(p: Phase) {
    p.Building? || p.Built? || p.Inserted?
  }

  /** A call that found no row is right until it ends: nobody else can commit its key meanwhile. */
  ghost predicate KeysFree(s: State) {
    forall c | c in s.calls && PastRead(s.calls[c].phase) :: s.calls[c].key !in s.jobs
  }

  /** Rows, committed or pending, are what the build callback returned for their own request. */
  ghost predicate RowsBelong(d: Deployment, s: State) {
    && (forall c | c in s.calls && s.calls[c].phase.Built? :: d.canBuild(s.calls[c].key, s.calls[c].phase.record))
    && (forall c | c in s.calls && s.calls[c].phase.Inserted? ::
          RowBelongs(d, s.calls[c].key, s.calls[c].requestHash, s.calls[c].phase.row))
    && (forall k | k in s.jobs :: RowBelongs(d, k, s.jobs[k].requestHash, s.jobs[k]))
  }

  /** A successful call returned the committed row of its key, and that row carries its own request hash. */
  ghost predicate AnswersAgree(s: State) {
    forall c | c in s.calls && Succeeded(s.calls[c]) :: AnswerAgrees(s.jobs, s.calls[c])
  }

  predicate AnswerAgrees(jobs: map<JobKey, JobRow>, call: Call)
    requires Succeeded(call)
  {
    call.key in jobs && jobs[call.key].record == call.phase.answer.value && jobs[call.key].requestHash == call.requestHash
  }

  /** job_id is unique over committed and pending rows together. */
  ghost predicate IdsUnique(s: State) {
    && UniqueJobIds(s.jobs)
    && (forall c, k | c in s.calls && s.calls[c].phase.Inserted? && k in s.jobs :: s.jobs[k].jobId != s.calls[c].phase.row.jobId)
    && (forall c, e | c in s.calls && e in s.calls && c != e && s.calls[c].phase.Inserted? && s.calls[e].phase.Inserted? ::
          s.calls[c].phase.row.jobId != s.calls[e].phase.row.jobId)
  }

  /** A pending row was stamped by the database clock during its own call. */
  ghost predicate StampsWithin(s: State) {
    && (forall c | c in s.calls :: s.calls[c].begun <= s.clock)
    && (forall c | c in s.calls && s.calls[c].phase.Inserted? :: s.calls[c].begun <= s.calls[c].phase.row.createdAt <= s.clock)
  }

  ghost predicate Invariant(d: Deployment, s: State) {
    LocksAgree(d, s) && KeysFree(s) && RowsBelong(d, s) && AnswersAgree(s) && IdsUnique(s) && StampsWithin(s)
  }

  predicate Succeeded(call: Call) {
    call.phase.Finished? && call.phase.answer.Ok?
  }

  ghost predicate Initial(s: State) {
    s.jobs == map[] && s.locks == map[] && s.calls == map[]
  }

  /** Two calls at work never share a lock number, hence never a key. */
  lemma ActiveKeysDiffer(d: Deployment, s: State, c: nat, e: nat)
    requires LocksAgree(d, s) && c in s.calls && e in s.calls && c != e
    requires Active(s.calls[c].phase) && Active(s.calls[e].phase)
    ensures s.calls[c].key != s.calls[e].key
  {
    assert HoldsLock(d, s, c) && HoldsLock(d, s, e);
  }

  lemma LocksKept(d: Deployment, s: State, a: Action)
    requires LocksAgree(d, s) && Enabled(d, s, a)
    ensures LocksAgree(d, Step(d, s, a))
  {
    if a.Lock? {
      LockKept(d, s, a.c);
    } else if !a.Begin? && !a.Tick? {
      var s' := Step(d, s, a);
      if s'.calls[a.c].phase.Finished? { EndKeepsLocks(d, s, a.c, s'.calls[a.c].phase.answer); }
    }
  }

  lemma LockKept(d: Deployment, s: State, c: nat)
    requires LocksAgree(d, s) && Enabled(d, s, Lock(c))
    ensures LocksAgree(d, Step(d, s, Lock(c)))
  {
    var s' := Step(d, s, Lock(c));
    forall e | e in s'.calls && Active(s'.calls[e].phase) ensures HoldsLock(d, s', e) {
      if e != c { assert HoldsLock(d, s, e); }
    }
  }

  lemma EndKeepsLocks(d: Deployment, s: State, c: nat, answer: Result<StoredJob, IssueError>)
    requires LocksAgree(d, s) && c in s.calls
    ensures LocksAgree(d, Ended(d, s, c, answer))
  {
    var s' := Ended(d, s, c, answer);
    forall e | e in s'.calls && Active(s'.calls[e].phase) ensures HoldsLock(d, s', e) {
      assert HoldsLock(d, s, e);
    }
    forall l | l in s'.locks
      ensures s'.locks[l] in s'.calls && Active(s'.calls[s'.locks[l]].phase) && d.lockOf(s'.calls[s'.locks[l]].key) == l
    {
      assert d.lockOf(s.calls[s.locks[l]].key) == l;
    }
  }

  lemma KeysStayFree(d: Deployment, s: State, a: Action)
    requires LocksAgree(d, s) && KeysFree(s) && Enabled(d, s, a)
    ensures KeysFree(Step(d, s, a))
  {
    var s' := Step(d, s, a);
    forall e | e in s'.calls && PastRead(s'.calls[e].phase) ensures s'.calls[e].key !in s'.jobs {
      if a.Commit? || a.LoseCommit? {
        ActiveKeysDiffer(d, s, a.c, e);
      }
    }
  }

  lemma PendingRowsStayTrue(d: Deployment, s: State, a: Action)
    requires RowsBelong(d, s) && Enabled(d, s, a)
    ensures var calls := Step(d, s, a).calls;
      && (forall c | c in calls && calls[c].phase.Built? :: d.canBuild(calls[c].key, calls[c].phase.record))
      && (forall c | c in calls && calls[c].phase.Inserted? :: RowBelongs(d, calls[c].key, calls[c].requestHash, calls[c].phase.row))
  {}

  lemma CommittedRowsStayTrue(d: Deployment, s: State, a: Action)
    requires RowsBelong(d, s) && Enabled(d, s, a)
    ensures forall k | k in Step(d, s, a).jobs :: RowBelongs(d, k, Step(d, s, a).jobs[k].requestHash, Step(d, s, a).jobs[k])
  {
    if a.Commit? || a.LoseCommit? {
      assert RowBelongs(d, s.calls[a.c].key, s.calls[a.c].requestHash, s.calls[a.c].phase.row);
    } else {
      assert Step(d, s, a).jobs == s.jobs;
    }
  }

  lemma RowsStayTrue(d: Deployment, s: State, a: Action)
    requires RowsBelong(d, s) && Enabled(d, s, a)
    ensures RowsBelong(d, Step(d, s, a))
  {
    PendingRowsStayTrue(d, s, a);
    CommittedRowsStayTrue(d, s, a);
  }

  lemma AnswersStayTrue(d: Deployment, s: State, a: Action)
    requires KeysFree(s) && RowsBelong(d, s) && AnswersAgree(s) && Enabled(d, s, a)
    ensures AnswersAgree(Step(d, s, a))
  {
    var s' := Step(d, s, a);
    forall c | c in s'.calls && Succeeded(s'.calls[c]) ensures AnswerAgrees(s'.jobs, s'.calls[c]) {
      if c in s.calls && Succeeded(s.calls[c]) { assert AnswerAgrees(s.jobs, s.calls[c]); }
    }
  }

  lemma CommitKeepsIds(d: Deployment, s: State, c: nat, s': State)
    requires IdsUnique(s) && c in s.calls && s.calls[c].phase.Inserted?
    requires s'.jobs == s.jobs[s.calls[c].key := s.calls[c].phase.row]
    requires c in s'.calls && !s'.calls[c].phase.Inserted?
    requires forall e | e in s'.calls && e != c :: e in s.calls && s'.calls[e] == s.calls[e]
    ensures IdsUnique(s')
  {}

  lemma IdsStayUnique(d: Deployment, s: State, a: Action)
    requires IdsUnique(s) && Enabled(d, s, a)
    ensures IdsUnique(Step(d, s, a))
  {
    if a.Commit? || a.LoseCommit? {
      CommitKeepsIds(d, s, a.c, Step(d, s, a));
    }
  }

  lemma StampsStayWithin(d: Deployment, s: State, a: Action)
    requires StampsWithin(s) && Enabled(d, s, a)
    ensures StampsWithin(Step(d, s, a))
  {}

  /** Every statement of every replica keeps the invariant. */
  lemma StepKeepsInvariant(d: Deployment, s: State, a: Action)
    requires Invariant(d, s) && Enabled(d, s, a)
    ensures Invariant(d, Step(d, s, a))
  {
    LocksKept(d, s, a);
    KeysStayFree(d, s, a);
    RowsStayTrue(d, s, a);
    AnswersStayTrue(d, s, a);
    IdsStayUnique(d, s, a);
    StampsStayWithin(d, s, a);
  }

  lemma {:induction false} RunKeepsInvariant(d: Deployment, states: seq<State>, actions: seq<Action>, n: nat)
    requires Run(d, states, actions) && Invariant(d, states[0]) && n < |states|
    ensures Invariant(d, states[n])
  {
    if n > 0 {
      RunKeepsInvariant(d, states, actions, n - 1);
      assert Steps(d, states[n - 1], actions[n - 1], states[n - 1 + 1]);
      StepKeepsInvariant(d, states[n - 1], actions[n - 1]);
    }
  }

  lemma KeysAlwaysFree(d: Deployment, states: seq<State>, actions: seq<Action>, n: nat)
    requires Run(d, states, actions) && Invariant(d, states[0]) && n < |states|
    ensures KeysFree(states[n])
  {
    RunKeepsInvariant(d, states, actions, n);
  }

  // ---------------------------------------------------------------- what every interleaving guarantees

  ghost predicate JobsKept(jobs: map<JobKey, JobRow>, later: map<JobKey, JobRow>) {
    forall k | k in jobs :: k in later && later[k] == jobs[k]
  }

  /** A statement commits at most one row, under a key that had none: committed rows never change or vanish. */
  lemma CommittedRowsStay(d: Deployment, s: State, a: Action)
    requires KeysFree(s) && Enabled(d, s, a)
    ensures JobsKept(s.jobs, Step(d, s, a).jobs)
  {}

  lemma StepKeepsJobs(d: Deployment, s: State, a: Action, s': State)
    requires KeysFree(s) && Steps(d, s, a, s')
    ensures JobsKept(s.jobs, s'.jobs)
  {
    CommittedRowsStay(d, s, a);
  }

  lemma {:induction false} RowsStayOverRun(d: Deployment, states: seq<State>, actions: seq<Action>, m: nat, n: nat)
    requires Run(d, states, actions) && Invariant(d, states[0]) && m <= n < |states|
    ensures JobsKept(states[m].jobs, states[n].jobs)
  {
    if m < n {
      RowsStayOverRun(d, states, actions, m, n - 1);
      KeysAlwaysFree(d, states, actions, n - 1);
      StepKeepsJobs(d, states[n - 1], actions[n - 1], states[n - 1 + 1]);
    }
  }

  ghost predicate Answered(s: State, c: nat, call: Call) {
    c in s.calls && s.calls[c] == call && call.phase.Finished?
  }

  lemma StepKeepsAnswer(d: Deployment, s: State, a: Action, s': State, c: nat, call: Call)
    requires Answered(s, c, call) && Steps(d, s, a, s')
    ensures Answered(s', c, call)
  {}

  lemma {:induction false} AnswersStayOverRun(d: Deployment, states: seq<State>, actions: seq<Action>, m: nat, n: nat, c: nat, call: Call)
    requires Run(d, states, actions) && m <= n < |states| && Answered(states[m], c, call)
    ensures Answered(states[n], c, call)
  {
    if m < n {
      AnswersStayOverRun(d, states, actions, m, n - 1, c, call);
      StepKeepsAnswer(d, states[n - 1], actions[n - 1], states[n - 1 + 1], c, call);
    }
  }

  /**
   In any run of any number of replicas, all successful calls for one request return one record, made for one
   request hash; a call with another hash never succeeds.
   */
  lemma OneRecordPerRequest(d: Deployment, states: seq<State>, actions: seq<Action>, m: nat, n: nat, c: nat, e: nat)
    requires Run(d, states, actions) && Invariant(d, states[0]) && m < |states| && n < |states|
    requires c in states[m].calls && Succeeded(states[m].calls[c])
    requires e in states[n].calls && Succeeded(states[n].calls[e])
    requires states[m].calls[c].key == states[n].calls[e].key
    ensures states[m].calls[c].phase.answer == states[n].calls[e].phase.answer
    ensures states[m].calls[c].requestHash == states[n].calls[e].requestHash
  {
    var last := if m <= n then n else m;
    AnswersStayOverRun(d, states, actions, m, last, c, states[m].calls[c]);
    AnswersStayOverRun(d, states, actions, n, last, e, states[n].calls[e]);
    RunKeepsInvariant(d, states, actions, last);
    assert AnswerAgrees(states[last].jobs, states[last].calls[c]) && AnswerAgrees(states[last].jobs, states[last].calls[e]);
  }

  /** The call's request has a committed row it may not have: expired, or of another request hash. */
  predicate Refused(jobs: map<JobKey, JobRow>, clock: int, call: Call) {
    call.key in jobs && (jobs[call.key].requestHash != call.requestHash || !Live(jobs[call.key], clock))
  }

  predicate Unsuccessful(p: Phase) {
    p.Waiting? || p.Locked? || (p.Finished? && p.answer.Err?)
  }

  /** The request has a committed row, and the call either has not read yet or ended without success. */
  ghost predicate Hopeless(s: State, c: nat) {
    c in s.calls && Refused(s.jobs, s.clock, s.calls[c]) && Unsuccessful(s.calls[c].phase)
  }

  lemma StaysUnsuccessful(d: Deployment, s: State, a: Action, s': State, c: nat)
    requires Steps(d, s, a, s') && Hopeless(s, c)
    ensures s.clock <= s'.clock && c in s'.calls
    ensures s'.calls[c].key == s.calls[c].key && s'.calls[c].requestHash == s.calls[c].requestHash
    ensures Unsuccessful(s'.calls[c].phase)
  {}

  lemma StaysHopeless(d: Deployment, s: State, a: Action, s': State, c: nat)
    requires KeysFree(s) && Steps(d, s, a, s') && Hopeless(s, c)
    ensures Hopeless(s', c)
  {
    StepKeepsJobs(d, s, a, s');
    StaysUnsuccessful(d, s, a, s', c);
  }

  /**
   Once a request is expired, or holds another request hash, a call that has not read it yet never succeeds
   and never builds: nothing is signed again, however the replicas interleave.
   */
  lemma {:induction false} ExpiredNeverSucceeds(d: Deployment, states: seq<State>, actions: seq<Action>, m: nat, n: nat, c: nat)
    requires Run(d, states, actions) && Invariant(d, states[0]) && m <= n < |states| && Hopeless(states[m], c)
    ensures Hopeless(states[n], c) && !Succeeded(states[n].calls[c]) && !PastRead(states[n].calls[c].phase)
  {
    if m < n {
      ExpiredNeverSucceeds(d, states, actions, m, n - 1, c);
      KeysAlwaysFree(d, states, actions, n - 1);
      StaysHopeless(d, states[n - 1], actions[n - 1], states[n - 1 + 1], c);
    }
  }

  /** The columns of every committed row are those of its own record. */
  lemma RowsMirrorRecords(d: Deployment, s: State, k: JobKey)
    requires Invariant(d, s) && k in s.jobs
    ensures var row, job := s.jobs[k], s.jobs[k].record.job;
      && row.jobId == job.jobId && row.deviceId == job.deviceId && row.kid == row.record.kid && row.expiresAt == job.exp
      && d.canBuild(k, row.record)
  {
    assert RowBelongs(d, k, s.jobs[k].requestHash, s.jobs[k]);
  }

  /** The request's row is committed and out of date. */
  predicate ExpiredRow(s: State, k: JobKey) {
    k in s.jobs && !Live(s.jobs[k], s.clock)
  }

  lemma ExpiredRowStays(d: Deployment, s: State, a: Action, s': State, k: JobKey)
    requires KeysFree(s) && Steps(d, s, a, s') && ExpiredRow(s, k)
    ensures ExpiredRow(s', k)
  {
    CommittedRowsStay(d, s, a);
  }

  predicate SucceededOn(s: State, k: JobKey, c: nat) {
    c in s.calls && s.calls[c].key == k && Succeeded(s.calls[c])
  }

  lemma ExpiredRowRefuses(d: Deployment, s: State, a: Action, s': State, k: JobKey, c: nat)
    requires KeysFree(s) && Steps(d, s, a, s') && ExpiredRow(s, k) && SucceededOn(s', k, c)
    ensures SucceededOn(s, k, c) && s.calls[c] == s'.calls[c]
  {}

  lemma {:induction false} ExpiredStays(d: Deployment, states: seq<State>, actions: seq<Action>, m: nat, n: nat, k: JobKey)
    requires Run(d, states, actions) && Invariant(d, states[0]) && m <= n < |states| && ExpiredRow(states[m], k)
    ensures ExpiredRow(states[n], k)
  {
    if m < n {
      ExpiredStays(d, states, actions, m, n - 1, k);
      KeysAlwaysFree(d, states, actions, n - 1);
      ExpiredRowStays(d, states[n - 1], actions[n - 1], states[n - 1 + 1], k);
    }
  }

  /** Once a request's row has expired nobody succeeds any more: any successful call, begun whenever, had succeeded before. */
  lemma {:induction false} ExpiredForGood(d: Deployment, states: seq<State>, actions: seq<Action>, m: nat, n: nat, k: JobKey, c: nat)
    requires Run(d, states, actions) && Invariant(d, states[0]) && m <= n < |states|
    requires ExpiredRow(states[m], k) && SucceededOn(states[n], k, c)
    ensures SucceededOn(states[m], k, c) && states[m].calls[c] == states[n].calls[c]
  {
    if m < n {
      ExpiredStays(d, states, actions, m, n - 1, k);
      KeysAlwaysFree(d, states, actions, n - 1);
      ExpiredRowRefuses(d, states[n - 1], actions[n - 1], states[n - 1 + 1], k, c);
      ExpiredForGood(d, states, actions, m, n - 1, k, c);
    }
  }

  /** No call builds a record for a request that has a committed row. */
  lemma NeverBuildsCommitted(d: Deployment, s: State, c: nat, record: StoredJob)
    requires Invariant(d, s) && Enabled(d, s, Build(c, record))
    ensures s.calls[c].key !in s.jobs
  {}

  /** No committed row appears and no call succeeds. */
  ghost predicate Invisible(s: State, s': State) {
    && s'.jobs == s.jobs
    && forall c | c in s'.calls && Succeeded(s'.calls[c]) :: c in s.calls && s.calls[c] == s'.calls[c]
  }

  /** Call c runs its whole transaction at one instant of its own lifetime; a lost answer reads as a failure. */
  ghost predicate RunsAtOnce(s: State, s': State, c: nat, clock: int, built: Option<StoredJob>, lost: bool) {
    && c in s.calls && s.calls[c].begun <= clock <= s.clock && c in s'.calls && !s.calls[c].phase.Finished? && s'.calls[c].phase.Finished?
    && var call := s.calls[c];
       && s'.jobs == IssueAfter(s.jobs, call.key, call.requestHash, clock, built)
       && s'.calls[c].phase.answer == (if lost then Err(Failed) else IssueAnswer(s.jobs, call.key, call.requestHash, clock, built))
       && forall e | e in s.calls && e != c :: e in s'.calls && s'.calls[e] == s.calls[e]
  }

  /** The statement is invisible or a whole transaction of one call. */
  ghost predicate Refines(s: State, s': State, lost: bool) {
    Invisible(s, s') || exists c, clock, built :: RunsAtOnce(s, s', c, clock, built, lost)
  }

  /** The two statements that end a call do so in full: a read that finds the row, and a commit. */
  lemma EndingsExactly(d: Deployment, s: State, c: nat)
    requires c in s.calls
    ensures Enabled(d, s, Read(c)) && s.calls[c].key in s.jobs ==>
      Step(d, s, Read(c)).calls[c].phase == Finished(IssueAnswer(s.jobs, s.calls[c].key, s.calls[c].requestHash, s.clock, None))
    ensures Enabled(d, s, Commit(c)) ==>
      var row, after := s.calls[c].phase.row, Step(d, s, Commit(c));
      after.calls[c].phase == Finished(Ok(row.record)) && after.jobs == s.jobs[s.calls[c].key := row]
  {}

  /** The transaction of a new request, statement by statement. */
  function Transaction(c: nat, key: JobKey, requestHash: string, record: StoredJob): seq<Action> {
    [Begin(c, key, requestHash), Lock(c), Read(c), Build(c, record), Insert(c), Commit(c)]
  }

  /** The transaction of a repeated request. */
  function Repetition(c: nat, key: JobKey, requestHash: string): seq<Action> {
    [Begin(c, key, requestHash), Lock(c), Read(c)]
  }

  lemma LockedCall(d: Deployment, states: seq<State>, actions: seq<Action>, c: nat, key: JobKey, requestHash: string)
    requires Run(d, states, actions) && |actions| >= 2 && actions[0] == Begin(c, key, requestHash) && actions[1] == Lock(c)
    ensures states[2].jobs == states[0].jobs && states[2].clock == states[0].clock && c in states[2].calls
    ensures states[2].calls[c] == Call(key, requestHash, Locked, states[0].clock)
    ensures forall e | e in states[0].calls :: e in states[2].calls && (e != c ==> states[2].calls[e] == states[0].calls[e])
  {
    assert Steps(d, states[0], actions[0], states[1]) && Steps(d, states[1], actions[1], states[2]);
  }

  lemma BuiltCall(d: Deployment, states: seq<State>, actions: seq<Action>, c: nat, key: JobKey, requestHash: string, record: StoredJob)
    requires Run(d, states, actions) && actions == Transaction(c, key, requestHash, record) && key !in states[0].jobs
    ensures states[4].jobs == states[0].jobs && states[4].clock == states[0].clock && c in states[4].calls
    ensures states[4].calls[c] == Call(key, requestHash, Built(record), states[0].clock)
  {
    LockedCall(d, states, actions, c, key, requestHash);
    assert Steps(d, states[2], actions[2], states[3]) && Steps(d, states[3], actions[3], states[4]);
  }

  /** A new request that finds its lock free, its key unused and its job id new can run its whole transaction. */
  lemma TransactionRuns(d: Deployment, s: State, c: nat, key: JobKey, requestHash: string, record: StoredJob) returns (states: seq<State>)
    requires c !in s.calls && d.lockOf(key) !in s.locks && key !in s.jobs
    requires d.canBuild(key, record) && !JobIdTaken(s, record.job.jobId)
    ensures Run(d, states, Transaction(c, key, requestHash, record)) && states[0] == s
  {
    var begun := Step(d, s, Begin(c, key, requestHash));
    var locked := Step(d, begun, Lock(c));
    var building := Step(d, locked, Read(c));
    var built := Step(d, building, Build(c, record));
    var inserted := Step(d, built, Insert(c));
    states := [s, begun, locked, building, built, inserted, Step(d, inserted, Commit(c))];
  }

  /** A repeated request that finds its lock free can run to its answer. */
  lemma RepetitionRuns(d: Deployment, s: State, c: nat, key: JobKey, requestHash: string) returns (states: seq<State>)
    requires c !in s.calls && d.lockOf(key) !in s.locks && key in s.jobs
    ensures Run(d, states, Repetition(c, key, requestHash)) && states[0] == s
  {
    var begun := Step(d, s, Begin(c, key, requestHash));
    var locked := Step(d, begun, Lock(c));
    states := [s, begun, locked, Step(d, locked, Read(c))];
  }

  /** Run back to back, the statements of a call are its uninterrupted transaction: the machine and the transaction agree both ways. */
  lemma StatementsMakeTransaction(d: Deployment, states: seq<State>, actions: seq<Action>, c: nat, key: JobKey, requestHash: string,
                                  record: StoredJob)
    requires Run(d, states, actions)
    requires actions == if key in states[0].jobs then Repetition(c, key, requestHash) else Transaction(c, key, requestHash, record)
    ensures var last, before := states[|actions|], states[0];
      && last.jobs == IssueAfter(before.jobs, key, requestHash, before.clock, Some(record)) && c in last.calls
      && last.calls[c] == Call(key, requestHash, Finished(IssueAnswer(before.jobs, key, requestHash, before.clock, Some(record))), before.clock)
  {
    if key in states[0].jobs {
      LockedCall(d, states, actions, c, key, requestHash);
      assert Steps(d, states[2], actions[2], states[3]);
    } else {
      BuiltCall(d, states, actions, c, key, requestHash, record);
      assert Steps(d, states[4], actions[4], states[5]) && Steps(d, states[5], actions[5], states[6]);
    }
  }

  lemma ReadRefines(d: Deployment, s: State, c: nat)
    requires StampsWithin(s) && Enabled(d, s, Read(c))
    ensures Refines(s, Step(d, s, Read(c)), false)
  {
    if s.calls[c].key in s.jobs { assert RunsAtOnce(s, Step(d, s, Read(c)), c, s.clock, None, false); }
  }

  lemma CommitRefines(d: Deployment, s: State, a: Action, c: nat)
    requires KeysFree(s) && RowsBelong(d, s) && IdsUnique(s) && StampsWithin(s)
    requires (a == Commit(c) || a == LoseCommit(c)) && Enabled(d, s, a)
    ensures Refines(s, Step(d, s, a), a.LoseCommit?)
  {
    var row := s.calls[c].phase.row;
    assert !IdCommitted(s.jobs, row.record.job.jobId);
    assert RunsAtOnce(s, Step(d, s, a), c, row.createdAt, Some(row.record), a.LoseCommit?);
  }

  lemma OthersInvisible(d: Deployment, s: State, a: Action)
    requires Enabled(d, s, a) && !a.Read? && !a.Commit? && !a.LoseCommit?
    ensures Invisible(s, Step(d, s, a))
  {}

  /**
   Refinement: seen through committed rows and successful answers, every statement is either invisible or the
   uninterrupted transaction of its call, with its answer, at an instant between the call's beginning and now; only a
   lost commit answer reads as a failure.
   */
  lemma StepRefinesIssue(d: Deployment, s: State, a: Action)
    requires Invariant(d, s) && Enabled(d, s, a)
    ensures Refines(s, Step(d, s, a), a.LoseCommit?)
  {
    match a
    case Read(c) => ReadRefines(d, s, c);
    case Commit(c) => CommitRefines(d, s, a, c);
    case LoseCommit(c) => CommitRefines(d, s, a, c);
    case _ => OthersInvisible(d, s, a);
  }
}
