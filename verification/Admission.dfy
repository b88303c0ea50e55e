/** Admission of verified jobs by a caller that stores intent and state with one compare-and-swap. */
module Admission {
  import opened Prelude
  import opened JobContract
  import opened JobSize

  /** What the caller stores: the digest of every recorded job, and the state of every resource. */
  datatype Ledger = Ledger(recorded: map<string, string>, states: map<string, ResourceState>)

  /**
   An attempt plans on what it read earlier, at any earlier moment of the run, the prior and the state
   separately; `status` is the resource status its effect leaves. Advance is any other writer.
   */
  datatype Event =
    | Attempt(v: VerifiedJob, id: string, now: int, priorSeen: nat, stateSeen: nat, status: Status)
    | Advance(id: string, to: ResourceState)

  function PriorOf(l: Ledger, jobId: string): Option<PriorJob> {
    if jobId in l.recorded then Some(PriorJob(jobId, l.recorded[jobId])) else None
  }

  predicate Readable(history: seq<Ledger>, n: nat, e: Event)
    requires n < |history|
  {
    e.Attempt? && e.priorSeen <= n && e.stateSeen <= n && e.id in history[e.stateSeen].states
  }

  /** The planner's answer on what the attempt read. */
  function Decision(history: seq<Ledger>, n: nat, e: Event): Result<Admission, JobError>
    requires n < |history| && Readable(history, n, e)
  {
    Plan(e.v, history[e.stateSeen].states[e.id], e.now, PriorOf(history[e.priorSeen], e.v.job.jobId))
  }

  /** The compare-and-swap: the intent is new and the resource still has the version the planner saw. */
  predicate Swaps(l: Ledger, id: string, d: Admission) {
    d.PrepareRevoke? && d.jobId !in l.recorded && id in l.states && l.states[id].stateVersion == d.expectedStateVersion
  }

  function Persist(l: Ledger, id: string, d: Admission, status: Status): Ledger
    requires Swaps(l, id, d)
  {
    Ledger(l.recorded[d.jobId := d.digest], l.states[id := l.states[id].(stateVersion := d.nextStateVersion, status := status)])
  }

  predicate Granted(history: seq<Ledger>, n: nat, e: Event)
    requires n < |history|
  {
    && Readable(history, n, e)
    && Decision(history, n, e).Ok? && Swaps(history[n], e.id, Decision(history, n, e).value)
  }

  /** Every writer moves the version: a state that changed never has its old version again. */
  predicate CanHappen(history: seq<Ledger>, n: nat, e: Event)
    requires n < |history|
  {
    match e
    case Attempt(_, _, _, _, _, _) => Readable(history, n, e)
    case Advance(id, to) => id in history[n].states ==> history[n].states[id].stateVersion < to.stateVersion
  }

  function Next(history: seq<Ledger>, n: nat, e: Event): Ledger
    requires n < |history| && CanHappen(history, n, e)
  {
    match e
    case Advance(id, to) => history[n].(states := history[n].states[id := to])
    case Attempt(_, id, _, _, _, status) =>
      if Granted(history, n, e) then Persist(history[n], id, Decision(history, n, e).value, status) else history[n]
  }

  ghost predicate History(history: seq<Ledger>, events: seq<Event>) {
    && |history| == |events| + 1
    && forall n | 0 <= n < |events| :: CanHappen(history, n, events[n]) && history[n + 1] == Next(history, n, events[n])
  }

  function Version(l: Ledger, id: string): int
    requires id in l.states
  {
    l.states[id].stateVersion
  }

  lemma PlanPrepares(v: VerifiedJob, current: ResourceState, now: int, prior: Option<PriorJob>)
    requires Plan(v, current, now, prior).Ok? && Plan(v, current, now, prior).value.PrepareRevoke?
    ensures var d := Plan(v, current, now, prior).value;
      && prior.None? && d.jobId == v.job.jobId && d.digest == v.digest && current.stateVersion == d.expectedStateVersion
      && d.nextStateVersion == d.expectedStateVersion + 1 <= MAX_SAFE
  {}

  lemma {:induction false} RecordedStays(history: seq<Ledger>, events: seq<Event>, m: nat, n: nat, j: string)
    requires History(history, events) && m <= n < |history| && j in history[m].recorded
    ensures j in history[n].recorded && history[n].recorded[j] == history[m].recorded[j]
  {
    if m < n {
      RecordedStays(history, events, m, n - 1, j);
      assert history[n - 1 + 1] == Next(history, n - 1, events[n - 1]);
    }
  }

  lemma StepMovesVersion(history: seq<Ledger>, events: seq<Event>, n: nat, id: string)
    requires History(history, events) && n < |events| && id in history[n].states
    ensures id in history[n + 1].states
    ensures history[n + 1].states[id] == history[n].states[id] || Version(history[n], id) < Version(history[n + 1], id)
  {
    var e := events[n];
    if Granted(history, n, e) { PlanPrepares(e.v, history[e.stateSeen].states[e.id], e.now, PriorOf(history[e.priorSeen], e.v.job.jobId)); }
  }

  /** Versions never go back, and an unchanged version means an unchanged state. */
  lemma {:induction false} VersionsAdvance(history: seq<Ledger>, events: seq<Event>, m: nat, n: nat, id: string)
    requires History(history, events) && m <= n < |history| && id in history[m].states
    ensures id in history[n].states
    ensures history[n].states[id] == history[m].states[id] || Version(history[m], id) < Version(history[n], id)
  {
    if m < n {
      VersionsAdvance(history, events, m, n - 1, id);
      StepMovesVersion(history, events, n - 1, id);
    }
  }

  /** A granted attempt, however old its reads, decides what planning on the current ledger would decide. */
  lemma OptimisticIsAtomic(history: seq<Ledger>, events: seq<Event>, n: nat)
    requires History(history, events) && n < |events| && Granted(history, n, events[n])
    ensures var e := events[n];
      && e.id in history[n].states
      && Plan(e.v, history[n].states[e.id], e.now, PriorOf(history[n], e.v.job.jobId)) == Decision(history, n, e)
  {
    var e := events[n];
    PlanPrepares(e.v, history[e.stateSeen].states[e.id], e.now, PriorOf(history[e.priorSeen], e.v.job.jobId));
    VersionsAdvance(history, events, e.stateSeen, n, e.id);
  }

  /** A grant moves the version of its resource by exactly one, never past 2^53 - 1, and records its digest. */
  lemma GrantAdvances(history: seq<Ledger>, events: seq<Event>, n: nat)
    requires History(history, events) && n < |events| && Granted(history, n, events[n])
    ensures var e := events[n];
      && e.id in history[n].states && e.id in history[n + 1].states
      && Version(history[n], e.id) == e.v.job.expectedStateVersion
      && Version(history[n + 1], e.id) == Version(history[n], e.id) + 1 <= MAX_SAFE
      && e.v.job.jobId in history[n + 1].recorded && history[n + 1].recorded[e.v.job.jobId] == e.v.digest
      && history[n].states[e.id].status == Active && history[n].states[e.id].resource == e.v.job.resource
      && history[n].states[e.id].policyRevision == e.v.job.policyRevision
      && e.v.verifiedAt <= e.now && e.v.job.iat - 5 <= e.now < e.v.job.exp
      && history[n + 1] == Ledger(history[n].recorded[e.v.job.jobId := e.v.digest],
                                  history[n].states[e.id := ResourceState(e.v.job.resource, e.v.job.policyRevision,
                                                                          e.v.job.expectedStateVersion + 1, e.status)])
  {
    OptimisticIsAtomic(history, events, n);
    PlanPreparesExactly(events[n].v, history[n].states[events[n].id], events[n].now, PriorOf(history[n], events[n].v.job.jobId));
  }

  /**
   An attempt on current reads is granted exactly when its job is new to the ledger, the clock is at or past its
   verification and inside its window, and the resource is in the one active state the job names, below 2^53 - 1.
   */
  lemma CurrentAttemptGrantedExactly(history: seq<Ledger>, n: nat, e: Event)
    requires n < |history| && Readable(history, n, e) && e.priorSeen == e.stateSeen == n
    ensures Granted(history, n, e)
      <==> var s := history[n].states[e.id];
           && e.v.job.jobId !in history[n].recorded
           && 0 <= e.now <= MAX_SAFE && e.v.verifiedAt <= e.now && e.v.job.iat - 5 <= e.now < e.v.job.exp
           && s == ResourceState(e.v.job.resource, e.v.job.policyRevision, e.v.job.expectedStateVersion, Active)
           && ResourceValid(s.resource) && 1 <= s.policyRevision <= MAX_SAFE && 1 <= s.stateVersion < MAX_SAFE
  {
    PlanPreparesExactly(e.v, history[n].states[e.id], e.now, PriorOf(history[n], e.v.job.jobId));
  }

  /** No job id is granted twice in a run. */
  lemma JobGrantedOnce(history: seq<Ledger>, events: seq<Event>, m: nat, n: nat)
    requires History(history, events) && m < n < |events| && Granted(history, m, events[m]) && Granted(history, n, events[n])
    ensures events[m].v.job.jobId != events[n].v.job.jobId
  {
    GrantAdvances(history, events, m);
    RecordedStays(history, events, m + 1, n, events[m].v.job.jobId);
    OptimisticIsAtomic(history, events, n);
    PlanPrepares(events[n].v, history[n].states[events[n].id], events[n].now, PriorOf(history[n], events[n].v.job.jobId));
  }

  /** No version of a resource is consumed twice: grants on one resource consume ever higher versions. */
  lemma VersionConsumedOnce(history: seq<Ledger>, events: seq<Event>, m: nat, n: nat)
    requires History(history, events) && m < n < |events| && Granted(history, m, events[m]) && Granted(history, n, events[n])
    requires events[m].id == events[n].id
    ensures events[m].v.job.expectedStateVersion < events[n].v.job.expectedStateVersion
  {
    GrantAdvances(history, events, m);
    GrantAdvances(history, events, n);
    VersionsAdvance(history, events, m + 1, n, events[m].id);
  }

  /** Once a job is recorded, an attempt that reads its prior afterwards is told so, or refused. */
  lemma RecordedOnlyRepeats(history: seq<Ledger>, events: seq<Event>, m: nat, n: nat)
    requires History(history, events) && m <= n < |events| && events[n].Attempt? && m <= events[n].priorSeen
    requires events[n].v.job.jobId in history[m].recorded
    ensures var e := events[n]; var d := Decision(history, n, e);
      d.Err? || (d.value == AlreadyRecorded(e.v.job.jobId, e.v.digest) && e.v.digest == history[m].recorded[e.v.job.jobId])
  {
    RecordedStays(history, events, m, events[n].priorSeen, events[n].v.job.jobId);
  }

  /** An attempt that reads its job as recorded is told so exactly in time, with the recorded digest, on any valid state. */
  lemma RepeatAnsweredExactly(history: seq<Ledger>, n: nat, e: Event)
    requires n < |history| && Readable(history, n, e) && e.v.job.jobId in history[e.priorSeen].recorded
    ensures Decision(history, n, e).Ok?
       <==> && 0 <= e.now <= MAX_SAFE && e.v.verifiedAt <= e.now && e.v.job.iat - 5 <= e.now < e.v.job.exp
            && StateValid(history[e.stateSeen].states[e.id]) && ValidId(e.v.job.jobId) && ValidDigest(e.v.digest)
            && history[e.priorSeen].recorded[e.v.job.jobId] == e.v.digest
  {
    PlanRepeatsExactly(e.v, history[e.stateSeen].states[e.id], e.now, PriorOf(history[e.priorSeen], e.v.job.jobId));
  }

  /** A verified text told it is already recorded carries the very job that was granted, field for field. */
  lemma RepeatIsSameJob(p: Primitives, history: seq<Ledger>, events: seq<Event>, m: nat, n: nat,
                        c1: string, t1: JobTrust, b1: JobBinding, c2: string, t2: JobTrust, b2: JobBinding)
    requires Unforgeable(p) && HashInjective(p)
    requires History(history, events) && m < n < |events| && Granted(history, m, events[m])
    requires events[n].Attempt? && events[n].priorSeen > m && events[n].v.job.jobId == events[m].v.job.jobId
    requires Verify(p, c1, t1, b1, events[m].v.verifiedAt) == Ok(events[m].v)
    requires Verify(p, c2, t2, b2, events[n].v.verifiedAt) == Ok(events[n].v)
    requires Decision(history, n, events[n]).Ok?
    ensures events[n].v.job == events[m].v.job
  {
    GrantAdvances(history, events, m);
    RecordedOnlyRepeats(history, events, m + 1, n);
    DigestNamesOneJob(p, c1, t1, b1, events[m].v.verifiedAt, c2, t2, b2, events[n].v.verifiedAt);
  }
}
