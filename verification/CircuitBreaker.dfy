/** The circuit breaker under overlapping calls: its state, its probes and its counters, read off the history. */
module CircuitBreaker {
  import opened Prelude

  datatype State = Closed | Open | HalfOpen

  datatype Config = Config(failureThreshold: int, resetTimeoutMs: int, halfOpenMaxCalls: int)

  predicate ValidConfig(c: Config) {
    c.failureThreshold >= 1 && c.resetTimeoutMs >= 10 && c.halfOpenMaxCalls >= 1
  }

  datatype Fields = Fields(
    state: State, consecutiveFailures: int, lastFailureTime: Option<int>, halfOpenCalls: int,
    totalSuccesses: int, totalFailures: int, totalShortCircuited: int)

  const INITIAL := Fields(Closed, 0, None, 0, 0, 0, 0)

  /**
   What happens to one breaker, in order. A call begins, and unless it is short-circuited it later completes,
   with any other events in between; Query is getState or getStats.
   */
  datatype Event =
    | Begin(id: nat, now: int)
    | Succeed(id: nat)
    | Fail(id: nat, now: int)
    | Reset
    | Query(now: int)

  function Evaluated(c: Config, b: Fields, now: int): Fields {
    if b.state == Open && b.lastFailureTime.Some? && now - b.lastFailureTime.value >= c.resetTimeoutMs
    then b.(state := HalfOpen, halfOpenCalls := 0)
    else b
  }

  /** The call passes: closed, or half open with a probe left. */
  predicate Admits(c: Config, b: Fields, now: int) {
    var e := Evaluated(c, b, now);
    e.state == Closed || (e.state == HalfOpen && e.halfOpenCalls < c.halfOpenMaxCalls)
  }

  function After(c: Config, b: Fields, e: Event): Fields {
    match e
    case Begin(_, now) =>
      var v := Evaluated(c, b, now);
      if !Admits(c, b, now) then v.(totalShortCircuited := v.totalShortCircuited + 1)
      else if v.state == HalfOpen then v.(halfOpenCalls := v.halfOpenCalls + 1)
      else v
    case Succeed(_) => b.(totalSuccesses := b.totalSuccesses + 1, consecutiveFailures := 0, halfOpenCalls := 0, state := Closed)
    case Fail(_, now) =>
      var failures := b.consecutiveFailures + 1;
      b.(totalFailures := b.totalFailures + 1, consecutiveFailures := failures, lastFailureTime := Some(now),
         state := if b.state == HalfOpen || failures >= c.failureThreshold then Open else b.state)
    case Reset => b.(state := Closed, consecutiveFailures := 0, lastFailureTime := None, halfOpenCalls := 0)
    case Query(now) => Evaluated(c, b, now)
  }

  /** retryAfterMs of a short-circuited call; `later` is the second clock reading. */
  function RetryAfter(c: Config, b: Fields, later: int): int {
    if b.state == Open && b.lastFailureTime.Some? then Max(0, c.resetTimeoutMs - (later - b.lastFailureTime.value))
    else c.resetTimeoutMs
  }

  class Breaker {
    const failureThreshold: int
    const resetTimeoutMs: int
    const halfOpenMaxCalls: int
    var state: State
    var consecutiveFailures: int
    var lastFailureTime: Option<int>
    var halfOpenCalls: int
    var totalSuccesses: int
    var totalFailures: int
    var totalShortCircuited: int

    constructor (threshold: Option<int>, timeout: Option<int>, maxCalls: Option<int>)
      ensures ValidConfig(Settings()) && State() == INITIAL
      ensures threshold.Some? && threshold.value >= 1 ==> failureThreshold == threshold.value
      ensures timeout.Some? && timeout.value >= 10 ==> resetTimeoutMs == timeout.value
      ensures maxCalls.Some? && maxCalls.value >= 1 ==> halfOpenMaxCalls == maxCalls.value
    {
      failureThreshold := Max(1, if threshold.Some? then threshold.value else 5);
      resetTimeoutMs := Max(10, if timeout.Some? then timeout.value else 30000);
      halfOpenMaxCalls := Max(1, if maxCalls.Some? then maxCalls.value else 1);
      state, consecutiveFailures, lastFailureTime, halfOpenCalls := Closed, 0, None, 0;
      totalSuccesses, totalFailures, totalShortCircuited := 0, 0, 0;
    }

    function Settings(): Config {
      Config(failureThreshold, resetTimeoutMs, halfOpenMaxCalls)
    }

    function State(): Fields
      reads this
    {
      Fields(state, consecutiveFailures, lastFailureTime, halfOpenCalls, totalSuccesses, totalFailures, totalShortCircuited)
    }

    method EvaluateState(now: int)
      modifies this
      ensures State() == After(Settings(), old(State()), Query(now))
    {
      if state == Open && lastFailureTime.Some? {
        if now - lastFailureTime.value >= resetTimeoutMs {
          state, halfOpenCalls := HalfOpen, 0;
        }
      }
    }

    /** execute, up to calling the function; Err carries retryAfterMs. */
    method Start(id: nat, now: int, later: int) returns (r: Result<(), int>)
      modifies this
      ensures State() == After(Settings(), old(State()), Begin(id, now))
      ensures r == if Admits(Settings(), old(State()), now) then Ok(())
                   else Err(RetryAfter(Settings(), Evaluated(Settings(), old(State()), now), later))
    {
      EvaluateState(now);
      if state == Open {
        totalShortCircuited := totalShortCircuited + 1;
        return Err(if lastFailureTime.Some? then Max(0, resetTimeoutMs - (later - lastFailureTime.value)) else resetTimeoutMs);
      }
      if state == HalfOpen {
        if halfOpenCalls >= halfOpenMaxCalls {
          totalShortCircuited := totalShortCircuited + 1;
          return Err(resetTimeoutMs);
        }
        halfOpenCalls := halfOpenCalls + 1;
      }
      return Ok(());
    }

    method OnSuccess(id: nat)
      modifies this
      ensures State() == After(Settings(), old(State()), Succeed(id))
    {
      totalSuccesses := totalSuccesses + 1;
      consecutiveFailures, halfOpenCalls, state := 0, 0, Closed;
    }

    method OnFailure(id: nat, now: int)
      modifies this
      ensures State() == After(Settings(), old(State()), Fail(id, now))
    {
      totalFailures := totalFailures + 1;
      consecutiveFailures := consecutiveFailures + 1;
      lastFailureTime := Some(now);
      if state == HalfOpen || consecutiveFailures >= failureThreshold {
        state := Open;
      }
    }

    method ResetBreaker()
      modifies this
      ensures State() == After(Settings(), old(State()), Event.Reset)
    {
      state, consecutiveFailures, lastFailureTime, halfOpenCalls := Closed, 0, None, 0;
    }
  }

  // ---------------------------------------------------------------- histories

  function At(c: Config, h: seq<Event>, n: nat): Fields
    requires n <= |h|
  {
    if n == 0 then INITIAL else After(c, At(c, h, n - 1), h[n - 1])
  }

  predicate AdmittedAt(c: Config, h: seq<Event>, n: nat)
    requires n < |h|
  {
    h[n].Begin? && Admits(c, At(c, h, n), h[n].now)
  }

  /** Failures completed since the last success or reset. */
  function RecentFailures(h: seq<Event>, n: nat): nat
    requires n <= |h|
  {
    if n == 0 || h[n - 1].Succeed? || h[n - 1].Reset? then 0
    else RecentFailures(h, n - 1) + if h[n - 1].Fail? then 1 else 0
  }

  /** When the latest failure since a reset completed. */
  function LatestFailure(h: seq<Event>, n: nat): Option<int>
    requires n <= |h|
  {
    if n == 0 || h[n - 1].Reset? then None
    else if h[n - 1].Fail? then Some(h[n - 1].now)
    else LatestFailure(h, n - 1)
  }

  /** The clock readings of a history never decrease. */
  ghost predicate Clocked(h: seq<Event>) {
    forall m, n | 0 <= m < n < |h| && (h[m].Begin? || h[m].Fail? || h[m].Query?) && (h[n].Begin? || h[n].Fail? || h[n].Query?) ::
      h[m].now <= h[n].now
  }

  lemma {:induction false} CountersTellHistory(c: Config, h: seq<Event>, n: nat)
    requires ValidConfig(c) && n <= |h|
    ensures At(c, h, n).consecutiveFailures == RecentFailures(h, n) && At(c, h, n).lastFailureTime == LatestFailure(h, n)
    ensures At(c, h, n).state == Closed <==> RecentFailures(h, n) < c.failureThreshold
    ensures At(c, h, n).state != Closed ==> LatestFailure(h, n).Some?
    ensures At(c, h, n).state == Closed ==> At(c, h, n).halfOpenCalls == 0
  {
    if n > 0 { CountersTellHistory(c, h, n - 1); }
  }

  function Successes(h: seq<Event>, n: nat): nat
    requires n <= |h|
  {
    if n == 0 then 0 else Successes(h, n - 1) + if h[n - 1].Succeed? then 1 else 0
  }

  function Failures(h: seq<Event>, n: nat): nat
    requires n <= |h|
  {
    if n == 0 then 0 else Failures(h, n - 1) + if h[n - 1].Fail? then 1 else 0
  }

  function Refusals(c: Config, h: seq<Event>, n: nat): nat
    requires n <= |h|
  {
    if n == 0 then 0 else Refusals(c, h, n - 1) + if h[n - 1].Begin? && !AdmittedAt(c, h, n - 1) then 1 else 0
  }

  /** Each total counts its own outcome: the completed successes, the completed failures, and the calls not admitted. */
  lemma {:induction false} TotalsTellHistory(c: Config, h: seq<Event>, n: nat)
    requires n <= |h|
    ensures At(c, h, n).totalSuccesses == Successes(h, n)
    ensures At(c, h, n).totalFailures == Failures(h, n)
    ensures At(c, h, n).totalShortCircuited == Refusals(c, h, n)
  {
    if n > 0 { TotalsTellHistory(c, h, n - 1); }
  }

  /** However calls overlap, the breaker is closed exactly while recent failures stay below the threshold. */
  lemma ClosedExactly(c: Config, h: seq<Event>, n: nat)
    requires ValidConfig(c) && n <= |h|
    ensures At(c, h, n).state == Closed <==> RecentFailures(h, n) < c.failureThreshold
  {
    CountersTellHistory(c, h, n);
  }

  /** Half open means the timeout had already passed at the latest clock reading. */
  lemma {:induction false} HalfOpenIsLate(c: Config, h: seq<Event>, n: nat, now: int)
    requires ValidConfig(c) && Clocked(h) && n <= |h|
    requires forall m | 0 <= m < n && (h[m].Begin? || h[m].Fail? || h[m].Query?) :: h[m].now <= now
    requires At(c, h, n).state == HalfOpen
    ensures LatestFailure(h, n).Some? && LatestFailure(h, n).value + c.resetTimeoutMs <= now
  {
    CountersTellHistory(c, h, n - 1);
    if At(c, h, n - 1).state == HalfOpen { HalfOpenIsLate(c, h, n - 1, now); }
  }

  /** A call admitted with the threshold reached begins at least the reset timeout after the latest failure. */
  lemma ProbeWaitsForTimeout(c: Config, h: seq<Event>, n: nat)
    requires ValidConfig(c) && Clocked(h) && n < |h| && AdmittedAt(c, h, n) && RecentFailures(h, n) >= c.failureThreshold
    ensures LatestFailure(h, n).Some? && LatestFailure(h, n).value + c.resetTimeoutMs <= h[n].now
  {
    CountersTellHistory(c, h, n);
    if At(c, h, n).state == HalfOpen { HalfOpenIsLate(c, h, n, h[n].now); }
  }

  /** No call completes and nothing is reset between the two moments. */
  ghost predicate Quiet(h: seq<Event>, m: nat, n: nat)
    requires m <= n <= |h|
  {
    forall k | m <= k < n :: h[k].Begin? || h[k].Query?
  }

  function AdmittedIn(c: Config, h: seq<Event>, m: nat, n: nat): nat
    requires m <= n <= |h|
  {
    if m == n then 0 else AdmittedIn(c, h, m, n - 1) + if AdmittedAt(c, h, n - 1) then 1 else 0
  }

  lemma {:induction false} ProbesWithinLimit(c: Config, h: seq<Event>, n: nat)
    requires ValidConfig(c) && n <= |h|
    ensures 0 <= At(c, h, n).halfOpenCalls <= c.halfOpenMaxCalls
  {
    if n > 0 { ProbesWithinLimit(c, h, n - 1); }
  }

  lemma {:induction false} ProbesCounted(c: Config, h: seq<Event>, m: nat, n: nat)
    requires ValidConfig(c) && m <= n <= |h| && Quiet(h, m, n) && RecentFailures(h, m) >= c.failureThreshold
    ensures At(c, h, n).state == Open ==> AdmittedIn(c, h, m, n) == 0
    ensures At(c, h, n).state == HalfOpen ==> AdmittedIn(c, h, m, n) <= At(c, h, n).halfOpenCalls
    ensures At(c, h, n).state != Closed
  {
    CountersTellHistory(c, h, m);
    ProbesWithinLimit(c, h, m);
    if m < n {
      ProbesCounted(c, h, m, n - 1);
    }
  }

  /** Until some call completes, at most halfOpenMaxCalls probes are admitted above the threshold. */
  lemma ProbesBounded(c: Config, h: seq<Event>, m: nat, n: nat)
    requires ValidConfig(c) && m <= n <= |h| && Quiet(h, m, n) && RecentFailures(h, m) >= c.failureThreshold
    ensures AdmittedIn(c, h, m, n) <= c.halfOpenMaxCalls
  {
    ProbesCounted(c, h, m, n);
    ProbesWithinLimit(c, h, n);
  }

  /** From an open breaker, while no call completes: the latest failure stands and every admitted call is a counted probe. */
  lemma {:induction false} ProbesSinceOpen(c: Config, h: seq<Event>, m: nat, n: nat)
    requires m <= n <= |h| && Quiet(h, m, n) && At(c, h, m).state == Open
    ensures At(c, h, n).lastFailureTime == At(c, h, m).lastFailureTime
    ensures At(c, h, n).state == Open || At(c, h, n).state == HalfOpen
    ensures AdmittedIn(c, h, m, n) == if At(c, h, n).state == Open then 0 else At(c, h, n).halfOpenCalls
  {
    if m < n { ProbesSinceOpen(c, h, m, n - 1); }
  }

  /** The hint names the moment the timeout of the latest failure ends, if that is still ahead; out of probes, it is the whole timeout. */
  lemma HintExactly(c: Config, h: seq<Event>, m: nat, later: int)
    requires ValidConfig(c) && m < |h| && h[m].Begin? && !AdmittedAt(c, h, m)
    ensures var b := Evaluated(c, At(c, h, m), h[m].now);
      && (b.state == Open ==> LatestFailure(h, m).Some? && later + RetryAfter(c, b, later) == Max(later, LatestFailure(h, m).value + c.resetTimeoutMs))
      && (b.state != Open ==> RetryAfter(c, b, later) == c.resetTimeoutMs)
  {
    CountersTellHistory(c, h, m);
  }

  /**
   What the retry hint is worth. A call refused at m by the open breaker is told r at its second clock reading; as
   long as no call completes, a call at or after that time is admitted if and only if probes are left.
   */
  lemma RetryAfterIsHonest(c: Config, h: seq<Event>, m: nat, n: nat, later: int)
    requires ValidConfig(c) && m < n < |h| && h[m].Begin? && h[n].Begin? && Quiet(h, m, n)
    requires Evaluated(c, At(c, h, m), h[m].now).state == Open
    requires h[n].now >= later + RetryAfter(c, Evaluated(c, At(c, h, m), h[m].now), later)
    ensures !AdmittedAt(c, h, m)
    ensures AdmittedAt(c, h, n) <==> AdmittedIn(c, h, m, n) < c.halfOpenMaxCalls
  {
    CountersTellHistory(c, h, m);
    ProbesSinceOpen(c, h, m, n);
  }

  // ---------------------------------------------------------------- conservation

  function BegunAfter(begun: set<nat>, e: Event): set<nat> {
    if e.Begin? then begun + {e.id} else begun
  }

  function Begun(h: seq<Event>, n: nat): set<nat>
    requires n <= |h|
  {
    if n == 0 then {} else BegunAfter(Begun(h, n - 1), h[n - 1])
  }

  function FlyingAfter(c: Config, b: Fields, flying: set<nat>, e: Event): set<nat> {
    match e
    case Begin(id, now) => if Admits(c, b, now) then flying + {id} else flying
    case Succeed(id) => flying - {id}
    case Fail(id, _) => flying - {id}
    case _ => flying
  }

  /** Calls admitted and not yet completed. */
  function InFlight(c: Config, h: seq<Event>, n: nat): set<nat>
    requires n <= |h|
  {
    if n == 0 then {} else FlyingAfter(c, At(c, h, n - 1), InFlight(c, h, n - 1), h[n - 1])
  }

  predicate CompletesAt(c: Config, h: seq<Event>, n: nat)
    requires n < |h|
  {
    && (h[n].Begin? ==> h[n].id !in Begun(h, n))
    && (h[n].Succeed? || h[n].Fail? ==> h[n].id in InFlight(c, h, n))
  }

  /** Each call begins once, and only calls in flight complete. */
  ghost predicate CallsComplete(c: Config, h: seq<Event>) {
    forall n | 0 <= n < |h| :: CompletesAt(c, h, n)
  }

  /** The sum of the totals and the calls in flight is the number of calls begun. */
  predicate Balanced(b: Fields, begun: set<nat>, flying: set<nat>) {
    flying <= begun && |begun| == b.totalSuccesses + b.totalFailures + b.totalShortCircuited + |flying|
  }

  lemma StepConserves(c: Config, b: Fields, begun: set<nat>, flying: set<nat>, e: Event)
    requires Balanced(b, begun, flying) && (e.Begin? ==> e.id !in begun) && (e.Succeed? || e.Fail? ==> e.id in flying)
    ensures Balanced(After(c, b, e), BegunAfter(begun, e), FlyingAfter(c, b, flying, e))
  {
    if e.Begin? {
      assert |begun + {e.id}| == |begun| + 1 && |flying + {e.id}| == |flying| + 1;
    } else if e.Succeed? || e.Fail? {
      assert |flying - {e.id}| == |flying| - 1;
    }
  }

  /** No call is lost or counted twice: every call begun succeeded, failed, was short-circuited or is in flight. */
  lemma {:induction false} CallsConserved(c: Config, h: seq<Event>, n: nat)
    requires CallsComplete(c, h) && n <= |h|
    ensures Balanced(At(c, h, n), Begun(h, n), InFlight(c, h, n))
  {
    if n > 0 {
      CallsConserved(c, h, n - 1);
      assert CompletesAt(c, h, n - 1);
      StepConserves(c, At(c, h, n - 1), Begun(h, n - 1), InFlight(c, h, n - 1), h[n - 1]);
    }
  }

  // ---------------------------------------------------------------- the retry hint, by example

  /** The breaker opens at 0, a call at 1 is refused, another one takes the only probe at 10, and the first one is back then. */
  predicate Contended(c: Config, h: seq<Event>) {
    && c == Config(1, 10, 1)
    && |h| == 5 && h[0] == Begin(0, 0) && h[1] == Fail(0, 0) && h[2] == Begin(1, 1) && h[3] == Begin(2, 10) && h[4] == Begin(3, 10)
  }

  lemma Next(c: Config, h: seq<Event>, n: nat, b: Fields)
    requires n < |h| && At(c, h, n) == b
    ensures At(c, h, n + 1) == After(c, b, h[n])
  {}

  lemma ContendedStates(c: Config, h: seq<Event>)
    requires Contended(c, h)
    ensures At(c, h, 1) == INITIAL
    ensures At(c, h, 2) == Fields(Open, 1, Some(0), 0, 0, 1, 0)
    ensures At(c, h, 3) == Fields(Open, 1, Some(0), 0, 0, 1, 1)
    ensures At(c, h, 4) == Fields(HalfOpen, 1, Some(0), 1, 0, 1, 1)
  {
    Next(c, h, 0, INITIAL);
    Next(c, h, 1, INITIAL);
    Next(c, h, 2, Fields(Open, 1, Some(0), 0, 0, 1, 0));
    Next(c, h, 3, Fields(Open, 1, Some(0), 0, 0, 1, 1));
  }

  lemma ContendedCalls(c: Config, h: seq<Event>)
    requires Contended(c, h)
    ensures CallsComplete(c, h)
  {
    assert InFlight(c, h, 1) == {0};
    assert Begun(h, 1) == {0};
    assert Begun(h, 2) == {0};
    assert Begun(h, 3) == {0, 1};
    assert Begun(h, 4) == {0, 1, 2};
  }

  lemma ContendedClock(c: Config, h: seq<Event>)
    requires Contended(c, h)
    ensures Clocked(h) && Quiet(h, 2, 4)
  {}

  /** A breaker that opened at 0 refuses at 1, admits one probe at 10 and no second one. */
  lemma OneProbe(c: Config, b: Fields, probed: Fields)
    requires c == Config(1, 10, 1) && b.state == Open && b.lastFailureTime == Some(0)
    requires probed.state == HalfOpen && probed.halfOpenCalls == 1
    ensures !Admits(c, b, 1) && Admits(c, b, 10) && !Admits(c, probed, 10)
    ensures RetryAfter(c, Evaluated(c, b, 1), 1) == 9
  {}

  lemma ContendedAnswers(c: Config, h: seq<Event>)
    requires Contended(c, h)
    ensures !AdmittedAt(c, h, 2) && AdmittedAt(c, h, 3) && !AdmittedAt(c, h, 4)
    ensures h[4].now == h[2].now + RetryAfter(c, Evaluated(c, At(c, h, 2), h[2].now), h[2].now)
  {
    ContendedStates(c, h);
    OneProbe(c, At(c, h, 2), At(c, h, 4));
    OneProbe(c, At(c, h, 3), At(c, h, 4));
  }

  /** The hint is no promise: the refused call is back at its promised time, nothing has completed, and it is refused again. */
  lemma RefusedAtPromisedTime(c: Config, h: seq<Event>)
    requires Contended(c, h)
    ensures ValidConfig(c) && Clocked(h) && CallsComplete(c, h) && Quiet(h, 2, 4)
    ensures !AdmittedAt(c, h, 2) && AdmittedAt(c, h, 3) && !AdmittedAt(c, h, 4)
    ensures h[4].now == h[2].now + RetryAfter(c, Evaluated(c, At(c, h, 2), h[2].now), h[2].now)
  {
    ContendedAnswers(c, h);
    ContendedCalls(c, h);
    ContendedClock(c, h);
  }
}
