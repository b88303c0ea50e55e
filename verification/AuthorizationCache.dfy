/** The device authorization cache and the reader's token, under interleaved lookups. */
module AuthorizationCache {
  import opened Prelude
  import opened ManagementModel

  const CACHE_LIMIT := 10000
  const LOOKUP_LIMIT := 15000.0
  const TOKEN_SPAN := 300000.0

  /** The fields of a device-status reply that are compared with the identity. */
  datatype DeviceStatus = DeviceStatus(
    deviceId: string, subject: string, tenantId: string, organizationId: string, deviceVersion: int, keyJkt: string,
    userVersion: string, serviceAccessVersion: string, active: bool, authorized: bool, checkedAtSafe: bool)

  /** How a lookup ends: refused with 403 or 404, 401, another failure or timeout, or a parsed body. */
  datatype Answer = Refused | Unauthorized | Unavailable | Body(p: DeviceStatus)

  datatype LookupError = NotAuthorized | ServiceUnavailable

  predicate Vouches(p: DeviceStatus, i: Identity) {
    && p.deviceId == i.device && p.subject == i.subject && p.tenantId == i.tenant
    && p.organizationId == i.organization && p.deviceVersion == i.version && p.keyJkt == i.jkt
    && p.userVersion == i.userVersion && p.serviceAccessVersion == i.serviceVersion
    && p.active && p.authorized && p.checkedAtSafe
  }

  datatype Token = Token(value: string, until: real)

  datatype Waiting = Waiting(identity: Identity, start: real)

  /** `waiting` holds the calls whose lookup is under way, each with the start time it remembers. */
  datatype Fields = Fields(cache: map<Identity, real>, waiting: map<nat, Waiting>, token: Option<Token>)

  const EMPTY := Fields(map[], map[], None)

  /**
   Enter is authorize up to its lookup, and NeedToken readerToken up to its request; Answered and Fetched are
   what follows the replies. Calls interleave at these points.
   */
  datatype Event =
    | Enter(call: nat, identity: Identity, start: real)
    | Answered(call: nat, answer: Answer, end: real)
    | NeedToken(start: real)
    | Fetched(start: real, value: string, expiresIn: real)

  predicate Hit(cacheMs: real, b: Fields, i: Identity, start: real) {
    i in b.cache && start >= b.cache[i] && start - b.cache[i] < cacheMs
  }

  predicate Timely(start: real, end: real) {
    start <= end && end - start < LOOKUP_LIMIT
  }

  function Stored(cache: map<Identity, real>, i: Identity, start: real): map<Identity, real> {
    (if |cache| >= CACHE_LIMIT then map[] else cache)[i := start]
  }

  /** What the lookup's answer makes of the call. */
  function Verdict(w: Waiting, answer: Answer, end: real): Result<(), LookupError> {
    match answer
    case Refused => Err(NotAuthorized)
    case Unauthorized => Err(ServiceUnavailable)
    case Unavailable => Err(ServiceUnavailable)
    case Body(p) =>
      if !Vouches(p, w.identity) then Err(NotAuthorized)
      else if !Timely(w.start, end) then Err(ServiceUnavailable)
      else Ok(())
  }

  predicate Reusable(token: Option<Token>, start: real) {
    token.Some? && start < token.value.until && start >= token.value.until - TOKEN_SPAN
  }

  function After(cacheMs: real, b: Fields, e: Event): Fields {
    match e
    case Enter(call, i, start) =>
      if Hit(cacheMs, b, i, start) then b
      else b.(cache := b.cache - {i}, waiting := b.waiting[call := Waiting(i, start)])
    case Answered(call, answer, end) =>
      if call !in b.waiting then b
      else
        var w := b.waiting[call];
        b.(waiting := b.waiting - {call},
           cache := if Verdict(w, answer, end).Ok? then Stored(b.cache, w.identity, w.start) else b.cache,
           token := if answer.Unauthorized? then None else b.token)
    case NeedToken(start) => if Reusable(b.token, start) then b else b.(token := None)
    case Fetched(start, value, expiresIn) =>
      if 0.0 < expiresIn <= 300.0 then b.(token := Some(Token(value, start + expiresIn * 1000.0 - 5000.0))) else b
  }

  class IamDeviceReader {
    const cacheMs: real
    var cache: map<Identity, real>
    var waiting: map<nat, Waiting>
    var token: Option<Token>

    constructor (cacheMs: Option<real>)
      ensures State() == EMPTY && this.cacheMs == if cacheMs.Some? then cacheMs.value else 15000.0
    {
      this.cacheMs := if cacheMs.Some? then cacheMs.value else 15000.0;
      cache, waiting, token := map[], map[], None;
    }

    function State(): Fields
      reads this
    {
      Fields(cache, waiting, token)
    }

    /** authorize, up to its lookup; a hit returns at once. */
    method Begin(call: nat, i: Identity, start: real) returns (hit: bool)
      modifies this
      ensures hit == Hit(cacheMs, old(State()), i, start)
      ensures State() == After(cacheMs, old(State()), Enter(call, i, start))
    {
      if i in cache && start >= cache[i] && start - cache[i] < cacheMs { return true; }
      cache := cache - {i};
      waiting := waiting[call := Waiting(i, start)];
      return false;
    }

    /** The rest of authorize, once the device-status service has answered; `end` is read for a vouching body only. */
    method Finish(call: nat, answer: Answer, end: real) returns (r: Result<(), LookupError>)
      requires call in waiting
      modifies this
      ensures r == Verdict(old(waiting)[call], answer, end)
      ensures State() == After(cacheMs, old(State()), Answered(call, answer, end))
    {
      var w := waiting[call];
      waiting := waiting - {call};
      match answer
      case Refused => return Err(NotAuthorized);
      case Unauthorized =>
        token := None;
        return Err(ServiceUnavailable);
      case Unavailable => return Err(ServiceUnavailable);
      case Body(p) =>
        if !Vouches(p, w.identity) { return Err(NotAuthorized); }
        if end < w.start || end - w.start >= LOOKUP_LIMIT { return Err(ServiceUnavailable); }
        if |cache| >= CACHE_LIMIT { cache := map[]; }
        cache := cache[w.identity := w.start];
        return Ok(());
    }

    /** readerToken, up to its request. */
    method ReuseToken(start: real) returns (reused: Option<string>)
      modifies this
      ensures reused == if Reusable(old(token), start) then Some(old(token).value.value) else None
      ensures State() == After(cacheMs, old(State()), NeedToken(start))
    {
      if token.Some? && start < token.value.until && start >= token.value.until - TOKEN_SPAN {
        return Some(token.value.value);
      }
      token := None;
      return None;
    }

    /** The rest of readerToken, for a well-formed bearer reply. */
    method StoreToken(start: real, value: string, expiresIn: real) returns (r: Result<string, LookupError>)
      modifies this
      ensures r == if 0.0 < expiresIn <= 300.0 then Ok(value) else Err(ServiceUnavailable)
      ensures State() == After(cacheMs, old(State()), Fetched(start, value, expiresIn))
    {
      if expiresIn <= 0.0 || expiresIn > 300.0 { return Err(ServiceUnavailable); }
      token := Some(Token(value, start + expiresIn * 1000.0 - 5000.0));
      return Ok(value);
    }
  }

  // ---------------------------------------------------------------- histories

  function At(cacheMs: real, h: seq<Event>, n: nat): Fields
    requires n <= |h|
  {
    if n == 0 then EMPTY else After(cacheMs, At(cacheMs, h, n - 1), h[n - 1])
  }

  predicate HitAt(cacheMs: real, h: seq<Event>, n: nat)
    requires n < |h|
  {
    h[n].Enter? && Hit(cacheMs, At(cacheMs, h, n), h[n].identity, h[n].start)
  }

  /** A lookup for `i` that began at `start` was answered, in time, by a body that vouches for exactly `i`. */
  predicate VouchedAt(cacheMs: real, h: seq<Event>, n: nat, i: Identity, start: real)
    requires n < |h|
  {
    && h[n].Answered? && h[n].answer.Body? && Vouches(h[n].answer.p, i)
    && h[n].call in At(cacheMs, h, n).waiting && At(cacheMs, h, n).waiting[h[n].call] == Waiting(i, start)
    && Timely(start, h[n].end)
  }

  predicate Entered(h: seq<Event>, n: nat, call: nat, w: Waiting)
    requires n <= |h|
  {
    exists m | 0 <= m < n :: h[m] == Enter(call, w.identity, w.start)
  }

  /** The start time a waiting call remembers is the one it entered with. */
  lemma {:induction false} WaitingEntered(cacheMs: real, h: seq<Event>, n: nat, call: nat)
    requires n <= |h| && call in At(cacheMs, h, n).waiting
    ensures Entered(h, n, call, At(cacheMs, h, n).waiting[call])
  {
    var w := At(cacheMs, h, n).waiting[call];
    var before := At(cacheMs, h, n - 1).waiting;
    if call in before && before[call] == w {
      WaitingEntered(cacheMs, h, n - 1, call);
      var m :| 0 <= m < n - 1 && h[m] == Enter(call, w.identity, w.start);
    } else {
      assert h[n - 1] == Enter(call, w.identity, w.start);
    }
  }

  ghost predicate Vouched(cacheMs: real, h: seq<Event>, n: nat, i: Identity, start: real)
    requires n <= |h|
  {
    exists m | 0 <= m < n :: VouchedAt(cacheMs, h, m, i, start)
  }

  /** A start time that enters the cache is that of the lookup just answered, by a body that vouches for it in time. */
  lemma CacheWrite(cacheMs: real, b: Fields, e: Event, i: Identity)
    requires i in After(cacheMs, b, e).cache
    ensures var start := After(cacheMs, b, e).cache[i];
      || (i in b.cache && b.cache[i] == start)
      || (e.Answered? && e.answer.Body? && Vouches(e.answer.p, i)
          && e.call in b.waiting && b.waiting[e.call] == Waiting(i, start) && Timely(start, e.end))
  {}

  /** A cached start time belongs to a vouched lookup, through clearing, deletion and late writes of older times. */
  lemma {:induction false} CachedIsVouched(cacheMs: real, h: seq<Event>, n: nat, i: Identity)
    requires n <= |h| && i in At(cacheMs, h, n).cache
    ensures Vouched(cacheMs, h, n, i, At(cacheMs, h, n).cache[i])
  {
    var b := At(cacheMs, h, n - 1);
    var start := At(cacheMs, h, n).cache[i];
    CacheWrite(cacheMs, b, h[n - 1], i);
    if i in b.cache && b.cache[i] == start {
      CachedIsVouched(cacheMs, h, n - 1, i);
      var m :| 0 <= m < n - 1 && VouchedAt(cacheMs, h, m, i, start);
    } else {
      assert VouchedAt(cacheMs, h, n - 1, i, start);
    }
  }

  /** The one body that speaks for the identity: its eight fields, ACTIVE, authorized, and a sane check time. */
  function Affirmation(i: Identity): DeviceStatus {
    DeviceStatus(i.device, i.subject, i.tenant, i.organization, i.version, i.jkt, i.userVersion, i.serviceVersion,
                 true, true, true)
  }

  lemma VouchesExactly(p: DeviceStatus, i: Identity)
    ensures Vouches(p, i) <==> p == Affirmation(i)
  {}

  /**
   Every success is justified: at its last clock reading t, some lookup for exactly that identity, begun less
   than the limit before t, had been answered by the one body that affirms it, within 15 seconds. The limit is the
   larger of the cache lifetime and those 15 seconds.
   */
  lemma SuccessJustified(cacheMs: real, h: seq<Event>, n: nat, i: Identity, t: real)
    requires n < |h|
    requires
      || (HitAt(cacheMs, h, n) && h[n].identity == i && h[n].start == t)
      || (h[n].Answered? && h[n].call in At(cacheMs, h, n).waiting && At(cacheMs, h, n).waiting[h[n].call].identity == i
          && Verdict(At(cacheMs, h, n).waiting[h[n].call], h[n].answer, h[n].end).Ok? && h[n].end == t)
    ensures exists m, start ::
      && 0 <= m <= n && h[m].Answered? && Entered(h, m, h[m].call, Waiting(i, start))
      && h[m].answer == Body(Affirmation(i)) && start <= h[m].end < start + 15000.0
      && start <= t && t - start < (if cacheMs < 15000.0 then 15000.0 else cacheMs)
  {
    var m: nat, start: real;
    if HitAt(cacheMs, h, n) {
      CachedIsVouched(cacheMs, h, n, i);
      start := At(cacheMs, h, n).cache[i];
      m :| 0 <= m < n && VouchedAt(cacheMs, h, m, i, start);
    } else {
      m, start := n, At(cacheMs, h, n).waiting[h[n].call].start;
    }
    WaitingEntered(cacheMs, h, m, h[m].call);
    VouchesExactly(h[m].answer.p, i);
    assert Entered(h, m, h[m].call, Waiting(i, start));
  }

  /** A call for a fresh entry changes nothing; any other forgets its identity alone and begins a lookup at its own time. */
  lemma EnterDecides(cacheMs: real, b: Fields, call: nat, i: Identity, start: real)
    ensures var after := After(cacheMs, b, Enter(call, i, start)); var held := i in b.cache && b.cache[i] <= start < b.cache[i] + cacheMs;
      && (Hit(cacheMs, b, i, start) <==> held)
      && (held ==> after == b)
      && (!held ==> after == Fields(b.cache - {i}, b.waiting[call := Waiting(i, start)], b.token))
  {}

  /** What an answered lookup comes to: its error or success, and whether anything is cached, by the answer alone. */
  lemma AnswerDecides(cacheMs: real, b: Fields, call: nat, answer: Answer, end: real)
    requires call in b.waiting
    ensures var w, after := b.waiting[call], After(cacheMs, b, Answered(call, answer, end));
      var timely := w.start <= end < w.start + 15000.0;
      && (answer == Body(Affirmation(w.identity)) && timely ==>
            && Verdict(w, answer, end) == Ok(()) && w.identity in after.cache && after.cache[w.identity] == w.start
            && (|b.cache| < 10000 ==> after.cache == b.cache[w.identity := w.start]))
      && (answer == Body(Affirmation(w.identity)) && !timely ==>
            Verdict(w, answer, end) == Err(ServiceUnavailable) && after.cache == b.cache)
      && (answer == Refused || (answer.Body? && answer != Body(Affirmation(w.identity))) ==>
            Verdict(w, answer, end) == Err(NotAuthorized) && after.cache == b.cache)
      && (answer == Unauthorized || answer == Answer.Unavailable ==>
            Verdict(w, answer, end) == Err(ServiceUnavailable) && after.cache == b.cache)
      && after.waiting == b.waiting - {call}
      && after.token == if answer == Unauthorized then None else b.token
  {
    if answer.Body? { VouchesExactly(answer.p, b.waiting[call].identity); }
  }

  /** Nothing enters or is answered for the identity, and the cache has room. */
  predicate Undisturbed(b: Fields, e: Event, i: Identity) {
    && (e.Enter? ==> e.identity != i)
    && (e.Answered? ==> (e.call in b.waiting ==> b.waiting[e.call].identity != i) && |b.cache| < CACHE_LIMIT)
  }

  predicate Holds(b: Fields, i: Identity, start: real) {
    i in b.cache && b.cache[i] == start
  }

  lemma StepKeepsCached(cacheMs: real, b: Fields, e: Event, i: Identity, start: real)
    requires Holds(b, i, start) && Undisturbed(b, e, i)
    ensures Holds(After(cacheMs, b, e), i, start)
  {}

  /** The event answers a lookup of the identity, begun at `start`, in time and with its affirmation. */
  predicate Affirms(b: Fields, e: Event, i: Identity, start: real) {
    && e.Answered? && e.call in b.waiting && b.waiting[e.call] == Waiting(i, start)
    && e.answer == Body(Affirmation(i)) && start <= e.end < start + 15000.0
  }

  lemma AffirmedIsHeld(cacheMs: real, b: Fields, e: Event, i: Identity, start: real)
    requires Affirms(b, e, i, start)
    ensures Holds(After(cacheMs, b, e), i, start)
  {
    AnswerDecides(cacheMs, b, e.call, e.answer, e.end);
  }

  predicate Moves(cacheMs: real, b: Fields, e: Event, after: Fields) {
    after == After(cacheMs, b, e)
  }

  /** Any stretch of states, each the one before it after one event; nothing is disturbed past the first event. */
  ghost predicate QuietTrace(cacheMs: real, states: seq<Fields>, events: seq<Event>, i: Identity) {
    && |states| == |events| + 1
    && (forall k | 0 <= k < |events| :: Moves(cacheMs, states[k], events[k], states[k + 1]))
    && (forall k | 0 < k < |events| :: Undisturbed(states[k], events[k], i))
  }

  lemma {:induction false} HeldSince(cacheMs: real, states: seq<Fields>, events: seq<Event>, n: nat, i: Identity, start: real)
    requires QuietTrace(cacheMs, states, events, i) && 0 < n <= |events| && Affirms(states[0], events[0], i, start)
    ensures Holds(states[n], i, start)
  {
    assert Moves(cacheMs, states[n - 1], events[n - 1], states[n - 1 + 1]);
    if n == 1 {
      AffirmedIsHeld(cacheMs, states[0], events[0], i, start);
    } else {
      HeldSince(cacheMs, states, events, n - 1, i, start);
      StepKeepsCached(cacheMs, states[n - 1], events[n - 1], i, start);
    }
  }

  lemma HitOfHeld(cacheMs: real, b: Fields, i: Identity, start: real, t: real)
    requires Holds(b, i, start)
    ensures Hit(cacheMs, b, i, t) <==> start <= t < start + cacheMs
  {}

  /** After a success, undisturbed, a call for the identity is a hit exactly within the cache lifetime of the start time. */
  lemma SuccessIsReused(cacheMs: real, states: seq<Fields>, events: seq<Event>, n: nat, i: Identity, start: real, t: real)
    requires QuietTrace(cacheMs, states, events, i) && 0 < n <= |events| && Affirms(states[0], events[0], i, start)
    ensures Hit(cacheMs, states[n], i, t) <==> start <= t < start + cacheMs
  {
    HeldSince(cacheMs, states, events, n, i, start);
    HitOfHeld(cacheMs, states[n], i, start, t);
  }

  /**
   A fetched token is stored exactly if it lives at most 300 s, and then reused from 300 s before its limit up to that
   limit, 5 s before it expires; a token that is not reused is forgotten.
   */
  lemma TokenReusedExactly(cacheMs: real, b: Fields, start: real, value: string, expiresIn: real, t: real)
    ensures var after := After(cacheMs, b, Fetched(start, value, expiresIn)); var limit := start + expiresIn * 1000.0 - 5000.0;
      var next := After(cacheMs, after, NeedToken(t));
      && (0.0 < expiresIn <= 300.0 ==>
            && after == Fields(b.cache, b.waiting, Some(Token(value, limit)))
            && (Reusable(after.token, t) <==> limit - 300000.0 <= t < limit))
      && (!(0.0 < expiresIn <= 300.0) ==> after == b)
      && next == (if Reusable(after.token, t) then after else Fields(after.cache, after.waiting, None))
  {}

  lemma SmallerCache(cache: map<Identity, real>, i: Identity)
    ensures |cache - {i}| <= |cache|
  {
    assert (cache - {i}).Keys == cache.Keys - {i};
    assert |(cache - {i}).Keys| == |cache - {i}| && |cache.Keys| == |cache|;
    assert cache.Keys == (cache.Keys - {i}) + (cache.Keys * {i});
  }

  lemma StoredFits(cache: map<Identity, real>, i: Identity, start: real)
    requires |cache| <= CACHE_LIMIT
    ensures |Stored(cache, i, start)| <= CACHE_LIMIT
  {
    var base: map<Identity, real> := if |cache| >= CACHE_LIMIT then map[] else cache;
    assert base[i := start].Keys == base.Keys + {i};
    assert |base[i := start].Keys| == |base[i := start]| && |base.Keys| == |base|;
  }

  predicate Fits(b: Fields) {
    |b.cache| <= 10000
  }

  lemma StepFits(cacheMs: real, b: Fields, e: Event)
    requires Fits(b)
    ensures Fits(After(cacheMs, b, e))
  {
    if e.Enter? {
      SmallerCache(b.cache, e.identity);
    } else if e.Answered? && e.call in b.waiting {
      StoredFits(b.cache, b.waiting[e.call].identity, b.waiting[e.call].start);
    }
  }

  /** In every state of every history the cache holds at most its limit: a full one is cleared before it grows. */
  lemma {:induction false} CacheBounded(cacheMs: real, h: seq<Event>, n: nat)
    requires n <= |h|
    ensures Fits(At(cacheMs, h, n))
  {
    if n > 0 {
      CacheBounded(cacheMs, h, n - 1);
      StepFits(cacheMs, At(cacheMs, h, n - 1), h[n - 1]);
    }
  }

  /** Fetch `m` stored this token, and no lookup has been answered 401 since. */
  ghost predicate FetchedAt(cacheMs: real, h: seq<Event>, m: nat, n: nat, value: string, until: real)
    requires n <= |h|
  {
    && m < n && h[m].Fetched? && h[m].value == value && 0.0 < h[m].expiresIn <= 300.0
    && until == h[m].start + h[m].expiresIn * 1000.0 - 5000.0
    && forall k | m < k < n && h[k].Answered? && h[k].answer.Unauthorized? :: h[k].call !in At(cacheMs, h, k).waiting
  }

  lemma {:induction false} TokenFetched(cacheMs: real, h: seq<Event>, n: nat)
    requires n <= |h| && At(cacheMs, h, n).token.Some?
    ensures exists m: nat :: FetchedAt(cacheMs, h, m, n, At(cacheMs, h, n).token.value.value, At(cacheMs, h, n).token.value.until)
  {
    var now, before := At(cacheMs, h, n).token.value, At(cacheMs, h, n - 1).token;
    if h[n - 1].Fetched? && 0.0 < h[n - 1].expiresIn <= 300.0 {
      assert FetchedAt(cacheMs, h, n - 1, n, now.value, now.until);
    } else {
      assert before == Some(now);
      TokenFetched(cacheMs, h, n - 1);
      var m: nat :| FetchedAt(cacheMs, h, m, n - 1, now.value, now.until);
      assert FetchedAt(cacheMs, h, m, n, now.value, now.until);
    }
  }

  /** A reused token was fetched, outlives its use by five seconds of its own lifetime, and met no 401 since. */
  lemma ReuseIsFresh(cacheMs: real, h: seq<Event>, n: nat)
    requires n < |h| && h[n].NeedToken? && Reusable(At(cacheMs, h, n).token, h[n].start)
    ensures exists m: nat ::
      && FetchedAt(cacheMs, h, m, n, At(cacheMs, h, n).token.value.value, At(cacheMs, h, n).token.value.until)
      && h[n].start + 5000.0 < h[m].start + h[m].expiresIn * 1000.0 <= h[n].start + TOKEN_SPAN + 5000.0
  {
    TokenFetched(cacheMs, h, n);
    var token := At(cacheMs, h, n).token.value;
    var m: nat :| FetchedAt(cacheMs, h, m, n, token.value, token.until);
  }
}
