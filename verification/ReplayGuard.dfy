/** Replay protection of device proofs: one-minute nonces, two-minute proof rows and the issue-time window. */
module ReplayGuard {
  import opened Prelude

  /** The SHA-256 of [verifier, thumbprint, value]; the hash is injective, so the list itself serves as the key. */
  datatype Key = Key(verifier: string, jkt: string, value: string)

  const NONCE_TTL := 60000
  const PROOF_TTL := 120000

  /** Both tables map a key to its expires_at, in milliseconds of the database clock. */
  datatype Tables = Tables(nonces: map<Key, int>, proofs: map<Key, int>)

  /**
   What a gateway does, one statement each. An upsert reads the database clock twice: `from` while it builds
   the row, and again, at the event's own time, when it holds the row and compares. ReadClock is a gateway
   reading its own clock.
   */
  datatype Op =
    | PruneNonces
    | InsertNonce(key: Key)
    | CheckNonce(key: Key)
    | Consume(key: Key, from: int)
    | PruneProofs
    | ReadClock(now: int)

  datatype Event = Event(at: int, op: Op)

  function Unexpired(m: map<Key, int>, at: int): map<Key, int> {
    map k | k in m && at < m[k] :: m[k]
  }

  /** What the statement reports: the row was inserted, found or upserted. */
  predicate Answer(t: Tables, e: Event) {
    match e.op
    case InsertNonce(key) => key !in t.nonces
    case CheckNonce(key) => key in t.nonces && e.at < t.nonces[key]
    case Consume(key, _) => key in t.proofs ==> t.proofs[key] <= e.at
    case _ => true
  }

  /** The tables of a store that never deletes. */
  function AfterKept(t: Tables, e: Event): Tables {
    match e.op
    case InsertNonce(key) => if Answer(t, e) then t.(nonces := t.nonces[key := e.at + NONCE_TTL]) else t
    case Consume(key, from) => if Answer(t, e) then t.(proofs := t.proofs[key := from + PROOF_TTL]) else t
    case _ => t
  }

  function After(t: Tables, e: Event): Tables {
    match e.op
    case PruneNonces => t.(nonces := Unexpired(t.nonces, e.at))
    case PruneProofs => t.(proofs := Unexpired(t.proofs, e.at))
    case _ => AfterKept(t, e)
  }

  class ReplayStore {
    var nonces: map<Key, int>
    var proofs: map<Key, int>

    constructor ()
      ensures State() == Tables(map[], map[])
    {
      nonces, proofs := map[], map[];
    }

    function State(): Tables
      reads this
    {
      Tables(nonces, proofs)
    }

    /** issueNonce: `random` is the drawn nonce; a key that is still stored violates the primary key. */
    method IssueNonce(verifier: string, jkt: string, random: string, prunedAt: int, at: int) returns (issued: bool)
      modifies this
      ensures var pruned := After(old(State()), Event(prunedAt, PruneNonces)); var e := Event(at, InsertNonce(Key(verifier, jkt, random)));
              issued == Answer(pruned, e) && State() == After(pruned, e)
    {
      nonces := map k | k in nonces && prunedAt < nonces[k] :: nonces[k];
      var key := Key(verifier, jkt, random);
      if key in nonces { return false; }
      nonces := nonces[key := at + NONCE_TTL];
      return true;
    }

    method ValidNonce(verifier: string, jkt: string, nonce: string, at: int) returns (valid: bool)
      ensures valid == Answer(State(), Event(at, CheckNonce(Key(verifier, jkt, nonce))))
    {
      var key := Key(verifier, jkt, nonce);
      return key in nonces && nonces[key] > at;
    }

    method ConsumeProof(verifier: string, jkt: string, jti: string, from: int, at: int, prunedAt: int) returns (consumed: bool)
      modifies this
      ensures var e := Event(at, Consume(Key(verifier, jkt, jti), from));
              consumed == Answer(old(State()), e) && State() == After(After(old(State()), e), Event(prunedAt, PruneProofs))
    {
      var key := Key(verifier, jkt, jti);
      consumed := key !in proofs || proofs[key] <= at;
      if consumed { proofs := proofs[key := from + PROOF_TTL]; }
      proofs := map k | k in proofs && prunedAt < proofs[k] :: proofs[k];
    }
  }

  // ---------------------------------------------------------------- the verifier

  /** The proof claims the window and the store look at; `sound` stands for every other check of the proof. */
  datatype Proof = Proof(sound: bool, jti: string, iat: int, nonce: Option<string>)

  /** Unavailable is the 503 of a failed statement: here, of a nonce whose key is already stored. */
  datatype VerifyError = InvalidProof | UseNonce(nonce: string) | Unavailable

  predicate Text(s: string) {
    0 < |s| <= 255
  }

  /** `now` is the gateway clock in milliseconds; the window is compared in whole seconds. */
  predicate InWindow(iat: int, now: int) {
    now / 1000 - 60 <= iat <= now / 1000 + 5
  }

  /** The database clock as the statements of one verification read it, and the nonce it would draw. */
  datatype Readings = Readings(checkedAt: int, nonceFrom: int, issuedAt: int, from: int, at: int, prunedAt: int, random: string)

  predicate NonceHeld(t: Tables, verifier: string, jkt: string, p: Proof, c: Readings) {
    p.nonce.Some? && Text(p.nonce.value) && Answer(t, Event(c.checkedAt, CheckNonce(Key(verifier, jkt, p.nonce.value))))
  }

  predicate Consumable(t: Tables, verifier: string, jkt: string, p: Proof, c: Readings) {
    Answer(t, Event(c.at, Consume(Key(verifier, jkt, p.jti), c.from)))
  }

  /** What verify answers on given tables: claims and window first, then the nonce, then the consumption. */
  function VerifyAnswer(t: Tables, verifier: string, jkt: string, p: Proof, now: int, c: Readings): Result<(), VerifyError> {
    if !(p.sound && Text(p.jti) && InWindow(p.iat, now)) then Err(InvalidProof)
    else if !NonceHeld(t, verifier, jkt, p, c) then
      var issued := Answer(After(t, Event(c.nonceFrom, PruneNonces)), Event(c.issuedAt, InsertNonce(Key(verifier, jkt, c.random))));
      Err(if issued then UseNonce(c.random) else Unavailable)
    else if Consumable(t, verifier, jkt, p, c) then Ok(()) else Err(InvalidProof)
  }

  /** The tables it leaves. */
  function VerifyAfter(t: Tables, verifier: string, jkt: string, p: Proof, now: int, c: Readings): Tables {
    if !(p.sound && Text(p.jti) && InWindow(p.iat, now)) then t
    else if !NonceHeld(t, verifier, jkt, p, c) then
      After(After(t, Event(c.nonceFrom, PruneNonces)), Event(c.issuedAt, InsertNonce(Key(verifier, jkt, c.random))))
    else
      After(After(t, Event(c.at, Consume(Key(verifier, jkt, p.jti), c.from))), Event(c.prunedAt, PruneProofs))
  }

  /** The proof is sound, its id is a text of 1 to 255 characters, and it was issued at most 60 s ago and 5 s ahead. */
  predicate WellFormed(p: Proof, now: int) {
    p.sound && 1 <= |p.jti| <= 255 && now / 1000 - 60 <= p.iat <= now / 1000 + 5
  }

  /** The proof names a nonce stored for this key and not expired when it is checked. */
  predicate Challenged(t: Tables, verifier: string, jkt: string, p: Proof, at: int) {
    && p.nonce.Some? && 1 <= |p.nonce.value| <= 255
    && var k := Key(verifier, jkt, p.nonce.value); k in t.nonces && at < t.nonces[k]
  }

  /**
   What each answer means: accepted exactly when well formed, challenged and new; given a nonce exactly when well formed
   and not challenged, the drawn nonce being new; otherwise invalid, or unavailable for a nonce already stored.
   */
  lemma VerifyAnswersExactly(t: Tables, verifier: string, jkt: string, p: Proof, now: int, c: Readings)
    ensures var answer := VerifyAnswer(t, verifier, jkt, p, now, c);
      var proof, drawn := Key(verifier, jkt, p.jti), Key(verifier, jkt, c.random);
      && (answer == Ok(()) <==>
            WellFormed(p, now) && Challenged(t, verifier, jkt, p, c.checkedAt) && (proof in t.proofs ==> t.proofs[proof] <= c.at))
      && (answer == Err(UseNonce(c.random)) <==>
            WellFormed(p, now) && !Challenged(t, verifier, jkt, p, c.checkedAt) && (drawn in t.nonces ==> t.nonces[drawn] <= c.nonceFrom))
      && (answer == Err(Unavailable) <==>
            WellFormed(p, now) && !Challenged(t, verifier, jkt, p, c.checkedAt) && drawn in t.nonces && c.nonceFrom < t.nonces[drawn])
      && (answer.Err? ==> answer.error == InvalidProof || answer.error == UseNonce(c.random) || answer.error == Unavailable)
  {}

  /** Row k as it stands, unless it expires by the given time. */
  predicate Survives(rows: map<Key, int>, k: Key, expires: int, at: int) {
    k in rows && rows[k] == expires && at < expires
  }

  /**
   What each call leaves, row by row: an ill-formed proof touches nothing; a missing challenge stores the drawn nonce for
   a minute; a challenged proof leaves the nonces alone and, if new, is consumed for two; only expired rows are deleted.
   */
  lemma VerifyLeavesExactly(t: Tables, verifier: string, jkt: string, p: Proof, now: int, c: Readings, k: Key, expires: int)
    ensures var after := VerifyAfter(t, verifier, jkt, p, now, c);
      var proof, drawn := Key(verifier, jkt, p.jti), Key(verifier, jkt, c.random);
      var challenged := Challenged(t, verifier, jkt, p, c.checkedAt);
      && (!WellFormed(p, now) ==> after == t)
      && (WellFormed(p, now) && !challenged ==>
            && after.proofs == t.proofs
            && (k in after.nonces && after.nonces[k] == expires <==>
                  || Survives(t.nonces, k, expires, c.nonceFrom)
                  || (k == drawn && expires == c.issuedAt + 60000 && (k in t.nonces ==> t.nonces[k] <= c.nonceFrom))))
      && (WellFormed(p, now) && challenged ==>
            && after.nonces == t.nonces
            && (k in after.proofs && after.proofs[k] == expires <==>
                  if k == proof && (k in t.proofs ==> t.proofs[k] <= c.at) then expires == c.from + 120000 && c.prunedAt < expires
                  else Survives(t.proofs, k, expires, c.prunedAt)))
  {}

  /**
   The challenge works: the nonce a caller is told is accepted with a well-formed new proof exactly until a minute
   after it was stored.
   */
  lemma ChallengeWorksExactly(t: Tables, verifier: string, jkt: string, p: Proof, now: int, c: Readings,
                              answer: Proof, later: int, d: Readings)
    requires VerifyAnswer(t, verifier, jkt, p, now, c) == Err(UseNonce(c.random)) && 1 <= |c.random| <= 255
    requires WellFormed(answer, later) && answer.nonce == Some(c.random) && Key(verifier, jkt, answer.jti) !in t.proofs
    ensures VerifyAnswer(VerifyAfter(t, verifier, jkt, p, now, c), verifier, jkt, answer, later, d) == Ok(())
       <==> d.checkedAt < c.issuedAt + 60000
  {}

  class ManagementVerifier {
    const resource: string
    const store: ReplayStore

    constructor (resource: string, store: ReplayStore)
      ensures this.resource == resource && this.store == store
    {
      this.resource, this.store := resource, store;
    }

    /** The part of verify that decides whether a sound proof is used for the first time. */
    method Verify(jkt: string, p: Proof, now: int, c: Readings) returns (r: Result<(), VerifyError>)
      modifies store
      ensures r == VerifyAnswer(old(store.State()), resource, jkt, p, now, c)
      ensures store.State() == VerifyAfter(old(store.State()), resource, jkt, p, now, c)
    {
      if !p.sound || !Text(p.jti) || p.iat < now / 1000 - 60 || p.iat > now / 1000 + 5 { return Err(InvalidProof); }
      var held := false;
      if p.nonce.Some? && Text(p.nonce.value) {
        held := store.ValidNonce(resource, jkt, p.nonce.value, c.checkedAt);
      }
      if !held {
        var issued := store.IssueNonce(resource, jkt, c.random, c.nonceFrom, c.issuedAt);
        return Err(if issued then UseNonce(c.random) else Unavailable);
      }
      var consumed := store.ConsumeProof(resource, jkt, p.jti, c.from, c.at, c.prunedAt);
      return if consumed then Ok(()) else Err(InvalidProof);
    }
  }

  // ---------------------------------------------------------------- runs of all replicas

  /** The database clock never goes back, and an upsert builds its row before it compares. */
  ghost predicate Clocked(run: seq<Event>) {
    && (forall m, n | 0 <= m <= n < |run| :: run[m].at <= run[n].at)
    && (forall n | 0 <= n < |run| && run[n].op.Consume? :: run[n].op.from <= run[n].at)
  }

  /** No nonce is drawn twice. */
  ghost predicate FreshNonces(run: seq<Event>) {
    forall m, n | 0 <= m < n < |run| && run[m].op.InsertNonce? && run[n].op.InsertNonce? :: run[m].op.key != run[n].op.key
  }

  /** The tables before event `n` of a run that starts on empty tables. */
  function TablesAt(run: seq<Event>, n: nat): Tables
    requires n <= |run|
  {
    if n == 0 then Tables(map[], map[]) else After(TablesAt(run, n - 1), run[n - 1])
  }

  function KeptAt(run: seq<Event>, n: nat): Tables
    requires n <= |run|
  {
    if n == 0 then Tables(map[], map[]) else AfterKept(KeptAt(run, n - 1), run[n - 1])
  }

  predicate Answered(run: seq<Event>, n: nat)
    requires n < |run|
  {
    Answer(TablesAt(run, n), run[n])
  }

  /** Rows agree wherever both stores have one, and a row only the full store has is out of date. */
  ghost predicate Simulates(pruned: map<Key, int>, kept: map<Key, int>, clock: int) {
    && (forall k | k in pruned :: k in kept && pruned[k] == kept[k])
    && (forall k | k in kept && k !in pruned :: kept[k] <= clock)
  }

  ghost predicate Inserted(run: seq<Event>, n: nat, k: Key, expires: int)
    requires n <= |run|
  {
    exists m | 0 <= m < n :: run[m].op == InsertNonce(k) && expires == run[m].at + NONCE_TTL
  }

  lemma {:induction false} KeptNonceInserted(run: seq<Event>, n: nat, k: Key)
    requires n <= |run| && k in KeptAt(run, n).nonces
    ensures Inserted(run, n, k, KeptAt(run, n).nonces[k])
  {
    if n > 0 {
      if k in KeptAt(run, n - 1).nonces { KeptNonceInserted(run, n - 1, k); }
      if run[n - 1].op == InsertNonce(k) && k !in KeptAt(run, n - 1).nonces {
        assert KeptAt(run, n).nonces[k] == run[n - 1].at + NONCE_TTL;
      }
    }
  }

  lemma {:induction false} StoresSimulate(run: seq<Event>, n: nat, clock: int)
    requires Clocked(run) && FreshNonces(run) && n <= |run|
    requires n > 0 ==> run[n - 1].at <= clock
    ensures Simulates(TablesAt(run, n).nonces, KeptAt(run, n).nonces, clock)
    ensures Simulates(TablesAt(run, n).proofs, KeptAt(run, n).proofs, clock)
  {
    if n > 0 {
      var e, kept := run[n - 1], KeptAt(run, n - 1);
      StoresSimulate(run, n - 1, e.at);
      if e.op.InsertNonce? && e.op.key in kept.nonces {
        KeptNonceInserted(run, n - 1, e.op.key);
      }
    }
  }

  /** Deleting expired rows is unobservable: every statement of every run answers as if nothing were ever deleted. */
  lemma PruningUnobservable(run: seq<Event>, n: nat)
    requires Clocked(run) && FreshNonces(run) && n < |run|
    ensures Answer(TablesAt(run, n), run[n]) == Answer(KeptAt(run, n), run[n])
  {
    StoresSimulate(run, n, run[n].at);
    if run[n].op.InsertNonce? && run[n].op.key in KeptAt(run, n).nonces {
      KeptNonceInserted(run, n, run[n].op.key);
    }
  }

  lemma {:induction false} ConsumedUntil(run: seq<Event>, m: nat, n: nat)
    requires Clocked(run) && m < n <= |run| && run[m].op.Consume? && Answered(run, m)
    ensures var key, until := run[m].op.key, run[m].op.from + PROOF_TTL; var proofs := TablesAt(run, n).proofs;
            (key in proofs && proofs[key] == until) || until <= run[n - 1].at
  {
    if n > m + 1 {
      ConsumedUntil(run, m, n - 1);
      assert run[n - 2].at <= run[n - 1].at;
    }
  }

  /** Two consumptions of one proof are two minutes apart, even when the row was pruned in between. */
  lemma ConsumptionsSpaced(run: seq<Event>, m: nat, n: nat)
    requires Clocked(run) && m < n < |run|
    requires run[m].op.Consume? && run[n].op.Consume? && run[m].op.key == run[n].op.key
    requires Answered(run, m) && Answered(run, n)
    ensures run[m].op.from + PROOF_TTL <= run[n].at
  {
    ConsumedUntil(run, m, n);
    assert run[n - 1].at <= run[n].at;
  }

  /** A nonce that passes twice passes within its one minute, counted from before the first pass. */
  lemma NonceLivesOnce(run: seq<Event>, m: nat, n: nat)
    requires Clocked(run) && FreshNonces(run) && m < |run| && n < |run|
    requires run[m].op.CheckNonce? && run[m].op == run[n].op && Answered(run, m) && Answered(run, n)
    ensures run[n].at < run[m].at + NONCE_TTL
  {
    var k := run[m].op.key;
    StoresSimulate(run, m, run[m].at);
    StoresSimulate(run, n, run[n].at);
    KeptNonceInserted(run, m, k);
    KeptNonceInserted(run, n, k);
    var a :| 0 <= a < m && run[a].op == InsertNonce(k) && KeptAt(run, m).nonces[k] == run[a].at + NONCE_TTL;
    var b :| 0 <= b < n && run[b].op == InsertNonce(k) && KeptAt(run, n).nonces[k] == run[b].at + NONCE_TTL;
    assert a == b;
  }

  /** The event consumes the proof, successfully or not. */
  predicate Consumes(e: Event, proof: Key) {
    e.op.Consume? && e.op.key == proof
  }

  lemma {:induction false} NonceKept(run: seq<Event>, m: nat, n: nat)
    requires m < n <= |run| && run[m].op.InsertNonce? && Answer(KeptAt(run, m), run[m])
    ensures var k := run[m].op.key; k in KeptAt(run, n).nonces && KeptAt(run, n).nonces[k] == run[m].at + 60000
  {
    if m + 1 < n { NonceKept(run, m, n - 1); }
  }

  /** A stored nonce passes every check of the next minute and none after, whatever else runs and is deleted. */
  lemma NonceLivesExactly(run: seq<Event>, m: nat, n: nat)
    requires Clocked(run) && FreshNonces(run) && m < n < |run|
    requires run[m].op.InsertNonce? && Answered(run, m) && run[n].op == CheckNonce(run[m].op.key)
    ensures Answered(run, n) <==> run[n].at < run[m].at + 60000
  {
    PruningUnobservable(run, m);
    PruningUnobservable(run, n);
    NonceKept(run, m, n);
  }

  /** No consumption of the proof is attempted between the two moments. */
  ghost predicate Unattempted(run: seq<Event>, m: nat, n: nat, proof: Key)
    requires m <= n <= |run|
  {
    forall k | m <= k < n :: !Consumes(run[k], proof)
  }

  lemma {:induction false} ProofKept(run: seq<Event>, m: nat, n: nat)
    requires m < n <= |run| && run[m].op.Consume? && Answer(KeptAt(run, m), run[m]) && Unattempted(run, m + 1, n, run[m].op.key)
    ensures var k := run[m].op.key; k in KeptAt(run, n).proofs && KeptAt(run, n).proofs[k] == run[m].op.from + 120000
  {
    if m + 1 < n {
      ProofKept(run, m, n - 1);
      assert !Consumes(run[n - 1], run[m].op.key);
    }
  }

  /** After a consumption the next attempt fails for exactly two minutes from when the row was built. */
  lemma ConsumptionLastsExactly(run: seq<Event>, m: nat, n: nat)
    requires Clocked(run) && FreshNonces(run) && m < n < |run|
    requires run[m].op.Consume? && Answered(run, m) && Consumes(run[n], run[m].op.key) && Unattempted(run, m + 1, n, run[m].op.key)
    ensures Answered(run, n) <==> run[m].op.from + 120000 <= run[n].at
  {
    PruningUnobservable(run, m);
    PruningUnobservable(run, n);
    ProofKept(run, m, n);
  }

  /** One verification inside a run: where it read its clock, checked its nonce and consumed its proof. */
  datatype Call = Call(read: nat, check: nat, consume: nat, nonce: Key, proof: Key, iat: int)

  ghost predicate Accepted(run: seq<Event>, v: Call) {
    && v.read < v.check < v.consume < |run|
    && run[v.read].op.ReadClock? && InWindow(v.iat, run[v.read].op.now)
    && run[v.check].op == CheckNonce(v.nonce) && Answered(run, v.check)
    && run[v.consume].op.Consume? && run[v.consume].op.key == v.proof && Answered(run, v.consume)
    && run[v.check].at <= run[v.consume].op.from
  }

  /** Only consumptions of the same proof change what a consumption answers; pruning and other rows do not. */
  lemma {:induction false} ConsumableStays(run: seq<Event>, m: nat, n: nat, e: Event)
    requires Clocked(run) && m <= n <= |run| && e.op.Consume?
    requires forall i | m <= i < n :: run[i].at <= e.at && !Consumes(run[i], e.op.key)
    ensures Answer(TablesAt(run, m), e) == Answer(TablesAt(run, n), e)
  {
    if m < n {
      ConsumableStays(run, m, n - 1, e);
      StepKeepsConsumable(TablesAt(run, n - 1), run[n - 1], e);
    }
  }

  lemma StepKeepsConsumable(t: Tables, step: Event, e: Event)
    requires e.op.Consume? && step.at <= e.at && !Consumes(step, e.op.key)
    ensures Answer(t, e) == Answer(After(t, step), e)
  {}

  /**
   On the tables its nonce check reads, the verifier's method accepts a proof exactly when the proof is sound with
   well-formed claims and its three statements form an accepted call of the run: wherever they stand in it, and
   whatever other statements fall between them, except another consumption of the same proof.
   */
  lemma VerifyIsCall(run: seq<Event>, v: Call, resource: string, jkt: string, p: Proof, nonce: string, now: int, c: Readings)
    requires Clocked(run) && v.read < v.check < v.consume < |run| && c.checkedAt <= c.from
    requires p.nonce == Some(nonce) && v.nonce == Key(resource, jkt, nonce) && v.proof == Key(resource, jkt, p.jti) && v.iat == p.iat
    requires run[v.read].op == ReadClock(now) && run[v.check] == Event(c.checkedAt, CheckNonce(v.nonce))
    requires run[v.consume] == Event(c.at, Consume(v.proof, c.from))
    requires forall i | v.check < i < v.consume :: !Consumes(run[i], v.proof)
    ensures VerifyAnswer(TablesAt(run, v.check), resource, jkt, p, now, c) == Ok(())
      <==> p.sound && Text(p.jti) && Text(nonce) && Accepted(run, v)
  {
    ConsumableStays(run, v.check, v.consume, run[v.consume]);
  }

  ghost predicate SkewWithin(run: seq<Event>, skew: int) {
    forall n | 0 <= n < |run| && run[n].op.ReadClock? :: -skew <= run[n].op.now - run[n].at <= skew
  }

  /**
   A proof accepted twice, on any replicas, took the second time more than a minute from its nonce check to its
   consumption; so a proof is single use wherever verification is faster than that.
   */
  lemma SecondUseIsSlow(run: seq<Event>, v: Call, w: Call)
    requires Clocked(run) && FreshNonces(run) && Accepted(run, v) && Accepted(run, w)
    requires v.consume < w.consume && v.proof == w.proof && v.nonce == w.nonce
    ensures run[w.consume].at - run[w.check].at > PROOF_TTL - NONCE_TTL
  {
    ConsumptionsSpaced(run, v.consume, w.consume);
    NonceLivesOnce(run, v.check, w.check);
  }

  /**
   What the issue-time window gives alone, for a store whose nonces cannot be trusted: a second use needs skew and
   latency to add up to more than 54 s. With fresh nonces SecondUseIsSlow says more, since a proof signs its nonce.
   */
  lemma SecondUseNeedsSkew(run: seq<Event>, v: Call, w: Call, skew: int)
    requires Clocked(run) && SkewWithin(run, skew) && Accepted(run, v) && Accepted(run, w)
    requires v.consume < w.consume && v.proof == w.proof && v.iat == w.iat
    ensures 2 * skew + (run[w.consume].at - run[w.read].at) > 54000
  {
    ConsumptionsSpaced(run, v.consume, w.consume);
    assert run[w.read].op.now < run[v.read].op.now + 66000;
  }

  /** The minute is sharp: a nonce check answered just in time and a consumption 60001 ms later do replay. */
  lemma SlowCallReplays()
    ensures exists run: seq<Event>, v: Call, w: Call ::
              && Clocked(run) && FreshNonces(run) && Accepted(run, v) && Accepted(run, w)
              && v.consume < w.consume && v.proof == w.proof && v.nonce == w.nonce
              && run[w.consume].at - run[w.check].at == PROOF_TTL - NONCE_TTL + 1
  {
    var k, j := Key([], [], ['n']), Key([], [], ['j']);
    var run := [
      Event(0, InsertNonce(k)), Event(0, ReadClock(0)), Event(0, CheckNonce(k)), Event(0, Consume(j, 0)),
      Event(59999, ReadClock(59999)), Event(59999, CheckNonce(k)), Event(120000, Consume(j, 120000))];
    var v, w := Call(1, 2, 3, k, j, 0), Call(4, 5, 6, k, j, 0);
    var issued := Tables(map[k := 60000], map[]);
    var used := Tables(map[k := 60000], map[j := 120000]);
    assert TablesAt(run, 1) == issued;
    assert TablesAt(run, 2) == issued;
    assert TablesAt(run, 3) == issued;
    assert TablesAt(run, 4) == used;
    assert TablesAt(run, 5) == used;
    assert TablesAt(run, 6) == used;
    assert Accepted(run, v) && Accepted(run, w);
  }

  /** One proof used twice under two nonces, with a fast gateway clock first and a slow one then. */
  function UsesUnderSkew(skew: nat, first: Key, second: Key, proof: Key): seq<Event> {
    var a, b, c := 1000000 - skew, 1065999 + skew, 1120000 - skew;
    [Event(a, InsertNonce(first)), Event(a, ReadClock(1000000)), Event(a, CheckNonce(first)), Event(a, Consume(proof, a)),
     Event(b, InsertNonce(second)), Event(b, ReadClock(1065999)), Event(b, CheckNonce(second)), Event(c, Consume(proof, c))]
  }

  lemma UsesAccepted(skew: nat, first: Key, second: Key, proof: Key)
    requires 2 * skew <= 54001 && first != second
    ensures Accepted(UsesUnderSkew(skew, first, second, proof), Call(1, 2, 3, first, proof, 1005))
    ensures Accepted(UsesUnderSkew(skew, first, second, proof), Call(5, 6, 7, second, proof, 1005))
  {
    var run, a, b := UsesUnderSkew(skew, first, second, proof), 1000000 - skew, 1065999 + skew;
    var issued := Tables(map[first := a + NONCE_TTL], map[]);
    var used := Tables(issued.nonces, map[proof := a + PROOF_TTL]);
    var both := Tables(used.nonces[second := b + NONCE_TTL], used.proofs);
    assert TablesAt(run, 1) == issued;
    assert TablesAt(run, 2) == issued;
    assert TablesAt(run, 3) == issued;
    assert TablesAt(run, 4) == used;
    assert TablesAt(run, 5) == both;
    assert TablesAt(run, 6) == both;
    assert TablesAt(run, 7) == both;
  }

  /** The 54 s are sharp, for every skew: under two different nonces, a second use at 54001 ms succeeds. */
  lemma WindowReplays(skew: nat)
    requires 2 * skew <= 54001
    ensures exists run: seq<Event>, v: Call, w: Call ::
              && Clocked(run) && FreshNonces(run) && SkewWithin(run, skew) && Accepted(run, v) && Accepted(run, w)
              && v.consume < w.consume && v.proof == w.proof && v.iat == w.iat
              && 2 * skew + (run[w.consume].at - run[w.read].at) == 54001
  {
    var first, second, proof := Key([], [], ['m']), Key([], [], ['n']), Key([], [], ['j']);
    var run, v, w := UsesUnderSkew(skew, first, second, proof), Call(1, 2, 3, first, proof, 1005), Call(5, 6, 7, second, proof, 1005);
    UsesAccepted(skew, first, second, proof);
    assert Clocked(run) && FreshNonces(run) && SkewWithin(run, skew);
    assert 2 * skew + (run[w.consume].at - run[w.read].at) == 54001;
  }
}
