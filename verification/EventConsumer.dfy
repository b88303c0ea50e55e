/** The consumer loop around one event inbox: acknowledgement, retries, dead letters and post-commit effects. */
module EventConsumer {
  import opened Prelude
  import opened IamInbox

  const MAX_ATTEMPTS := 5

  /** What a stream entry holds: garbage, an event of another tenant, or one of ours; `ends` marks events that end sessions. */
  datatype Data = Malformed | Foreign | Ours(delivery: Delivery<string>, ends: bool)

  /**
   How an attempt ends: it throws in the transaction, in the effects after it, acknowledging, or clearing the
   counter; or its process dies once the transaction, the effects or the acknowledgement are done; or it completes.
   A process that dies earlier leaves nothing behind.
   */
  datatype Fate =
    | RollsBack | FailsEnding | FailsAcking | FailsClearing
    | DiesCommitted | DiesEnded | DiesAcked
    | Completes

  /**
   `retries` are the counters in Redis, `dead` the dead-letter stream, and `ended` the events whose sessions were
   ended, in order.
   */
  datatype Fields = Fields(
    inbox: Table<string>, acked: set<string>, retries: map<string, nat>, dead: seq<string>, ended: seq<string>)

  const EMPTY := Fields(Table({}, map[]), {}, map[], [], [])

  /** One delivery of entry `id` to a consumer, or the daily expiry of its counter. */
  datatype Event = Attempt(id: string, fate: Fate) | Expire(id: string)

  function Retries(b: Fields, id: string): nat {
    if id in b.retries then b.retries[id] else 0
  }

  /** The transaction of one attempt; only our events have one. */
  function Committed(b: Fields, data: Data): Fields {
    if data.Ours? then b.(inbox := Receive(b.inbox, data.delivery)) else b
  }

  /** The attempt ends sessions: its own transaction moved the state row, for an event of that kind. */
  predicate Ends(b: Fields, data: Data) {
    data.Ours? && data.ends && Applies(b.inbox, data.delivery)
  }

  function Ended(b: Fields, data: Data): Fields {
    if Ends(b, data) then Committed(b, data).(ended := b.ended + [data.delivery.notice.id]) else Committed(b, data)
  }

  /** The catch block. */
  function Counted(b: Fields, id: string): Fields {
    var n := Retries(b, id) + 1;
    var counted := b.(retries := b.retries[id := n]);
    if n >= MAX_ATTEMPTS then counted.(dead := b.dead + [id], acked := b.acked + {id}) else counted
  }

  function Acknowledged(b: Fields, id: string): Fields {
    b.(acked := b.acked + {id})
  }

  predicate Dies(fate: Fate) {
    fate == DiesCommitted || fate == DiesEnded || fate == DiesAcked
  }

  /** What the try block has done by the time it throws, dies or completes. */
  function Tried(b: Fields, data: Data, id: string, fate: Fate): Fields {
    if data.Malformed? || (data.Ours? && fate == RollsBack) then b
    else if fate == DiesCommitted || (fate == FailsEnding && Ends(b, data)) then Committed(b, data)
    else if fate == DiesEnded || fate == FailsAcking then Ended(b, data)
    else
      var acknowledged := Acknowledged(Ended(b, data), id);
      if fate == DiesAcked || fate == FailsClearing then acknowledged
      else acknowledged.(retries := acknowledged.retries - {id})
  }

  /** The catch block runs. */
  predicate Throws(b: Fields, data: Data, fate: Fate) {
    && !Dies(fate)
    && (data.Malformed? || (data.Ours? && fate == RollsBack) || (fate == FailsEnding && Ends(b, data))
        || fate == FailsAcking || fate == FailsClearing)
  }

  function After(b: Fields, data: Data, e: Event): Fields {
    match e
    case Expire(id) => b.(retries := b.retries - {id})
    case Attempt(id, fate) =>
      if Throws(b, data, fate) then Counted(Tried(b, data, id, fate), id) else Tried(b, data, id, fate)
  }

  /** How far an attempt gets: nothing, the transaction, the effects, the acknowledgement, or the cleared counter. */
  datatype Stage = Nothing | Transaction | Effects | Acknowledgement | Clearing

  predicate ToEnd(b: Fields, data: Data) {
    && data.Ours? && data.ends && data.delivery.notice.id !in b.inbox.receipts
    && (data.delivery.key in b.inbox.rows ==>
          var row := b.inbox.rows[data.delivery.key]; row.version < data.delivery.notice.version && row.status != Withdrawn)
  }

  function StageOf(b: Fields, data: Data, fate: Fate): Stage {
    if data.Malformed? then Nothing
    else match fate
      case RollsBack => if data.Ours? then Nothing else Clearing
      case DiesCommitted => Transaction
      case FailsEnding => if ToEnd(b, data) then Transaction else Clearing
      case DiesEnded => Effects
      case FailsAcking => Effects
      case DiesAcked => Acknowledgement
      case FailsClearing => Acknowledgement
      case Completes => Clearing
  }

  /** What an attempt leaves of its event: the receipt and row from the transaction on, the ended sessions from the effects on. */
  lemma AttemptEffectsExactly(b: Fields, data: Data, id: string, fate: Fate)
    ensures var after, stage := After(b, data, Attempt(id, fate)), StageOf(b, data, fate);
      && after.inbox == (if data.Ours? && stage != Nothing then Receive(b.inbox, data.delivery) else b.inbox)
      && after.ended == (if ToEnd(b, data) && stage != Nothing && stage != Transaction then b.ended + [data.delivery.notice.id] else b.ended)
  {}

  /** The attempt is counted: it stops short of the end, and not because its process dies. */
  predicate FallsShort(b: Fields, data: Data, fate: Fate) {
    StageOf(b, data, fate) != Clearing && fate !in {DiesCommitted, DiesEnded, DiesAcked}
  }

  lemma ThrowsExactly(b: Fields, data: Data, fate: Fate)
    ensures Throws(b, data, fate) <==> FallsShort(b, data, fate)
  {}

  /** What it does to its entry: a thrown attempt is counted and the fifth parks and acknowledges; a complete one clears the counter. */
  lemma AttemptCountsExactly(b: Fields, data: Data, id: string, fate: Fate)
    ensures var after, stage := After(b, data, Attempt(id, fate)), StageOf(b, data, fate);
      var counted, attempts := FallsShort(b, data, fate), 1 + if id in b.retries then b.retries[id] else 0;
      && after.retries == (if counted then b.retries[id := attempts] else if stage == Clearing then b.retries - {id} else b.retries)
      && after.dead == (if counted && attempts >= 5 then b.dead + [id] else b.dead)
      && after.acked == (if stage == Acknowledgement || stage == Clearing || (counted && attempts >= 5) then b.acked + {id} else b.acked)
  {
    ThrowsExactly(b, data, fate);
  }

  /** The daily expiry forgets the failures of its entry and nothing else. */
  lemma ExpiryExactly(b: Fields, data: Data, id: string, other: string)
    ensures var after := After(b, data, Expire(id));
      && Retries(after, other) == (if other == id then 0 else Retries(b, other))
      && after == Fields(b.inbox, b.acked, after.retries, b.dead, b.ended)
  {}

  class Consumer {
    var inbox: Table<string>
    var acked: set<string>
    var retries: map<string, nat>
    var dead: seq<string>
    var ended: seq<string>

    constructor ()
      ensures State() == EMPTY
    {
      inbox, acked, retries, dead, ended := Table({}, map[]), {}, map[], [], [];
    }

    function State(): Fields
      reads this
    {
      Fields(inbox, acked, retries, dead, ended)
    }

    /** The try block of process, up to where it ends; the result tells whether it threw. */
    method Try(id: string, data: Data, fate: Fate) returns (threw: bool)
      modifies `inbox, `acked, `retries, `ended
      ensures threw == Throws(old(State()), data, fate)
      ensures State() == Tried(old(State()), data, id, fate)
    {
      if data.Malformed? { return !Dies(fate); }
      if data.Ours? {
        if fate == RollsBack { return true; }
        var applied := Applies(inbox, data.delivery);
        inbox := Receive(inbox, data.delivery);
        if fate == DiesCommitted { return false; }
        if applied && data.ends {
          if fate == FailsEnding { return true; }
          ended := ended + [data.delivery.notice.id];
        }
      }
      if fate == DiesCommitted || fate == DiesEnded { return false; }
      if fate == FailsAcking { return true; }
      acked := acked + {id};
      if fate == DiesAcked { return false; }
      if fate == FailsClearing { return true; }
      retries := retries - {id};
      return false;
    }

    /** process: a thrown attempt is counted, and the fifth parks the entry and acknowledges it. */
    method Process(id: string, data: Data, fate: Fate)
      modifies this
      ensures State() == After(old(State()), data, Attempt(id, fate))
    {
      var threw := Try(id, data, fate);
      if threw {
        var attempts := (if id in retries then retries[id] else 0) + 1;
        retries := retries[id := attempts];
        if attempts >= MAX_ATTEMPTS {
          dead := dead + [id];
          acked := acked + {id};
        }
      }
    }
  }

  // ---------------------------------------------------------------- histories

  /** Any number of consumers, any redelivery; `content` is what each stream entry holds. */
  function At(content: string -> Data, h: seq<Event>, n: nat): Fields
    requires n <= |h|
  {
    if n == 0 then EMPTY else After(At(content, h, n - 1), content(h[n - 1].id), h[n - 1])
  }

  predicate ThrewAt(content: string -> Data, h: seq<Event>, n: nat, id: string)
    requires n < |h|
  {
    h[n].Attempt? && h[n].id == id && Throws(At(content, h, n), content(id), h[n].fate)
  }

  function Failures(content: string -> Data, h: seq<Event>, n: nat, id: string): nat
    requires n <= |h|
  {
    if n == 0 then 0
    else Failures(content, h, n - 1, id) + if ThrewAt(content, h, n - 1, id) then 1 else 0
  }

  lemma DeadStays(b: Fields, data: Data, e: Event)
    ensures b.dead <= After(b, data, e).dead
  {}

  /** What an acknowledgement is worth: garbage is parked, and an event of ours is parked or has its receipt stored. */
  predicate Settled(b: Fields, data: Data, id: string) {
    match data
    case Malformed => id in b.dead
    case Foreign => true
    case Ours(d, _) => id in b.dead || d.notice.id in b.inbox.receipts
  }

  lemma AckSettles(b: Fields, data: Data, e: Event, id: string)
    requires id in After(b, data, e).acked && id !in b.acked
    ensures e.Attempt? && e.id == id && Settled(After(b, data, e), data, id)
  {}

  /**
   No entry is lost: whatever attempts failed where, an acknowledged event of ours has its receipt stored or is
   parked in the dead-letter stream, and acknowledged garbage is parked.
   */
  lemma {:induction false} NothingLost(content: string -> Data, h: seq<Event>, n: nat, id: string)
    requires n <= |h| && id in At(content, h, n).acked
    ensures Settled(At(content, h, n), content(id), id)
  {
    var b, e := At(content, h, n - 1), h[n - 1];
    if id in b.acked {
      NothingLost(content, h, n - 1, id);
      DeadStays(b, content(e.id), e);
      ReceiptsStep(b, content(e.id), e);
    } else {
      AckSettles(b, content(e.id), e, id);
    }
  }

  lemma ReceiptsStep(b: Fields, data: Data, e: Event)
    ensures b.inbox.receipts <= After(b, data, e).inbox.receipts
  {}

  /** The attempt's transaction commits. */
  predicate Commits(data: Data, e: Event) {
    e.Attempt? && data.Ours? && e.fate != RollsBack
  }

  /** The committed deliveries, in commit order. */
  function Deliveries(content: string -> Data, h: seq<Event>, n: nat): seq<Delivery<string>>
    requires n <= |h|
  {
    if n == 0 then []
    else
      var ds, data := Deliveries(content, h, n - 1), content(h[n - 1].id);
      if Commits(data, h[n - 1]) then ds + [data.delivery] else ds
  }

  lemma InboxStep(b: Fields, data: Data, e: Event)
    ensures After(b, data, e).inbox == if Commits(data, e) then Receive(b.inbox, data.delivery) else b.inbox
  {}

  lemma {:induction false} InboxIsLog(content: string -> Data, h: seq<Event>, n: nat)
    requires n <= |h|
    ensures At(content, h, n).inbox == ReceiveAll(Deliveries(content, h, n))
  {
    if n > 0 {
      InboxIsLog(content, h, n - 1);
      var data, ds := content(h[n - 1].id), Deliveries(content, h, n - 1);
      InboxStep(At(content, h, n - 1), data, h[n - 1]);
      if Commits(data, h[n - 1]) { assert (ds + [data.delivery])[..|ds|] == ds; }
    }
  }

  /** Entries with one event id carry one event. */
  ghost predicate ContentIdentifies(content: string -> Data) {
    forall a, b {:trigger content(a), content(b)} ::
      content(a).Ours? && content(b).Ours? && content(a).delivery.notice.id == content(b).delivery.notice.id ==>
        content(a).delivery == content(b).delivery
  }

  lemma {:induction false} DeliveriesFromContent(content: string -> Data, h: seq<Event>, n: nat, i: nat)
    requires n <= |h| && i < |Deliveries(content, h, n)|
    ensures exists id :: content(id).Ours? && content(id).delivery == Deliveries(content, h, n)[i]
  {
    if i < |Deliveries(content, h, n - 1)| {
      DeliveriesFromContent(content, h, n - 1, i);
    } else {
      assert content(h[n - 1].id).Ours?;
    }
  }

  lemma DeliveriesAgree(content: string -> Data, h: seq<Event>, n: nat)
    requires n <= |h| && ContentIdentifies(content)
    ensures DeliveriesIdentify(Deliveries(content, h, n))
  {
    var ds := Deliveries(content, h, n);
    forall i, j | 0 <= i < |ds| && 0 <= j < |ds| && ds[i].notice.id == ds[j].notice.id ensures ds[i] == ds[j] {
      DeliveriesFromContent(content, h, n, i);
      DeliveriesFromContent(content, h, n, j);
    }
  }

  /** An acknowledged event that is not parked is in force: its subject's row is at least as new, or withdrawn. */
  lemma AckedIsInForce(content: string -> Data, h: seq<Event>, n: nat, id: string)
    requires n <= |h| && ContentIdentifies(content)
    requires id in At(content, h, n).acked && id !in At(content, h, n).dead && content(id).Ours?
    ensures var d := content(id).delivery; var row := RowAt(At(content, h, n).inbox, d.key);
            row.Some? && (row.value.version >= d.notice.version || row.value.status == Withdrawn)
  {
    var d, ds := content(id).delivery, Deliveries(content, h, n);
    NothingLost(content, h, n, id);
    InboxIsLog(content, h, n);
    ReceiptsExactly(ds, d.notice.id);
    var i :| 0 <= i < |ds| && ds[i].notice.id == d.notice.id;
    DeliveriesFromContent(content, h, n, i);
    assert ds[i] == d;
    DeliveriesAgree(content, h, n);
    TableRowReachesEach(ds, i);
  }

  lemma RetriesStep(b: Fields, data: Data, e: Event, id: string)
    ensures Retries(After(b, data, e), id) <= Retries(b, id) + if e.Attempt? && e.id == id && Throws(b, data, e.fate) then 1 else 0
    ensures id in After(b, data, e).dead ==> id in b.dead || (e.Attempt? && e.id == id && Retries(After(b, data, e), id) >= MAX_ATTEMPTS)
  {}

  lemma {:induction false} RetriesCount(content: string -> Data, h: seq<Event>, n: nat, id: string)
    requires n <= |h|
    ensures Retries(At(content, h, n), id) <= Failures(content, h, n, id)
  {
    if n > 0 {
      RetriesCount(content, h, n - 1, id);
      RetriesStep(At(content, h, n - 1), content(h[n - 1].id), h[n - 1], id);
    }
  }

  /** An entry is parked only after at least five failed attempts of its own. */
  lemma {:induction false} ParkedAfterFive(content: string -> Data, h: seq<Event>, n: nat, id: string)
    requires n <= |h| && id in At(content, h, n).dead
    ensures Failures(content, h, n, id) >= 5
  {
    var b, e := At(content, h, n - 1), h[n - 1];
    RetriesStep(b, content(e.id), e, id);
    if id in b.dead {
      ParkedAfterFive(content, h, n - 1, id);
    } else {
      RetriesCount(content, h, n, id);
    }
  }

  /** The attempt commits the event's own receipt, moves its row, and neither throws nor dies before its sessions are ended. */
  predicate EndsNow(b: Fields, data: Data, e: Event, eventId: string) {
    && e.Attempt? && Ends(b, data) && data.delivery.notice.id == eventId
    && e.fate != RollsBack && e.fate != FailsEnding && e.fate != DiesCommitted
  }

  /** The ended list after one event, as the list before it tells. */
  function EndedBy(b: Fields, data: Data, e: Event): seq<string> {
    if data.Ours? && EndsNow(b, data, e, data.delivery.notice.id) then b.ended + [data.delivery.notice.id] else b.ended
  }

  lemma EndedStep(b: Fields, data: Data, e: Event)
    ensures After(b, data, e).ended == EndedBy(b, data, e)
  {}

  /** Sessions were ended at most once for the event, and only if it was received. */
  predicate EndedOnce(b: Fields, eventId: string) {
    multiset(b.ended)[eventId] <= 1 && (eventId in b.ended ==> eventId in b.inbox.receipts)
  }

  lemma OnceMore(ended: seq<string>, id: string, eventId: string)
    ensures multiset(ended + [id])[eventId] == multiset(ended)[eventId] + if id == eventId then 1 else 0
    ensures eventId in ended <==> multiset(ended)[eventId] > 0
  {}

  lemma EndedOnceStep(b: Fields, data: Data, e: Event, after: Fields, eventId: string)
    requires EndedOnce(b, eventId) && after.ended == EndedBy(b, data, e)
    requires after.inbox == if Commits(data, e) then Receive(b.inbox, data.delivery) else b.inbox
    ensures EndedOnce(after, eventId)
  {
    if data.Ours? { OnceMore(b.ended, data.delivery.notice.id, eventId); }
  }

  lemma StepEndsOnce(b: Fields, data: Data, e: Event, eventId: string)
    requires EndedOnce(b, eventId)
    ensures EndedOnce(After(b, data, e), eventId)
  {
    EndedStep(b, data, e);
    InboxStep(b, data, e);
    EndedOnceStep(b, data, e, After(b, data, e), eventId);
  }

  /** Over any attempts of any consumers, sessions are ended at most once per event, and only for a received event. */
  lemma {:induction false} EndedAtMostOnce(content: string -> Data, h: seq<Event>, n: nat, eventId: string)
    requires n <= |h|
    ensures EndedOnce(At(content, h, n), eventId)
  {
    if n > 0 {
      EndedAtMostOnce(content, h, n - 1, eventId);
      StepEndsOnce(At(content, h, n - 1), content(h[n - 1].id), h[n - 1], eventId);
    }
  }

  /** The event was received and its sessions were ended, or received and not ended. */
  predicate Decided(b: Fields, eventId: string, ended: bool) {
    eventId in b.inbox.receipts && (eventId in b.ended <==> ended)
  }

  lemma StepKeepsDecided(b: Fields, data: Data, e: Event, eventId: string, ended: bool)
    requires Decided(b, eventId, ended)
    ensures Decided(After(b, data, e), eventId, ended)
  {
    EndedStep(b, data, e);
    InboxStep(b, data, e);
  }

  /** Once an event is received, it is settled for good whether its sessions were ended. */
  lemma {:induction false} DecidedForGood(content: string -> Data, h: seq<Event>, m: nat, n: nat, eventId: string, ended: bool)
    requires m <= n <= |h| && Decided(At(content, h, m), eventId, ended)
    ensures Decided(At(content, h, n), eventId, ended)
  {
    if m < n {
      DecidedForGood(content, h, m, n - 1, eventId, ended);
      StepKeepsDecided(At(content, h, n - 1), content(h[n - 1].id), h[n - 1], eventId, ended);
    }
  }

  /** The attempt is the first to commit the event: it stores the receipt. */
  predicate FirstCommit(b: Fields, data: Data, e: Event, eventId: string) {
    Commits(data, e) && data.delivery.notice.id == eventId && eventId !in b.inbox.receipts
  }

  /**
   The first committed attempt, and what it decides: the event is of a kind that ends sessions, it supersedes the
   row, and the attempt neither throws nor dies before ending them.
   */
  predicate FirstDecision(b: Fields, data: Data, e: Event, eventId: string, ended: bool) {
    && FirstCommit(b, data, e, eventId)
    && (ended <==> data.ends && Supersedes(RowAt(b.inbox, data.delivery.key), data.delivery.notice)
                   && e.fate != FailsEnding && e.fate != DiesCommitted)
  }

  lemma FirstCommitDecides(b: Fields, data: Data, e: Event, eventId: string, ended: bool)
    requires FirstDecision(b, data, e, eventId, ended) && EndedOnce(b, eventId)
    ensures Decided(After(b, data, e), eventId, ended)
  {
    EndedStep(b, data, e);
    InboxStep(b, data, e);
  }

  lemma DecidedNext(content: string -> Data, h: seq<Event>, m: nat, eventId: string, ended: bool)
    requires m < |h| && FirstDecision(At(content, h, m), content(h[m].id), h[m], eventId, ended)
    ensures Decided(At(content, h, m + 1), eventId, ended)
  {
    EndedAtMostOnce(content, h, m, eventId);
    FirstCommitDecides(At(content, h, m), content(h[m].id), h[m], eventId, ended);
  }

  /** Exactly when the sessions of an event are ever ended: its first committed attempt decides, then and for good. */
  lemma {:induction false} EndedExactly(content: string -> Data, h: seq<Event>, m: nat, n: nat, eventId: string, ended: bool)
    requires m < n <= |h| && FirstDecision(At(content, h, m), content(h[m].id), h[m], eventId, ended)
    ensures Decided(At(content, h, n), eventId, ended)
  {
    if n == m + 1 {
      DecidedNext(content, h, m, eventId, ended);
    } else {
      EndedExactly(content, h, m, n - 1, eventId, ended);
      StepKeepsDecided(At(content, h, n - 1), content(h[n - 1].id), h[n - 1], eventId, ended);
    }
  }

  /** An event that no attempt has committed has ended no session, so the previous result covers every case. */
  lemma {:induction false} ReceivedByFirstCommit(content: string -> Data, h: seq<Event>, n: nat, eventId: string) returns (m: nat)
    requires n <= |h| && eventId in At(content, h, n).inbox.receipts
    ensures m < n && FirstCommit(At(content, h, m), content(h[m].id), h[m], eventId)
  {
    InboxStep(At(content, h, n - 1), content(h[n - 1].id), h[n - 1]);
    if eventId in At(content, h, n - 1).inbox.receipts {
      m := ReceivedByFirstCommit(content, h, n - 1, eventId);
    } else {
      m := n - 1;
    }
  }

  /** Once an event's receipt is stored without its sessions ended, no later attempt ever ends them. */
  lemma MissedEndingStaysMissed(content: string -> Data, h: seq<Event>, m: nat, n: nat, eventId: string)
    requires m <= n <= |h| && eventId in At(content, h, m).inbox.receipts && eventId !in At(content, h, m).ended
    ensures eventId in At(content, h, n).inbox.receipts && eventId !in At(content, h, n).ended
  {
    DecidedForGood(content, h, m, n, eventId, false);
  }

  /** One ending that throws, or a process that dies before it, and one retry: acknowledged, nothing parked, no session ended. */
  lemma RetryMissesEnding(content: string -> Data, id: string, fate: Fate)
    requires content(id).Ours? && content(id).ends && (fate == FailsEnding || fate == DiesCommitted)
    ensures var h := [Attempt(id, fate), Attempt(id, Completes)];
            id in At(content, h, 2).acked && At(content, h, 2).dead == [] && At(content, h, 2).ended == []
  {
    var h := [Attempt(id, fate), Attempt(id, Completes)];
    var first := After(EMPTY, content(id), h[0]);
    assert Ends(EMPTY, content(id));
    assert At(content, h, 0) == EMPTY;
    assert At(content, h, 1) == first;
    assert content(id).delivery.notice.id in first.inbox.receipts && !Ends(first, content(id));
  }
}
