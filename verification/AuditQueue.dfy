/** The audit log queue: buffering, one flush at a time, batch inserts, requeueing and eviction. */
module AuditQueue {
  import opened Prelude

  /** An entry as logged; `arguments` is its masked JSON text, and `validAddress` the verdict of the address check. */
  datatype Entry = Entry(
    requestId: Option<string>, userId: string, apiKeyId: Option<string>, toolName: string, status: string, statusCode: int,
    durationMs: real, requestBytes: Option<real>, responseBytes: Option<real>, inputTokens: Option<real>, outputTokens: Option<real>,
    creditsUsed: Option<real>, arguments: Option<string>, ipAddress: Option<string>, validAddress: bool, userAgent: Option<string>)

  datatype Value = Null | Text(s: string) | Whole(n: int) | Decimal(r: real)

  const COLUMNS := 15

  function TextOrNull(s: Option<string>): Value {
    if s.Some? then Text(s.value) else Null
  }

  /** Math.max(0, Math.round(x ?? 0)); Math.round rounds halves up. */
  function Count(x: Option<real>): (v: Value)
    ensures v.Whole? && v.n >= 0
    ensures x.Some? && x.value >= 0.0 ==> v.n as real - 0.5 <= x.value < v.n as real + 0.5
    ensures x.None? || x.value < 0.0 ==> v.n == 0
  {
    Whole(Max(0, ((if x.Some? then x.value else 0.0) + 0.5).Floor))
  }

  /** The fifteen parameters of one row, in the order of the column list. */
  function ColumnValues(e: Entry): (r: seq<Value>)
    ensures |r| == COLUMNS
  {
    [ TextOrNull(e.requestId), Text(e.userId), TextOrNull(e.apiKeyId), Text(e.toolName), Text(e.status), Whole(e.statusCode),
      Count(Some(e.durationMs)), Count(e.requestBytes), Count(e.responseBytes), Count(e.inputTokens), Count(e.outputTokens),
      Decimal(if e.creditsUsed.Some? then e.creditsUsed.value else 0.0), TextOrNull(e.arguments),
      if e.validAddress then TextOrNull(e.ipAddress) else Null, TextOrNull(e.userAgent) ]
  }

  /** The placeholders `$p`, `$p+1`, … of one row. */
  function RowPlaceholders(p: nat): (r: seq<nat>)
    ensures |r| == COLUMNS && forall j | 0 <= j < COLUMNS :: r[j] == p + j
  {
    seq(COLUMNS, j requires 0 <= j < COLUMNS => p + j)
  }

  /** Row i of the insert names the fifteen parameters that hold entry i. */
  predicate RowBound(batch: seq<Entry>, rows: seq<seq<nat>>, values: seq<Value>, i: nat) {
    && i < |batch| && i < |rows| && COLUMNS * i + COLUMNS <= |values|
    && rows[i] == RowPlaceholders(COLUMNS * i + 1)
    && values[COLUMNS * i..COLUMNS * i + COLUMNS] == ColumnValues(batch[i])
  }

  lemma RowBoundStill(batch: seq<Entry>, rows: seq<seq<nat>>, values: seq<Value>, i: nat, row: seq<nat>, more: seq<Value>)
    requires RowBound(batch, rows, values, i)
    ensures RowBound(batch, rows + [row], values + more, i)
  {
    assert (values + more)[COLUMNS * i..COLUMNS * i + COLUMNS] == values[COLUMNS * i..COLUMNS * i + COLUMNS];
  }

  /** Build the multi-row insert of one batch. */
  method BuildInsert(batch: seq<Entry>) returns (rows: seq<seq<nat>>, values: seq<Value>)
    ensures |rows| == |batch| && |values| == COLUMNS * |batch|
    ensures forall i | 0 <= i < |batch| :: RowBound(batch, rows, values, i)
  {
    rows, values := [], [];
    var paramIndex: nat := 1;
    for k := 0 to |batch|
      invariant |rows| == k && |values| == COLUMNS * k && paramIndex == COLUMNS * k + 1
      invariant forall i | 0 <= i < k :: RowBound(batch, rows, values, i)
    {
      var row, columns := RowPlaceholders(paramIndex), ColumnValues(batch[k]);
      forall i | 0 <= i < k ensures RowBound(batch, rows + [row], values + columns, i) {
        RowBoundStill(batch, rows, values, i, row, columns);
      }
      assert (values + columns)[COLUMNS * k..COLUMNS * k + COLUMNS] == columns;
      rows := rows + [row];
      values := values + columns;
      paramIndex := paramIndex + COLUMNS;
    }
  }

  lemma SliceAt(values: seq<Value>, a: nat, j: nat)
    requires a + COLUMNS <= |values| && j < COLUMNS
    ensures values[a..a + COLUMNS][j] == values[a + j]
  {}

  lemma PlaceholdersDiffer(i: nat, j: nat, i2: nat, j2: nat)
    requires j < COLUMNS && j2 < COLUMNS && COLUMNS * i + j == COLUMNS * i2 + j2
    ensures i == i2 && j == j2
  {}

  /** The value behind placeholder j of row i is column j of entry i. */
  lemma PlaceholderResolves(batch: seq<Entry>, rows: seq<seq<nat>>, values: seq<Value>, i: nat, j: nat)
    requires RowBound(batch, rows, values, i) && j < COLUMNS
    ensures rows[i][j] == COLUMNS * i + j + 1 && values[rows[i][j] - 1] == ColumnValues(batch[i])[j]
  {
    SliceAt(values, COLUMNS * i, j);
    var number := RowPlaceholders(COLUMNS * i + 1)[j];
    assert number == COLUMNS * i + 1 + j;
  }

  /** The value behind placeholder j of row i is column j of entry i, and no two rows share a placeholder. */
  lemma PlaceholdersResolve(batch: seq<Entry>, rows: seq<seq<nat>>, values: seq<Value>, i: nat, j: nat)
    requires RowBound(batch, rows, values, i) && j < COLUMNS
    ensures rows[i][j] == COLUMNS * i + j + 1 && values[rows[i][j] - 1] == ColumnValues(batch[i])[j]
    ensures forall i2: nat, j2: nat | RowBound(batch, rows, values, i2) && j2 < COLUMNS && rows[i2][j2] == rows[i][j] :: i2 == i && j2 == j
  {
    PlaceholderResolves(batch, rows, values, i, j);
    forall i2: nat, j2: nat | RowBound(batch, rows, values, i2) && j2 < COLUMNS && rows[i2][j2] == rows[i][j] ensures i2 == i && j2 == j {
      PlaceholderResolves(batch, rows, values, i2, j2);
      PlaceholdersDiffer(i, j, i2, j2);
    }
  }

  predicate Resolvable(rows: seq<seq<nat>>, values: seq<Value>, i: nat) {
    i < |rows| && forall j | 0 <= j < |rows[i]| :: 0 < rows[i][j] <= |values|
  }

  /** Row i as the database sees it: each placeholder replaced by its value. */
  function WrittenRow(rows: seq<seq<nat>>, values: seq<Value>, i: nat): (r: seq<Value>)
    requires Resolvable(rows, values, i)
    ensures |r| == |rows[i]|
  {
    seq(|rows[i]|, j requires 0 <= j < |rows[i]| => values[rows[i][j] - 1])
  }

  predicate HoldsEntry(row: seq<Value>, e: Entry) {
    && |row| == 15
    && row[0] == (if e.requestId == None then Null else Text(e.requestId.value))
    && row[1] == Text(e.userId)
    && row[2] == (if e.apiKeyId == None then Null else Text(e.apiKeyId.value))
    && row[3] == Text(e.toolName) && row[4] == Text(e.status) && row[5] == Whole(e.statusCode)
    && row[6] == Count(Some(e.durationMs)) && row[7] == Count(e.requestBytes) && row[8] == Count(e.responseBytes)
    && row[9] == Count(e.inputTokens) && row[10] == Count(e.outputTokens)
    && row[11] == Decimal(if e.creditsUsed == None then 0.0 else e.creditsUsed.value)
    && row[12] == (if e.arguments == None then Null else Text(e.arguments.value))
    && row[13] == (if e.ipAddress == None || !e.validAddress then Null else Text(e.ipAddress.value))
    && row[14] == (if e.userAgent == None then Null else Text(e.userAgent.value))
  }

  lemma ColumnsHoldEntry(e: Entry)
    ensures HoldsEntry(ColumnValues(e), e)
  {}

  lemma WrittenRowIsColumns(batch: seq<Entry>, rows: seq<seq<nat>>, values: seq<Value>, i: nat)
    requires RowBound(batch, rows, values, i)
    ensures Resolvable(rows, values, i) && WrittenRow(rows, values, i) == ColumnValues(batch[i])
  {
    forall j | 0 <= j < COLUMNS ensures 0 < rows[i][j] <= |values| && values[rows[i][j] - 1] == ColumnValues(batch[i])[j] {
      PlaceholderResolves(batch, rows, values, i, j);
    }
  }

  /** What the database finds in each column of the row of an entry, in the order of the column list. */
  lemma RowHoldsEntry(batch: seq<Entry>, rows: seq<seq<nat>>, values: seq<Value>, i: nat)
    requires RowBound(batch, rows, values, i)
    ensures Resolvable(rows, values, i) && HoldsEntry(WrittenRow(rows, values, i), batch[i])
  {
    WrittenRowIsColumns(batch, rows, values, i);
    ColumnsHoldEntry(batch[i]);
  }

  /** A batch that left the logger: inserted, or dropped with only its fallback file copy left. */
  datatype Finished = Written(batch: seq<Entry>) | Evicted(batch: seq<Entry>)

  datatype Limits = Limits(batchSize: int, maxQueueSize: int)

  /** `inFlight` is the batch the running flush awaits; `fallback` lists what was appended to the fallback files. */
  datatype Fields = Fields(queue: seq<Entry>, isFlushing: bool, inFlight: seq<Entry>, finished: seq<Finished>, fallback: seq<Entry>)

  const EMPTY := Fields([], false, [], [], [])

  /** Tick is the interval timer; the running flush ends in Inserted or Failed. */
  datatype Event = Log(entry: Entry) | Tick | Inserted | Failed

  function Flushed(b: Fields): Fields {
    if b.queue == [] || b.isFlushing then b
    else b.(queue := [], isFlushing := true, inFlight := b.queue)
  }

  function After(l: Limits, b: Fields, e: Event): Fields {
    match e
    case Log(entry) =>
      var pushed := b.(queue := b.queue + [entry]);
      if |pushed.queue| >= l.batchSize then Flushed(pushed) else pushed
    case Tick => Flushed(b)
    case Inserted => b.(isFlushing := false, inFlight := [], finished := b.finished + [Written(b.inFlight)])
    case Failed =>
      var failed := b.(isFlushing := false, inFlight := [], fallback := b.fallback + b.inFlight);
      if |b.queue| + |b.inFlight| <= l.maxQueueSize then failed.(queue := b.inFlight + b.queue)
      else failed.(finished := b.finished + [Evicted(b.inFlight)])
  }

  class AuditLogger {
    const batchSize: int
    const maxQueueSize: int
    var queue: seq<Entry>
    var isFlushing: bool
    var inFlight: seq<Entry>
    var finished: seq<Finished>
    var fallback: seq<Entry>

    constructor (batchSize: Option<int>, maxQueueSize: Option<int>)
      ensures State() == EMPTY
      ensures Sizes() == Limits(if batchSize.Some? then batchSize.value else 50, if maxQueueSize.Some? then maxQueueSize.value else 10000)
    {
      this.batchSize := if batchSize.Some? then batchSize.value else 50;
      this.maxQueueSize := if maxQueueSize.Some? then maxQueueSize.value else 10000;
      queue, isFlushing, inFlight, finished, fallback := [], false, [], [], [];
    }

    function Sizes(): Limits {
      Limits(batchSize, maxQueueSize)
    }

    function State(): Fields
      reads this
    {
      Fields(queue, isFlushing, inFlight, finished, fallback)
    }

    method Log(entry: Entry)
      modifies this
      ensures State() == After(Sizes(), old(State()), Event.Log(entry))
    {
      queue := queue + [entry];
      if |queue| >= batchSize { Flush(); }
    }

    /** flush, up to awaiting the insert. */
    method Flush()
      modifies this
      ensures State() == After(Sizes(), old(State()), Tick)
    {
      if queue == [] || isFlushing { return; }
      isFlushing := true;
      inFlight := queue;
      queue := [];
    }

    /** The rest of flush, once the insert has answered. */
    method FinishFlush(inserted: bool)
      modifies this
      ensures State() == After(Sizes(), old(State()), if inserted then Inserted else Failed)
    {
      var toProcess := inFlight;
      if inserted {
        finished := finished + [Written(toProcess)];
      } else {
        fallback := fallback + toProcess;
        if |queue| + |toProcess| <= maxQueueSize {
          queue := toProcess + queue;
        } else {
          finished := finished + [Evicted(toProcess)];
        }
      }
      inFlight, isFlushing := [], false;
    }
  }

  // ---------------------------------------------------------------- histories

  function At(l: Limits, h: seq<Event>, n: nat): Fields
    requires n <= |h|
  {
    if n == 0 then EMPTY else After(l, At(l, h, n - 1), h[n - 1])
  }

  /** An insert answers only while a flush awaits it, and each flush gets one answer. */
  ghost predicate AnswersFlushes(l: Limits, h: seq<Event>) {
    forall n | 0 <= n < |h| :: Awaited(l, h, n)
  }

  predicate Awaited(l: Limits, h: seq<Event>, n: nat)
    requires n < |h|
  {
    h[n].Inserted? || h[n].Failed? ==> At(l, h, n).isFlushing
  }

  /** What callers logged, in order. */
  function Logged(h: seq<Event>, n: nat): seq<Entry>
    requires n <= |h|
  {
    if n == 0 then [] else if h[n - 1].Log? then Logged(h, n - 1) + [h[n - 1].entry] else Logged(h, n - 1)
  }

  /** The finished batches, end to end. */
  function Concat(finished: seq<Finished>): seq<Entry> {
    if finished == [] then [] else Concat(finished[..|finished| - 1]) + finished[|finished| - 1].batch
  }

  lemma ConcatAppended(finished: seq<Finished>, f: Finished)
    ensures Concat(finished + [f]) == Concat(finished) + f.batch
  {
    assert (finished + [f])[..|finished|] == finished;
  }

  /** Everything held, oldest first. */
  function Holdings(b: Fields): seq<Entry> {
    Concat(b.finished) + b.inFlight + b.queue
  }

  lemma Regroup(a: seq<Entry>, b: seq<Entry>, c: seq<Entry>)
    ensures a + b + c == a + (b + c) && a + [] == a && a + b + [] == a + [] + b == a + b
  {}

  lemma FlushConserves(b: Fields)
    requires b.inFlight != [] ==> b.isFlushing
    ensures Holdings(Flushed(b)) == Holdings(b)
  {
    Regroup(Concat(b.finished), b.queue, []);
  }

  lemma PushConserves(b: Fields, entry: Entry)
    ensures Holdings(b.(queue := b.queue + [entry])) == Holdings(b) + [entry]
  {
    Regroup(Concat(b.finished) + b.inFlight, b.queue, [entry]);
  }

  lemma AnswerConserves(l: Limits, b: Fields, inserted: bool)
    ensures Holdings(After(l, b, if inserted then Inserted else Failed)) == Holdings(b)
  {
    var concat := Concat(b.finished);
    ConcatAppended(b.finished, Written(b.inFlight));
    ConcatAppended(b.finished, Evicted(b.inFlight));
    Regroup(concat, b.inFlight, b.queue);
    Regroup(concat + b.inFlight, b.queue, []);
    Regroup(concat, b.inFlight + b.queue, []);
  }

  lemma StepConserves(l: Limits, b: Fields, e: Event)
    requires b.inFlight != [] ==> b.isFlushing
    ensures Holdings(After(l, b, e)) == if e.Log? then Holdings(b) + [e.entry] else Holdings(b)
  {
    match e
    case Log(entry) =>
      PushConserves(b, entry);
      FlushConserves(b.(queue := b.queue + [entry]));
    case Tick => FlushConserves(b);
    case Inserted => AnswerConserves(l, b, true);
    case Failed => AnswerConserves(l, b, false);
  }

  lemma StepKeepsFlush(l: Limits, b: Fields, e: Event)
    requires (b.isFlushing <==> b.inFlight != []) && (e.Inserted? || e.Failed? ==> b.isFlushing)
    ensures After(l, b, e).isFlushing <==> After(l, b, e).inFlight != []
  {}

  /**
   With no flush running, one starts exactly when a logged entry fills the batch size or the timer finds entries, and
   it takes everything queued; a running flush leaves new entries in the queue.
   */
  lemma FlushStartsExactly(l: Limits, b: Fields, e: Event)
    requires e.Log? || e.Tick?
    ensures var queued := if e.Log? then b.queue + [e.entry] else b.queue;
      var starts := !b.isFlushing && queued != [] && (e.Tick? || |queued| >= l.batchSize);
      After(l, b, e) == if starts then Fields([], true, queued, b.finished, b.fallback)
                        else Fields(queued, b.isFlushing, b.inFlight, b.finished, b.fallback)
  {}

  /** A flush is running exactly while a batch is in flight: there are never two at once, and none is empty. */
  lemma {:induction false} OneFlush(l: Limits, h: seq<Event>, n: nat)
    requires AnswersFlushes(l, h) && n <= |h|
    ensures At(l, h, n).isFlushing <==> At(l, h, n).inFlight != []
  {
    if n > 0 {
      OneFlush(l, h, n - 1);
      assert Awaited(l, h, n - 1);
      StepKeepsFlush(l, At(l, h, n - 1), h[n - 1]);
    }
  }

  /**
   Over any interleaving of logging, timers and insert outcomes, the entries logged are exactly the finished
   batches, the batch in flight and the queue, end to end: nothing is lost, doubled or reordered.
   */
  lemma {:induction false} EntriesConserved(l: Limits, h: seq<Event>, n: nat)
    requires AnswersFlushes(l, h) && n <= |h|
    ensures Logged(h, n) == Concat(At(l, h, n).finished) + At(l, h, n).inFlight + At(l, h, n).queue
  {
    if n > 0 {
      EntriesConserved(l, h, n - 1);
      OneFlush(l, h, n - 1);
      StepConserves(l, At(l, h, n - 1), h[n - 1]);
    }
  }

  /** Every batch that left the logger had entries, and was inserted whole or stands whole in the fallback files. */
  ghost predicate Accounted(b: Fields) {
    forall i | 0 <= i < |b.finished| ::
      && b.finished[i].batch != []
      && (b.finished[i].Evicted? ==> Appears(b.finished[i].batch, b.fallback))
  }

  ghost predicate Appears(batch: seq<Entry>, lines: seq<Entry>) {
    exists a: nat :: AppearsAt(batch, lines, a)
  }

  predicate AppearsAt(batch: seq<Entry>, lines: seq<Entry>, a: nat) {
    a + |batch| <= |lines| && lines[a..a + |batch|] == batch
  }

  lemma AppearsStill(batch: seq<Entry>, lines: seq<Entry>, more: seq<Entry>)
    ensures Appears(batch, lines) ==> Appears(batch, lines + more)
    ensures Appears(batch, lines + batch)
  {
    if Appears(batch, lines) {
      var a: nat :| AppearsAt(batch, lines, a);
      assert (lines + more)[a..a + |batch|] == lines[a..a + |batch|];
      assert AppearsAt(batch, lines + more, a);
    }
    assert AppearsAt(batch, lines + batch, |lines|);
  }

  lemma StepAccounts(l: Limits, b: Fields, e: Event)
    requires Accounted(b) && (e.Inserted? || e.Failed? ==> b.inFlight != [])
    ensures Accounted(After(l, b, e))
  {
    var b' := After(l, b, e);
    forall i | 0 <= i < |b'.finished| ensures b'.finished[i].batch != [] && (b'.finished[i].Evicted? ==> Appears(b'.finished[i].batch, b'.fallback)) {
      AppearsStill(b'.finished[i].batch, b.fallback, b.inFlight);
      if i < |b.finished| { assert b'.finished[i] == b.finished[i]; }
    }
  }

  lemma {:induction false} NoBatchVanishes(l: Limits, h: seq<Event>, n: nat)
    requires AnswersFlushes(l, h) && n <= |h|
    ensures Accounted(At(l, h, n))
  {
    if n > 0 {
      NoBatchVanishes(l, h, n - 1);
      OneFlush(l, h, n - 1);
      assert Awaited(l, h, n - 1);
      StepAccounts(l, At(l, h, n - 1), h[n - 1]);
    }
  }

  /** No insert answers between the two moments. */
  ghost predicate Unanswered(h: seq<Event>, m: nat, n: nat)
    requires m <= n <= |h|
  {
    forall k | m <= k < n :: h[k].Log? || h[k].Tick?
  }

  /** The entries a running flush carries, or else those the next one will. */
  function NextOut(b: Fields): seq<Entry> {
    if b.isFlushing then b.inFlight else b.queue
  }

  lemma NextOutKept(l: Limits, b: Fields, e: Event, batch: seq<Entry>)
    requires (e.Log? || e.Tick?) && batch <= NextOut(b)
    ensures batch <= NextOut(After(l, b, e))
  {}

  /**
   A failed batch that fits is retried first: it fits within the queue's limit, and until the next insert answers it
   leads whatever that insert carries, however much is logged meanwhile. A batch that does not fit is gone.
   */
  lemma {:induction false} RequeuedGoesFirst(l: Limits, h: seq<Event>, m: nat, n: nat)
    requires m < n <= |h| && h[m].Failed? && Unanswered(h, m + 1, n)
    ensures var batch, waiting := At(l, h, m).inFlight, At(l, h, m).queue;
      if |waiting| + |batch| <= l.maxQueueSize
      then batch <= NextOut(At(l, h, n)) && |At(l, h, m + 1).queue| <= l.maxQueueSize
      else At(l, h, n).finished == At(l, h, m).finished + [Evicted(batch)]
  {
    if n > m + 1 {
      RequeuedGoesFirst(l, h, m, n - 1);
      if |At(l, h, m).queue| + |At(l, h, m).inFlight| <= l.maxQueueSize {
        NextOutKept(l, At(l, h, n - 1), h[n - 1], At(l, h, m).inFlight);
      }
    }
  }
}
