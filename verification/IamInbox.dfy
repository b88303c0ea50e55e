/** The inbox both IAM event consumers share: one receipt per event, and a versioned row per subject. */
module IamInbox {
  import opened Prelude

  datatype Status = Active | Blocked | Disabled | Withdrawn

  /** An event about one subject (and client), as the inbox sees it. */
  datatype Notice = Notice(id: string, version: int, status: Status)

  datatype Standing = Standing(status: Status, version: int, lastEvent: string)

  datatype Inbox = Inbox(received: set<string>, row: Option<Standing>)

  function StandingOf(n: Notice): Standing {
    Standing(n.status, n.version, n.id)
  }

  /** The WHERE clause of the upsert: only a newer version replaces a row, and nothing replaces WITHDRAWN. */
  predicate Supersedes(row: Option<Standing>, n: Notice) {
    row.None? || (row.value.version < n.version && row.value.status != Withdrawn)
  }

  function Upsert(row: Option<Standing>, n: Notice): Option<Standing> {
    if Supersedes(row, n) then Some(StandingOf(n)) else row
  }

  /** One committed delivery: a repeated event id stops at its receipt. */
  function Deliver(i: Inbox, n: Notice): Inbox {
    if n.id in i.received then i else Inbox(i.received + {n.id}, Upsert(i.row, n))
  }

  /** Every committed delivery so far, in commit order; crashed and rolled back attempts leave no trace. */
  function DeliverAll(ns: seq<Notice>): Inbox {
    if ns == [] then Inbox({}, None) else Deliver(DeliverAll(ns[..|ns| - 1]), ns[|ns| - 1])
  }

  /** An event id names one event: redelivery repeats the same content. */
  ghost predicate IdsIdentify(s: set<Notice>) {
    forall a, b | a in s && b in s && a.id == b.id :: a == b
  }

  /** The deliveries are those of `s`, each at least once, in any order. */
  ghost predicate Lists(ns: seq<Notice>, s: set<Notice>) {
    forall n :: n in ns <==> n in s
  }

  /** Row `b` is `a` or came later: versions never drop and WITHDRAWN is permanent. */
  predicate NotBefore(a: Option<Standing>, b: Option<Standing>) {
    a.Some? ==> b.Some? && a.value.version <= b.value.version && (a.value.status == Withdrawn ==> b == a)
  }

  lemma {:induction false} RowsAdvance(ns: seq<Notice>, m: nat)
    requires m <= |ns|
    ensures NotBefore(DeliverAll(ns[..m]).row, DeliverAll(ns).row)
  {
    if m == |ns| {
      assert ns[..m] == ns;
    } else {
      var shorter := ns[..|ns| - 1];
      RowsAdvance(shorter, m);
      assert shorter[..m] == ns[..m];
    }
  }

  lemma {:induction false} ReceivedExactly(ns: seq<Notice>)
    ensures forall id :: id in DeliverAll(ns).received <==> exists n :: n in ns && n.id == id
  {
    if ns != [] {
      ReceivedExactly(ns[..|ns| - 1]);
      assert ns == ns[..|ns| - 1] + [ns[|ns| - 1]];
    }
  }

  lemma {:induction false} RowComesFromNotice(ns: seq<Notice>)
    ensures ns == [] <==> DeliverAll(ns).row.None?
    ensures ns != [] ==> exists n :: n in ns && DeliverAll(ns).row == Some(StandingOf(n))
  {
    if ns != [] {
      var shorter, last := ns[..|ns| - 1], ns[|ns| - 1];
      RowComesFromNotice(shorter);
      ReceivedExactly(shorter);
      if shorter != [] {
        var n :| n in shorter && DeliverAll(shorter).row == Some(StandingOf(n));
        assert n in ns;
      }
      assert last in ns;
    }
  }

  /** Whatever happened, the row is at least as new as every delivered event, or withdrawn. */
  lemma {:induction false} RowReachesEach(ns: seq<Notice>, s: set<Notice>, n: Notice)
    requires Lists(ns, s) && IdsIdentify(s) && n in s
    ensures DeliverAll(ns).row.Some?
    ensures DeliverAll(ns).row.value.version >= n.version || DeliverAll(ns).row.value.status == Withdrawn
  {
    var shorter, last := ns[..|ns| - 1], ns[|ns| - 1];
    assert ns == shorter + [last];
    assert DeliverAll(ns) == Deliver(DeliverAll(shorter), last);
    if n in shorter {
      var less := set x | x in shorter;
      assert forall x | x in less :: x in ns;
      RowReachesEach(shorter, less, n);
    } else {
      ReceivedExactly(shorter);
      forall x | x in shorter ensures x.id != n.id { assert x in ns; }
    }
  }

  /** One event outranks the rest: it is the newest, and no other withdraws. */
  ghost predicate Settles(g: Notice, s: set<Notice>) {
    g in s && forall n | n in s && n != g :: n.version < g.version && n.status != Withdrawn
  }

  lemma SettledRow(ns: seq<Notice>, s: set<Notice>, g: Notice)
    requires Lists(ns, s) && IdsIdentify(s) && Settles(g, s)
    ensures DeliverAll(ns).row == Some(StandingOf(g))
  {
    RowReachesEach(ns, s, g);
    RowComesFromNotice(ns);
  }

  ghost predicate Converges(s: set<Notice>) {
    forall a, b | Lists(a, s) && Lists(b, s) :: DeliverAll(a).row == DeliverAll(b).row
  }

  lemma {:induction false} FirstStays(ns: seq<Notice>)
    requires ns != [] && (ns[0].status == Withdrawn || forall n | n in ns :: n.version <= ns[0].version)
    ensures DeliverAll(ns).row == Some(StandingOf(ns[0]))
  {
    if |ns| > 1 {
      var shorter := ns[..|ns| - 1];
      assert forall n | n in shorter :: n in ns;
      FirstStays(shorter);
      assert ns[|ns| - 1] in ns;
    } else {
      assert DeliverAll(ns[..0]) == Inbox({}, None);
    }
  }

  lemma {:induction false} ListingFrom(s: set<Notice>, first: Notice) returns (ns: seq<Notice>)
    requires first in s
    ensures Lists(ns, s) && ns != [] && ns[0] == first
    decreases |s|
  {
    if s == {first} {
      ns := [first];
    } else {
      var x :| x in s && x != first;
      var rest := ListingFrom(s - {x}, first);
      ns := rest + [x];
    }
  }

  lemma NewestExists(s: set<Notice>) returns (g: Notice)
    requires s != {}
    ensures g in s && forall n | n in s :: n.version <= g.version
    decreases |s|
  {
    var x :| x in s;
    if s == {x} {
      g := x;
    } else {
      var rest := s - {x};
      var y := NewestExists(rest);
      g := if x.version <= y.version then y else x;
      assert forall n | n in s :: n == x || n in rest;
    }
  }

  lemma UnsettledDiverges(s: set<Notice>)
    requires IdsIdentify(s) && s != {} && !exists g :: Settles(g, s)
    ensures !Converges(s)
  {
    var g := NewestExists(s);
    assert !Settles(g, s);
    var e :| e in s && e != g && !(e.version < g.version && e.status != Withdrawn);
    var a := ListingFrom(s, g);
    var b := ListingFrom(s, e);
    FirstStays(a);
    FirstStays(b);
    assert g.id != e.id;
    assert StandingOf(g) != StandingOf(e);
  }

  /**
   Every order and repetition of a set of events ends in the same row exactly when one event is strictly
   newer than all the others and none of those others withdraws.
   */
  lemma ConvergesExactly(s: set<Notice>)
    requires IdsIdentify(s)
    ensures Converges(s) <==> s == {} || exists g :: Settles(g, s)
  {
    if s == {} {
      forall a, b | Lists(a, s) && Lists(b, s) ensures DeliverAll(a).row == DeliverAll(b).row {
        RowComesFromNotice(a);
        RowComesFromNotice(b);
      }
    } else if g :| Settles(g, s) {
      forall a, b | Lists(a, s) && Lists(b, s) ensures DeliverAll(a).row == DeliverAll(b).row {
        SettledRow(a, s, g);
        SettledRow(b, s, g);
      }
    } else {
      UnsettledDiverges(s);
    }
  }

  /** Delivery i is newer than every delivery before it. */
  predicate Wins(ns: seq<Notice>, i: nat)
    requires i < |ns|
  {
    forall j | 0 <= j < i :: ns[j].version < ns[i].version
  }

  /** Delivery i settles the row: the first winning withdrawal, or, without one, the last winning delivery. */
  predicate Decides(ns: seq<Notice>, i: nat) {
    && i < |ns| && Wins(ns, i)
    && (forall j | 0 <= j < i && Wins(ns, j) :: ns[j].status != Withdrawn)
    && (ns[i].status == Withdrawn || forall j | i < j < |ns| :: !Wins(ns, j))
  }

  lemma WinsInPrefix(ns: seq<Notice>, n: Notice, i: nat)
    requires i < |ns|
    ensures (ns + [n])[i] == ns[i] && (Wins(ns + [n], i) <==> Wins(ns, i))
  {
    assert forall j | 0 <= j < |ns| :: (ns + [n])[j] == ns[j];
  }

  lemma WinsAtEnd(ns: seq<Notice>, n: Notice)
    ensures Wins(ns + [n], |ns|) <==> forall a | a in ns :: a.version < n.version
  {
    if Wins(ns + [n], |ns|) {
      forall a | a in ns ensures a.version < n.version {
        var j :| 0 <= j < |ns| && ns[j] == a;
        assert (ns + [n])[j] == a;
      }
    }
  }

  /** One more delivery settles the row itself if it wins and nothing had withdrawn; otherwise the old one still does. */
  lemma DecidesNext(ns: seq<Notice>, n: Notice, i: nat)
    requires Decides(ns, i)
    ensures if ns[i].status != Withdrawn && Wins(ns + [n], |ns|) then Decides(ns + [n], |ns|) else Decides(ns + [n], i)
  {
    forall j | 0 <= j < |ns| ensures (ns + [n])[j] == ns[j] && (Wins(ns + [n], j) <==> Wins(ns, j)) { WinsInPrefix(ns, n, j); }
  }

  lemma DeliverAppended(ns: seq<Notice>, n: Notice)
    ensures DeliverAll(ns + [n]) == Deliver(DeliverAll(ns), n)
  {
    assert (ns + [n])[..|ns|] == ns;
  }

  lemma RowMoves(ns: seq<Notice>, n: Notice, s: set<Notice>, i: nat)
    requires Lists(ns + [n], s) && IdsIdentify(s) && i < |ns| && DeliverAll(ns).row == Some(StandingOf(ns[i]))
    ensures DeliverAll(ns + [n]).row
         == Some(StandingOf(if ns[i].status != Withdrawn && Wins(ns + [n], |ns|) then n else ns[i]))
  {
    DeliverAppended(ns, n);
    WinsAtEnd(ns, n);
    ReceivedExactly(ns);
    assert forall a | a in ns :: a in ns + [n];
    if Wins(ns + [n], |ns|) {
      assert forall a | a in ns :: a.id == n.id ==> a == n;
    } else {
      var a :| a in ns && a.version >= n.version;
      var less := set x | x in ns;
      RowReachesEach(ns, less, a);
    }
  }

  /** The row in closed form: that of the first winning withdrawal, or else of the last delivery newer than all before it. */
  lemma {:induction false} RowExactly(ns: seq<Notice>, s: set<Notice>) returns (i: nat)
    requires ns != [] && Lists(ns, s) && IdsIdentify(s)
    ensures Decides(ns, i) && DeliverAll(ns).row == Some(StandingOf(ns[i]))
  {
    var before, last := ns[..|ns| - 1], ns[|ns| - 1];
    assert ns == before + [last];
    if before == [] {
      i := 0;
      DeliverAppended([], last);
      assert ns == [] + [last];
    } else {
      var less := set x | x in before;
      assert forall x | x in less :: x in ns;
      i := RowExactly(before, less);
      DecidesNext(before, last, i);
      RowMoves(before, last, s, i);
      if before[i].status != Withdrawn && Wins(before + [last], |before|) { i := |before|; }
    }
  }

  lemma DecidesOnce(ns: seq<Notice>, i: nat, j: nat)
    requires Decides(ns, i) && Decides(ns, j)
    ensures i == j
  {}

  // ---------------------------------------------------------------- the tables

  /** The receipt table and the state table of one consumer; `K` is the primary key of the state table. */
  datatype Table<K(==)> = Table(receipts: set<string>, rows: map<K, Standing>)

  datatype Delivery<K(==)> = Delivery(key: K, notice: Notice)

  function RowAt<K>(t: Table<K>, k: K): Option<Standing> {
    if k in t.rows then Some(t.rows[k]) else None
  }

  /** The delivery changes the state row. */
  predicate Applies<K>(t: Table<K>, d: Delivery<K>) {
    d.notice.id !in t.receipts && Supersedes(RowAt(t, d.key), d.notice)
  }

  function Receive<K>(t: Table<K>, d: Delivery<K>): Table<K> {
    if d.notice.id in t.receipts then t
    else Table(t.receipts + {d.notice.id}, if Supersedes(RowAt(t, d.key), d.notice) then t.rows[d.key := StandingOf(d.notice)] else t.rows)
  }

  function ReceiveAll<K>(ds: seq<Delivery<K>>): Table<K> {
    if ds == [] then Table({}, map[]) else Receive(ReceiveAll(ds[..|ds| - 1]), ds[|ds| - 1])
  }

  ghost predicate DeliveriesIdentify<K>(ds: seq<Delivery<K>>) {
    forall i, j | 0 <= i < |ds| && 0 <= j < |ds| && ds[i].notice.id == ds[j].notice.id :: ds[i] == ds[j]
  }

  function NoticesFor<K(==)>(ds: seq<Delivery<K>>, k: K): seq<Notice> {
    if ds == [] then []
    else NoticesFor(ds[..|ds| - 1], k) + if ds[|ds| - 1].key == k then [ds[|ds| - 1].notice] else []
  }

  lemma {:induction false} NoticesForExactly<K>(ds: seq<Delivery<K>>, k: K)
    ensures forall n :: n in NoticesFor(ds, k) <==> Delivery(k, n) in ds
  {
    if ds != [] {
      NoticesForExactly(ds[..|ds| - 1], k);
      assert ds == ds[..|ds| - 1] + [ds[|ds| - 1]];
    }
  }

  lemma {:induction false} ReceiptsExactly<K>(ds: seq<Delivery<K>>, id: string)
    ensures id in ReceiveAll(ds).receipts <==> exists i | 0 <= i < |ds| :: ds[i].notice.id == id
  {
    if ds != [] {
      var shorter := ds[..|ds| - 1];
      ReceiptsExactly(shorter, id);
      if i :| 0 <= i < |shorter| && shorter[i].notice.id == id { assert ds[i].notice.id == id; }
      if i :| 0 <= i < |ds| && ds[i].notice.id == id {
        if i < |shorter| { assert shorter[i].notice.id == id; }
      }
    }
  }

  lemma RowReceives<K>(t: Table<K>, d: Delivery<K>, k: K)
    ensures RowAt(Receive(t, d), k)
         == if d.key == k && d.notice.id !in t.receipts then Upsert(RowAt(t, k), d.notice) else RowAt(t, k)
  {}

  /** The shared table has seen the last delivery exactly when its own key's inbox has. */
  lemma SeenByOwnInbox<K>(ds: seq<Delivery<K>>)
    requires ds != [] && DeliveriesIdentify(ds)
    ensures var shorter, last := ds[..|ds| - 1], ds[|ds| - 1];
            last.notice.id in ReceiveAll(shorter).receipts <==> last.notice.id in DeliverAll(NoticesFor(shorter, last.key)).received
  {
    var shorter, last := ds[..|ds| - 1], ds[|ds| - 1];
    var notices := NoticesFor(shorter, last.key);
    ReceivedExactly(notices);
    NoticesForExactly(shorter, last.key);
    ReceiptsExactly(shorter, last.notice.id);
    if last.notice.id in ReceiveAll(shorter).receipts {
      var i :| 0 <= i < |shorter| && shorter[i].notice.id == last.notice.id;
      assert ds[i] == ds[|ds| - 1];
      assert shorter[i] == Delivery(last.key, last.notice);
      assert last.notice in notices;
    } else {
      forall n | n in notices ensures n.id != last.notice.id {
        var i :| 0 <= i < |shorter| && shorter[i] == Delivery(last.key, n);
      }
    }
  }

  /** Through one shared receipt table, each key's row is exactly what its own inbox would hold. */
  lemma {:induction false} TableRefinesInbox<K>(ds: seq<Delivery<K>>, k: K)
    requires DeliveriesIdentify(ds)
    ensures RowAt(ReceiveAll(ds), k) == DeliverAll(NoticesFor(ds, k)).row
  {
    if ds != [] {
      var shorter, last := ds[..|ds| - 1], ds[|ds| - 1];
      TableRefinesInbox(shorter, k);
      RowReceives(ReceiveAll(shorter), last, k);
      if last.key == k {
        SeenByOwnInbox(ds);
        DeliverAppended(NoticesFor(shorter, k), last.notice);
      } else {
        assert NoticesFor(ds, k) == NoticesFor(shorter, k);
      }
    }
  }

  lemma {:induction false} NoticesForPrefix<K>(ds: seq<Delivery<K>>, m: nat, k: K)
    requires m <= |ds|
    ensures NoticesFor(ds[..m], k) <= NoticesFor(ds, k)
  {
    if m == |ds| {
      assert ds[..m] == ds;
    } else {
      NoticesForPrefix(ds[..|ds| - 1], m, k);
      assert ds[..|ds| - 1][..m] == ds[..m];
    }
  }

  /** In every table, versions never drop and WITHDRAWN is permanent. */
  lemma TableRowsAdvance<K>(ds: seq<Delivery<K>>, m: nat, k: K)
    requires DeliveriesIdentify(ds) && m <= |ds|
    ensures NotBefore(RowAt(ReceiveAll(ds[..m]), k), RowAt(ReceiveAll(ds), k))
  {
    TableRefinesInbox(ds, k);
    TableRefinesInbox(ds[..m], k);
    NoticesForPrefix(ds, m, k);
    var ns, early := NoticesFor(ds, k), NoticesFor(ds[..m], k);
    RowsAdvance(ns, |early|);
    assert ns[..|early|] == early;
  }

  /** A delivered event leaves its row at least as new as itself, or withdrawn, whatever else was delivered. */
  lemma TableRowReachesEach<K>(ds: seq<Delivery<K>>, n: nat)
    requires DeliveriesIdentify(ds) && n < |ds|
    ensures RowAt(ReceiveAll(ds), ds[n].key).Some?
    ensures var row := RowAt(ReceiveAll(ds), ds[n].key).value; row.version >= ds[n].notice.version || row.status == Withdrawn
  {
    var k, ns := ds[n].key, NoticesFor(ds, ds[n].key);
    TableRefinesInbox(ds, k);
    NoticesForExactly(ds, k);
    assert Delivery(k, ds[n].notice) in ds;
    var s := set x | x in ns;
    forall a: Notice, b: Notice | a in s && b in s && a.id == b.id ensures a == b {
      assert Delivery(k, a) in ds && Delivery(k, b) in ds;
    }
    RowReachesEach(ns, s, ds[n].notice);
  }

  /** Two histories that deliver the same settled events about a key, in any order, end in the same row. */
  lemma TablesConverge<K>(a: seq<Delivery<K>>, b: seq<Delivery<K>>, k: K, s: set<Notice>, g: Notice)
    requires DeliveriesIdentify(a) && DeliveriesIdentify(b) && IdsIdentify(s) && Settles(g, s)
    requires forall n :: (Delivery(k, n) in a <==> n in s) && (Delivery(k, n) in b <==> n in s)
    ensures RowAt(ReceiveAll(a), k) == RowAt(ReceiveAll(b), k) == Some(StandingOf(g))
  {
    TableRefinesInbox(a, k);
    TableRefinesInbox(b, k);
    NoticesForExactly(a, k);
    NoticesForExactly(b, k);
    SettledRow(NoticesFor(a, k), s, g);
    SettledRow(NoticesFor(b, k), s, g);
  }
}
