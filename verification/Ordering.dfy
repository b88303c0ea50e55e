/** Total orders, the sorted listing of a finite set, and the code-unit order of strings. */
module Ordering {

  ghost predicate TotalOrder<T(!new)>(le: (T, T) -> bool) {
    && (forall a, b :: le(a, b) || le(b, a))
    && (forall a, b :: le(a, b) && le(b, a) ==> a == b)
    && (forall a, b, c :: le(a, b) && le(b, c) ==> le(a, c))
  }

  ghost predicate IsLeast<T>(le: (T, T) -> bool, m: T, s: set<T>) {
    m in s && forall x | x in s :: le(m, x)
  }

  lemma LeastExists<T(!new)>(le: (T, T) -> bool, s: set<T>) returns (m: T)
    requires TotalOrder(le) && s != {}
    ensures IsLeast(le, m, s)
  {
    var x :| x in s;
    if s == {x} {
      m := x;
    } else {
      var rest := s - {x};
      var y := LeastExists(le, rest);
      m := if le(x, y) then x else y;
      forall z | z in s ensures le(m, z) {
        assert z == x || z in rest;
      }
    }
  }

  function Least<T(!new)>(le: (T, T) -> bool, s: set<T>): (m: T)
    requires TotalOrder(le) && s != {}
    ensures IsLeast(le, m, s)
  {
    assert exists m :: m in s && forall x | x in s :: le(m, x) by { var w := LeastExists(le, s); }
    var m :| m in s && forall x | x in s :: le(m, x);
    m
  }

  /** The elements of `s` in increasing order: what sort() or ORDER BY returns for distinct elements. */
  function Sorted<T(!new, ==)>(le: (T, T) -> bool, s: set<T>): (r: seq<T>)
    requires TotalOrder(le)
    ensures |r| == |s|
    ensures forall x :: x in r <==> x in s
    ensures forall i, j | 0 <= i < j < |r| :: le(r[i], r[j]) && r[i] != r[j]
  {
    if s == {} then [] else var m := Least(le, s); [m] + Sorted(le, s - {m})
  }

  ghost predicate StrictListing<T(!new)>(le: (T, T) -> bool, s: set<T>, r: seq<T>) {
    && (forall x :: x in r <==> x in s)
    && (forall i, j | 0 <= i < j < |r| :: le(r[i], r[j]) && r[i] != r[j])
  }

  lemma StrictTail<T(!new)>(le: (T, T) -> bool, s: set<T>, r: seq<T>)
    requires StrictListing(le, s, r) && r != []
    ensures r[0] in s && StrictListing(le, s - {r[0]}, r[1..])
  {
    forall x ensures x in r[1..] <==> x in s - {r[0]} {
      if x in r[1..] {
        var i :| 0 <= i < |r[1..]| && r[1..][i] == x;
        assert r[i + 1] == x && r[0] != x;
      }
      if x in s - {r[0]} {
        var i :| 0 <= i < |r| && r[i] == x;
        assert r[1..][i - 1] == x;
      }
    }
  }

  lemma EmptyListing<T(!new)>(le: (T, T) -> bool, s: set<T>, r: seq<T>)
    requires StrictListing(le, s, r)
    ensures s == {} <==> r == []
  {
    if r != [] { assert r[0] in s; }
  }

  lemma SameHead<T(!new)>(le: (T, T) -> bool, s: set<T>, r: seq<T>, t: seq<T>)
    requires TotalOrder(le) && StrictListing(le, s, r) && StrictListing(le, s, t) && s != {}
    ensures r != [] && t != [] && r[0] == t[0]
  {
    var x :| x in s;
    assert x in r && x in t;
    assert r[0] in t && t[0] in r;
  }

  /** Any strictly increasing listing of a set is the sorted one, whatever produced it. */
  lemma SortedUnique<T(!new)>(le: (T, T) -> bool, s: set<T>, r: seq<T>)
    requires TotalOrder(le) && StrictListing(le, s, r)
    ensures r == Sorted(le, s)
  {
    ListingsAgree(le, s, r, Sorted(le, s));
  }

  lemma {:induction false} ListingsAgree<T(!new)>(le: (T, T) -> bool, s: set<T>, r: seq<T>, t: seq<T>)
    requires TotalOrder(le) && StrictListing(le, s, r) && StrictListing(le, s, t)
    ensures r == t
    decreases |s|
  {
    EmptyListing(le, s, r);
    EmptyListing(le, s, t);
    if s != {} {
      SameHead(le, s, r, t);
      StrictTail(le, s, r);
      StrictTail(le, s, t);
      ListingsAgree(le, s - {r[0]}, r[1..], t[1..]);
      assert r == [r[0]] + r[1..] && t == [t[0]] + t[1..];
    }
  }

  /** Lexicographic order on code units, as Array.prototype.sort compares strings. */
  predicate LexLe(a: string, b: string) {
    || a == []
    || (b != [] && (a[0] < b[0] || (a[0] == b[0] && LexLe(a[1..], b[1..]))))
  }

  lemma {:induction false} LexTotal(a: string, b: string)
    ensures LexLe(a, b) || LexLe(b, a)
  {
    if a != [] && b != [] {
      LexTotal(a[1..], b[1..]);
    }
  }

  lemma {:induction false} LexAntisymmetric(a: string, b: string)
    requires LexLe(a, b) && LexLe(b, a)
    ensures a == b
  {
    if a != [] && b != [] {
      LexAntisymmetric(a[1..], b[1..]);
      assert a == [a[0]] + a[1..] && b == [b[0]] + b[1..];
    }
  }

  lemma {:induction false} LexTransitive(a: string, b: string, c: string)
    requires LexLe(a, b) && LexLe(b, c)
    ensures LexLe(a, c)
  {
    if a != [] && b != [] && c != [] && a[0] == b[0] == c[0] {
      LexTransitive(a[1..], b[1..], c[1..]);
    }
  }

  lemma LexIsTotalOrder()
    ensures TotalOrder(LexLe)
  {
    forall a: string, b: string ensures LexLe(a, b) || LexLe(b, a) { LexTotal(a, b); }
    forall a: string, b: string | LexLe(a, b) && LexLe(b, a) ensures a == b { LexAntisymmetric(a, b); }
    forall a: string, b: string, c: string | LexLe(a, b) && LexLe(b, c) ensures LexLe(a, c) { LexTransitive(a, b, c); }
  }

  /** The first character that differs decides for a. */
  predicate DiffersLower(a: string, b: string, n: nat) {
    n < |a| && n < |b| && a[..n] == b[..n] && a[n] < b[n]
  }

  lemma DiffersInTail(a: string, b: string, n: nat)
    requires a != [] && b != [] && a[0] == b[0]
    ensures DiffersLower(a[1..], b[1..], n) <==> DiffersLower(a, b, n + 1)
  {
    if n < |a| - 1 && n < |b| - 1 {
      assert a[..n + 1] == [a[0]] + a[1..][..n] && b[..n + 1] == [b[0]] + b[1..][..n];
      assert a[1..][..n] == a[..n + 1][1..] && b[1..][..n] == b[..n + 1][1..];
    }
  }

  lemma DiffersAtOnce(a: string, b: string, n: nat)
    requires DiffersLower(a, b, n)
    ensures if n == 0 then a[0] < b[0] else a[0] == b[0]
  {
    if n > 0 { assert a[0] == a[..n][0] && b[0] == b[..n][0]; }
  }

  /** The order in closed form: a prefix comes first, and otherwise the first character that differs decides. */
  lemma {:induction false} LexLeExactly(a: string, b: string)
    ensures LexLe(a, b) <==> a <= b || exists n: nat :: DiffersLower(a, b, n)
  {
    if a != [] && b != [] {
      if a[0] == b[0] {
        LexLeExactly(a[1..], b[1..]);
        assert a == [a[0]] + a[1..] && b == [b[0]] + b[1..];
        if n: nat :| DiffersLower(a[1..], b[1..], n) { DiffersInTail(a, b, n); }
        if n: nat :| DiffersLower(a, b, n) {
          DiffersAtOnce(a, b, n);
          DiffersInTail(a, b, n - 1);
        }
      } else {
        assert a[..0] == b[..0];
        assert a[0] < b[0] ==> DiffersLower(a, b, 0);
        forall n: nat | DiffersLower(a, b, n) ensures a[0] < b[0] { DiffersAtOnce(a, b, n); }
      }
    }
  }
}
