/** Unpadded base64url (sections 3.5 and 5 of RFC 4648) with the strict segment decoder of signed jobs. */
module Base64Url {
  import opened Prelude

  type Sextet = n: int | 0 <= n < 64

  /** The character of a 6-bit value in the URL-safe alphabet. */
  function Symbol(n: Sextet): (c: char)
    ensures InAlphabet(c)
  {
    if n < 26 then 'A' + n as char
    else if n < 52 then 'a' + (n - 26) as char
    else if n < 62 then '0' + (n - 52) as char
    else if n == 62 then '-' else '_'
  }

  predicate InAlphabet(c: char) {
    'A' <= c <= 'Z' || 'a' <= c <= 'z' || '0' <= c <= '9' || c == '-' || c == '_'
  }

  function Index(c: char): Sextet
    requires InAlphabet(c)
  {
    if 'A' <= c <= 'Z' then (c - 'A') as int
    else if 'a' <= c <= 'z' then 26 + (c - 'a') as int
    else if '0' <= c <= '9' then 52 + (c - '0') as int
    else if c == '-' then 62 else 63
  }

  predicate AlphabetText(s: string) {
    forall i | 0 <= i < |s| :: InAlphabet(s[i])
  }

  function Symbols(q: seq<Sextet>): (s: string)
    ensures |s| == |q| && AlphabetText(s)
    ensures forall i | 0 <= i < |q| :: s[i] == Symbol(q[i])
  {
    seq(|q|, i requires 0 <= i < |q| => Symbol(q[i]))
  }

  function Indices(s: string): (q: seq<Sextet>)
    requires AlphabetText(s)
    ensures |q| == |s|
    ensures forall i | 0 <= i < |q| :: q[i] == Index(s[i])
  {
    seq(|s|, i requires 0 <= i < |s| => Index(s[i]))
  }

  /** The alphabet by character code, A to Z, a to z, 0 to 9, hyphen and underscore (table 2 of RFC 4648). */
  lemma AlphabetExactly(n: Sextet)
    ensures Symbol(n) as int == if n < 26 then 65 + n else if n < 52 then 71 + n else if n < 62 then n - 4 else if n == 62 then 45 else 95
    ensures InAlphabet(Symbol(n)) && Index(Symbol(n)) == n
  {}

  lemma AlphabetComplete(c: char)
    ensures InAlphabet(c) <==> exists n: Sextet :: Symbol(n) == c
  {
    if InAlphabet(c) { assert Symbol(Index(c)) == c; }
  }

  /** Three bytes become four 6-bit values; a remainder of one or two bytes is padded with zero bits. */
  function Split(b: seq<Byte>): (q: seq<Sextet>)
    ensures 3 * |q| <= 4 * |b| + 2 && (q == [] <==> b == [])
  {
    if |b| == 0 then []
    else if |b| == 1 then [b[0] / 4, b[0] % 4 * 16]
    else if |b| == 2 then [b[0] / 4, b[0] % 4 * 16 + b[1] / 16, b[1] % 16 * 4]
    else [b[0] / 4, b[0] % 4 * 16 + b[1] / 16, b[1] % 16 * 4 + b[2] / 64, b[2] % 64] + Split(b[3..])
  }

  /** The big-endian number of four 6-bit values. */
  function Number(a: int, b: int, c: int, d: int): int {
    a * 262144 + b * 4096 + c * 64 + d
  }

  /** The bits keep their order: each group of bytes is the same big-endian number as its 6-bit values, padded with zeros. */
  lemma SplitKeepsOrder(b: seq<Byte>)
    ensures var q := Split(b);
      && (|b| == 1 ==> |q| == 2 && Number(0, 0, q[0], q[1]) == b[0] as int * 16)
      && (|b| == 2 ==> |q| == 3 && Number(0, q[0], q[1], q[2]) == (b[0] as int * 256 + b[1]) * 4)
      && (|b| >= 3 ==> |q| >= 4 && q[4..] == Split(b[3..])
                       && Number(q[0], q[1], q[2], q[3]) == b[0] as int * 65536 + b[1] as int * 256 + b[2])
  {}

  /** Four 6-bit values become three bytes; surplus bits and a lone last value are dropped silently. */
  function Pack(q: seq<Sextet>): seq<Byte> {
    if |q| <= 1 then []
    else if |q| == 2 then [High(q[0], q[1])]
    else if |q| == 3 then [High(q[0], q[1]), Middle(q[1], q[2])]
    else [High(q[0], q[1]), Middle(q[1], q[2]), Low(q[2], q[3])] + Pack(q[4..])
  }

  function High(a: int, b: int): Byte
    requires 0 <= a < 64 && 0 <= b < 64
  {
    a * 4 + b / 16
  }

  function Middle(b: int, c: int): Byte
    requires 0 <= b < 64 && 0 <= c < 64
  {
    b % 16 * 16 + c / 4
  }

  function Low(c: int, d: int): Byte
    requires 0 <= c < 64 && 0 <= d < 64
  {
    c % 4 * 64 + d
  }

  /** Buffer.toString("base64url"). */
  function Encode(b: seq<Byte>): (s: string)
    ensures AlphabetText(s)
    ensures 3 * |s| <= 4 * |b| + 2 && (s == "" <==> b == [])
  {
    Symbols(Split(b))
  }

  /** Buffer.from(s, "base64url") on a text that already passed the alphabet check. */
  function LenientDecode(s: string): seq<Byte>
    requires AlphabetText(s)
  {
    Pack(Indices(s))
  }

  /** The strict decoder: alphabet check, lenient decoding, and comparison with the re-encoded bytes. */
  function Decode(s: string): Option<seq<Byte>> {
    if s == "" || !AlphabetText(s) then None
    else
      var bytes := LenientDecode(s);
      if Encode(bytes) != s then None else Some(bytes)
  }

  /** Whole groups of bits with a zero remainder, stated without encoding or decoding anything. */
  predicate CanonicalSextets(q: seq<Sextet>) {
    && |q| % 4 != 1
    && (|q| % 4 == 2 ==> q[|q| - 1] % 16 == 0)
    && (|q| % 4 == 3 ==> q[|q| - 1] % 4 == 0)
  }

  /** The grammar of canonical unpadded texts. */
  predicate CanonicalText(s: string) {
    s != "" && AlphabetText(s) && CanonicalSextets(Indices(s))
  }

  lemma IndexOfSymbol(n: Sextet)
    ensures Index(Symbol(n)) == n
  {}

  lemma SymbolOfIndex(c: char)
    requires InAlphabet(c)
    ensures Symbol(Index(c)) == c
  {}

  lemma IndicesOfSymbols(q: seq<Sextet>)
    ensures Indices(Symbols(q)) == q
  {
    forall i | 0 <= i < |q| ensures Indices(Symbols(q))[i] == q[i] { IndexOfSymbol(q[i]); }
  }

  lemma SymbolsOfIndices(s: string)
    requires AlphabetText(s)
    ensures Symbols(Indices(s)) == s
  {
    forall i | 0 <= i < |s| ensures Symbols(Indices(s))[i] == s[i] { SymbolOfIndex(s[i]); }
  }

  lemma PackOfQuad(a: Sextet, b: Sextet, c: Sextet, d: Sextet, tail: seq<Sextet>)
    ensures Pack([a, b, c, d] + tail) == [High(a, b), Middle(b, c), Low(c, d)] + Pack(tail)
  {
    assert ([a, b, c, d] + tail)[4..] == tail;
  }

  lemma SplitOfTriple(x: Byte, y: Byte, z: Byte, rest: seq<Byte>)
    ensures Split([x, y, z] + rest) == [x / 4, x % 4 * 16 + y / 16, y % 16 * 4 + z / 64, z % 64] + Split(rest)
  {
    assert ([x, y, z] + rest)[3..] == rest;
  }

  /** The arithmetic of one group the other way: four 6-bit values give back the three bytes they were split from. */
  lemma ByteArithmetic(x: Byte, y: Byte, z: Byte)
    ensures High(x / 4, x % 4 * 16 + y / 16) == x
    ensures Middle(x % 4 * 16 + y / 16, y % 16 * 4 + z / 64) == y
    ensures Low(y % 16 * 4 + z / 64, z % 64) == z
  {}

  lemma PackOfSplitTriple(x: Byte, y: Byte, z: Byte, rest: seq<Byte>)
    ensures Pack(Split([x, y, z] + rest)) == [x, y, z] + Pack(Split(rest))
  {
    SplitOfTriple(x, y, z, rest);
    PackOfQuad(x / 4, x % 4 * 16 + y / 16, y % 16 * 4 + z / 64, z % 64, Split(rest));
    ByteArithmetic(x, y, z);
  }

  lemma PackOfSplitOne(x: Byte)
    ensures Pack(Split([x])) == [x]
  {
    var q := Split([x]);
    assert q == [x / 4, x % 4 * 16];
    assert Pack(q) == [High(q[0], q[1])];
    ByteArithmetic(x, 0, 0);
  }

  lemma PackOfSplitTwo(x: Byte, y: Byte)
    ensures Pack(Split([x, y])) == [x, y]
  {
    var q := Split([x, y]);
    assert q == [x / 4, x % 4 * 16 + y / 16, y % 16 * 4];
    assert Pack(q) == [High(q[0], q[1]), Middle(q[1], q[2])];
    ByteArithmetic(x, y, 0);
  }

  lemma {:induction false} PackOfSplit(b: seq<Byte>)
    ensures Pack(Split(b)) == b
  {
    if |b| >= 3 {
      PackOfSplit(b[3..]);
      assert b == [b[0], b[1], b[2]] + b[3..];
      PackOfSplitTriple(b[0], b[1], b[2], b[3..]);
    } else if |b| == 2 {
      PackOfSplitTwo(b[0], b[1]);
      assert b == [b[0], b[1]];
    } else if |b| == 1 {
      PackOfSplitOne(b[0]);
      assert b == [b[0]];
    }
  }

  /** The arithmetic of one group: three bytes give back the four 6-bit values they were packed from. */
  lemma GroupArithmetic(a: Sextet, b: Sextet, c: Sextet, d: Sextet)
    ensures High(a, b) / 4 == a
    ensures High(a, b) % 4 * 16 + Middle(b, c) / 16 == b
    ensures Middle(b, c) % 16 * 4 + Low(c, d) / 64 == c
    ensures Low(c, d) % 64 == d
    ensures High(a, b) % 4 * 16 == b - b % 16
    ensures Middle(b, c) % 16 * 4 == c - c % 4
  {}

  lemma SplitOfPackTwo(a: Sextet, b: Sextet)
    ensures Split(Pack([a, b])) == [a, b] <==> b % 16 == 0
  {
    GroupArithmetic(a, b, 0, 0);
    assert Split([High(a, b)]) == [High(a, b) / 4, High(a, b) % 4 * 16];
  }

  lemma SplitOfPackThree(a: Sextet, b: Sextet, c: Sextet)
    ensures Split(Pack([a, b, c])) == [a, b, c] <==> c % 4 == 0
  {
    GroupArithmetic(a, b, c, 0);
    var x, y := High(a, b), Middle(b, c);
    assert Split([x, y]) == [x / 4, x % 4 * 16 + y / 16, y % 16 * 4];
  }

  lemma SplitOfPackQuad(a: Sextet, b: Sextet, c: Sextet, d: Sextet, tail: seq<Sextet>)
    ensures Split(Pack([a, b, c, d] + tail)) == [a, b, c, d] + Split(Pack(tail))
  {
    PackOfQuad(a, b, c, d, tail);
    SplitOfTriple(High(a, b), Middle(b, c), Low(c, d), Pack(tail));
    GroupArithmetic(a, b, c, d);
  }

  lemma PrefixCancels<T>(p: seq<T>, x: seq<T>, y: seq<T>)
    ensures p + x == p + y <==> x == y
  {
    assert (p + x)[|p|..] == x && (p + y)[|p|..] == y;
  }

  lemma CanonicalStep(q: seq<Sextet>)
    requires |q| >= 4
    ensures CanonicalSextets(q) <==> CanonicalSextets(q[4..])
  {
    assert q[4..] != [] ==> q[|q| - 1] == q[4..][|q[4..]| - 1];
  }

  lemma SplitOfShortPack(q: seq<Sextet>)
    requires |q| < 4
    ensures Split(Pack(q)) == q <==> CanonicalSextets(q)
  {
    match |q|
    case 2 => TwoSextets(q);
    case 3 => ThreeSextets(q);
    case _ =>
      assert Pack(q) == [] && Split([]) == [];
  }

  lemma TwoSextets(q: seq<Sextet>)
    requires |q| == 2
    ensures Split(Pack(q)) == q <==> CanonicalSextets(q)
  {
    var a, b := q[0], q[1];
    assert q == [a, b];
    assert CanonicalSextets(q) <==> b % 16 == 0;
    SplitOfPackTwo(a, b);
  }

  lemma ThreeCanonical(a: Sextet, b: Sextet, c: Sextet)
    ensures CanonicalSextets([a, b, c]) <==> c % 4 == 0
  {}

  lemma ThreeSextets(q: seq<Sextet>)
    requires |q| == 3
    ensures Split(Pack(q)) == q <==> CanonicalSextets(q)
  {
    SplitOfPackThree(q[0], q[1], q[2]);
    ThreeCanonical(q[0], q[1], q[2]);
    assert q == [q[0], q[1], q[2]];
  }

  lemma {:induction false} SplitOfPack(q: seq<Sextet>)
    ensures Split(Pack(q)) == q <==> CanonicalSextets(q)
  {
    if |q| < 4 {
      SplitOfShortPack(q);
    } else {
      var quad, tail := [q[0], q[1], q[2], q[3]], q[4..];
      assert q == quad + tail;
      SplitOfPackQuad(q[0], q[1], q[2], q[3], tail);
      PrefixCancels(quad, Split(Pack(tail)), tail);
      CanonicalStep(q);
      SplitOfPack(tail);
    }
  }

  /** Encoding then decoding returns the bytes; only the empty byte string is refused. */
  lemma DecodeEncode(b: seq<Byte>)
    ensures Decode(Encode(b)) == if b == [] then None else Some(b)
  {
    IndicesOfSymbols(Split(b));
    PackOfSplit(b);
  }

  /** The decoder accepts exactly the canonical texts, and each is the encoding of what it returns. */
  lemma DecodeExactly(s: string)
    ensures Decode(s).Some? <==> CanonicalText(s)
    ensures Decode(s).Some? ==> Decode(s).value != [] && Encode(Decode(s).value) == s
  {
    if s != "" && AlphabetText(s) {
      var q := Indices(s);
      SymbolsOfIndices(s);
      SplitOfPack(q);
      if Encode(Pack(q)) == s { IndicesOfSymbols(Split(Pack(q))); }
    }
  }

  /** Two accepted texts never denote the same bytes. */
  lemma DecodeInjective(s: string, t: string)
    requires Decode(s).Some? && Decode(s) == Decode(t)
    ensures s == t
  {
    DecodeExactly(s);
    DecodeExactly(t);
  }

  lemma {:induction false} SplitLength(b: seq<Byte>)
    ensures |Split(b)| == (4 * |b| + 2) / 3
  {
    if |b| >= 3 { SplitLength(b[3..]); }
  }

  lemma {:induction false} PackLength(q: seq<Sextet>)
    ensures |Pack(q)| == 3 * |q| / 4
  {
    if |q| >= 4 { PackLength(q[4..]); }
  }

  /** The accepted texts of 43 characters are exactly the encodings of 32 bytes. */
  lemma KeyTexts(s: string)
    ensures |s| == 43 && Decode(s).Some? <==> exists key: seq<Byte> :: |key| == 32 && Encode(key) == s
  {
    if |s| == 43 && Decode(s).Some? {
      DecodeExactly(s);
      PackLength(Indices(s));
    }
    if key: seq<Byte> :| |key| == 32 && Encode(key) == s {
      SplitLength(key);
      DecodeEncode(key);
    }
  }
}
