/** parseCanonical: the byte strings that are accepted as canonical JSON. */
module CanonicalBytes {
  import opened Prelude
  import opened CanonicalJson

  /** The UTF-8 byte order mark, which TextDecoder drops from the front of its input. */
  const BYTE_ORDER_MARK: seq<Byte> := [0xEF, 0xBB, 0xBF]

  function BytesOf(s: string): (b: seq<Byte>)
    requires Ascii(s)
    ensures |b| == |s| && forall i | 0 <= i < |s| :: b[i] == s[i] as int
  {
    seq(|s|, i requires 0 <= i < |s| => s[i] as Byte)
  }

  function WithoutMark(b: seq<Byte>): seq<Byte> {
    if BYTE_ORDER_MARK <= b then b[3..] else b
  }

  predicate AsciiBytes(b: seq<Byte>) {
    forall i | 0 <= i < |b| :: b[i] < 128
  }

  function TextOf(b: seq<Byte>): (s: string)
    requires AsciiBytes(b)
    ensures |s| == |b| && Ascii(s) && BytesOf(s) == b
  {
    var s := seq(|b|, i requires 0 <= i < |b| => b[i] as char);
    assert forall i | 0 <= i < |b| :: b[i] < 128 && s[i] == b[i] as char;
    s
  }

  /** Fatal UTF-8 decoding, kept to ASCII: no field of the schemas admits any other character. */
  function DecodeText(b: seq<Byte>): Option<string> {
    var body := WithoutMark(b);
    if AsciiBytes(body) then Some(TextOf(body)) else None
  }

  /** A value whose canonical text is exactly the text that was received. */
  function ParseCanonical(b: seq<Byte>): Option<Json> {
    match DecodeText(b)
    case None => None
    case Some(text) =>
      match Parse(text)
      case None => None
      case Some(v) =>
        assert InSubset(v) by { ParseInSubset(text); }
        if Print(v) == text then Some(v) else None
  }

  /** The canonical bytes of a value: what the signer signs and what every digest is taken over. */
  function CanonicalOf(v: Json): seq<Byte>
    requires InSubset(v)
  {
    assert Ascii(Print(v)) by { PrintIsAscii(v); }
    BytesOf(Print(v))
  }

  lemma Unmarked(b: seq<Byte>)
    requires b == [] || b[0] < 128
    ensures !(BYTE_ORDER_MARK <= b)
  {}

  lemma DecodeTextOfBytes(s: string)
    requires Ascii(s)
    ensures DecodeText(BytesOf(s)) == Some(s)
    ensures DecodeText(BYTE_ORDER_MARK + BytesOf(s)) == Some(s)
  {
    var b := BytesOf(s);
    Unmarked(b);
    assert (BYTE_ORDER_MARK + b)[3..] == b;
    assert TextOf(b) == s;
  }

  lemma DecodeTextInverse(b: seq<Byte>, s: string)
    requires DecodeText(b) == Some(s)
    ensures Ascii(s) && (b == BytesOf(s) || b == BYTE_ORDER_MARK + BytesOf(s))
  {
    assert BYTE_ORDER_MARK <= b ==> b == BYTE_ORDER_MARK + b[3..];
  }

  /** A byte string is accepted exactly when it is the canonical text of its value, or that text after one byte order mark. */
  lemma ParseCanonicalExactly(b: seq<Byte>, v: Json)
    ensures ParseCanonical(b) == Some(v)
       <==> InSubset(v) && (b == CanonicalOf(v) || b == BYTE_ORDER_MARK + CanonicalOf(v))
  {
    if ParseCanonical(b) == Some(v) {
      var text := DecodeText(b).value;
      ParseInSubset(text);
      DecodeTextInverse(b, text);
    }
    if InSubset(v) {
      PrintIsAscii(v);
      DecodeTextOfBytes(Print(v));
      ParsePrint(v);
    }
  }

  /** Without a leading byte order mark no two accepted byte strings have the same value. */
  lemma AcceptedBytesUnique(b: seq<Byte>, c: seq<Byte>)
    requires ParseCanonical(b).Some? && ParseCanonical(b) == ParseCanonical(c)
    ensures b == c <==> (BYTE_ORDER_MARK <= b <==> BYTE_ORDER_MARK <= c)
  {
    var v := ParseCanonical(b).value;
    ParseCanonicalExactly(b, v);
    ParseCanonicalExactly(c, v);
    var canonical := CanonicalOf(v);
    Unmarked(canonical);
  }

  /** The byte order mark is the one way the check admits two byte strings for one value: {} and EF BB BF {}. */
  lemma MarkedTextAlsoAccepted()
    ensures var plain: seq<Byte> := ['{' as Byte, '}' as Byte];
            && ParseCanonical(plain) == Some(JObject(map[]))
            && ParseCanonical(BYTE_ORDER_MARK + plain) == Some(JObject(map[]))
  {
    var v := JObject(map[]);
    assert SortedKeys(v.fields) == [] by { if k :| k in SortedKeys(v.fields) {} }
    assert Print(v) == "{}";
    assert CanonicalOf(v) == ['{' as Byte, '}' as Byte];
    ParseCanonicalExactly(CanonicalOf(v), v);
    ParseCanonicalExactly(BYTE_ORDER_MARK + CanonicalOf(v), v);
  }
}
