/**
 The v1 canonical JSON subset of signed jobs: ASCII strings, safe integers, lists and objects.
 The printer sorts object keys and writes no whitespace; the reader follows JSON.parse on every
 text of the subset's grammar, including whitespace, escapes, any key order and repeated keys.
 */
module CanonicalJson {
  import opened Prelude
  import opened Ordering

  /** A JavaScript value. An object is a finite map: the order of its keys has no meaning. */
  datatype Json =
    | JString(text: string)
    | JInteger(n: int)
    | JList(items: seq<Json>)
    | JObject(fields: map<string, Json>)

  predicate Ascii(s: string) {
    forall i | 0 <= i < |s| :: s[i] < 128 as char
  }

  /** The values the v1 subset admits. */
  predicate InSubset(v: Json) {
    match v
    case JString(t) => Ascii(t)
    case JInteger(n) => -MAX_SAFE <= n <= MAX_SAFE
    case JList(xs) => forall i | 0 <= i < |xs| :: InSubset(xs[i])
    case JObject(m) => forall k | k in m :: Ascii(k) && InSubset(m[k])
  }

  // ---------------------------------------------------------------- printing

  function HexDigit(n: int): (c: char)
    requires 0 <= n < 16
  {
    if n < 10 then '0' + n as char else 'a' + (n - 10) as char
  }

  /** JSON.stringify of one ASCII character inside a string. */
  function EscapeChar(c: char): (s: string)
    requires c < 128 as char
    ensures 1 <= |s| <= 6 && (c >= ' ' ==> |s| <= 2)
  {
    if c == '\"' then "\\\""
    else if c == '\\' then "\\\\"
    else if c == 8 as char then "\\b"
    else if c == '\t' then "\\t"
    else if c == '\n' then "\\n"
    else if c == 12 as char then "\\f"
    else if c == '\r' then "\\r"
    else if c < ' ' then "\\u00" + [HexDigit(c as int / 16), HexDigit(c as int % 16)]
    else [c]
  }

  function Escape(s: string): string
    requires Ascii(s)
  {
    if s == "" then "" else EscapeChar(s[0]) + Escape(s[1..])
  }

  function Quote(s: string): string
    requires Ascii(s)
  {
    "\"" + Escape(s) + "\""
  }

  function Digit(n: int): char
    requires 0 <= n < 10
  {
    '0' + n as char
  }

  function Digits(n: nat): string {
    if n < 10 then [Digit(n)] else Digits(n / 10) + [Digit(n % 10)]
  }

  function Decimal(n: int): string {
    if n < 0 then "-" + Digits(-n) else Digits(n)
  }

  function SortedKeys(m: map<string, Json>): (keys: seq<string>)
    ensures forall k :: k in keys <==> k in m
    ensures |keys| == |m.Keys|
    ensures forall i, j | 0 <= i < j < |keys| :: LexLe(keys[i], keys[j]) && keys[i] != keys[j]
  {
    assert TotalOrder(LexLe) by { LexIsTotalOrder(); }
    Sorted(LexLe, m.Keys)
  }

  /** canonicalJobJson. */
  function Print(v: Json): string
    requires InSubset(v)
    decreases v, 1
  {
    match v
    case JString(t) => Quote(t)
    case JInteger(n) => Decimal(n)
    case JList(xs) => "[" + PrintItems(xs) + "]"
    case JObject(m) => "{" + PrintMembers(SortedKeys(m), v) + "}"
  }

  function PrintItems(xs: seq<Json>): string
    requires forall i | 0 <= i < |xs| :: InSubset(xs[i])
    decreases xs, 0
  {
    if xs == [] then ""
    else Print(xs[0]) + (if |xs| == 1 then "" else "," + PrintItems(xs[1..]))
  }

  function PrintMembers(keys: seq<string>, v: Json): string
    requires InSubset(v) && v.JObject? && forall k | k in keys :: k in v.fields
    decreases v, 0, |keys|
  {
    if keys == [] then ""
    else Quote(keys[0]) + ":" + Print(v.fields[keys[0]])
         + (if |keys| == 1 then "" else "," + PrintMembers(keys[1..], v))
  }

  // The text in closed form, as the printer of the original writes it with join.

  const HEX_DIGITS := "0123456789abcdef"

  /** Which characters are escaped, and how: two characters where JSON has a letter for it, lower-case hex otherwise. */
  lemma EscapeExactly(c: char)
    requires c < 128 as char
    ensures c == '\"' || c == '\\' ==> EscapeChar(c) == ['\\', c]
    ensures c == 8 as char ==> EscapeChar(c) == "\\b"
    ensures c == 9 as char ==> EscapeChar(c) == "\\t"
    ensures c == 10 as char ==> EscapeChar(c) == "\\n"
    ensures c == 12 as char ==> EscapeChar(c) == "\\f"
    ensures c == 13 as char ==> EscapeChar(c) == "\\r"
    ensures c < ' ' && c !in [8 as char, 9 as char, 10 as char, 12 as char, 13 as char] ==>
              EscapeChar(c) == "\\u00" + [HEX_DIGITS[c as int / 16], HEX_DIGITS[c as int % 16]]
    ensures c >= ' ' && c != '\"' && c != '\\' ==> EscapeChar(c) == [c]
  {}

  function Joined(texts: seq<string>): string {
    if texts == [] then "" else if |texts| == 1 then texts[0] else texts[0] + "," + Joined(texts[1..])
  }

  function ItemTexts(xs: seq<Json>): seq<string>
    requires forall i | 0 <= i < |xs| :: InSubset(xs[i])
  {
    seq(|xs|, i requires 0 <= i < |xs| => Print(xs[i]))
  }

  function MemberTexts(keys: seq<string>, v: Json): seq<string>
    requires InSubset(v) && v.JObject? && forall k | k in keys :: k in v.fields
  {
    seq(|keys|, i requires 0 <= i < |keys| => Quote(keys[i]) + ":" + Print(v.fields[keys[i]]))
  }

  lemma {:induction false} ItemsJoined(xs: seq<Json>)
    requires forall i | 0 <= i < |xs| :: InSubset(xs[i])
    ensures PrintItems(xs) == Joined(ItemTexts(xs))
  {
    if |xs| > 1 {
      ItemsJoined(xs[1..]);
      assert ItemTexts(xs)[1..] == ItemTexts(xs[1..]);
      RegroupThree(Print(xs[0]), ",", PrintItems(xs[1..]));
    }
  }

  lemma {:induction false} MembersJoined(keys: seq<string>, v: Json)
    requires InSubset(v) && v.JObject? && forall k | k in keys :: k in v.fields
    ensures PrintMembers(keys, v) == Joined(MemberTexts(keys, v))
  {
    if |keys| > 1 {
      MembersJoined(keys[1..], v);
      assert MemberTexts(keys, v)[1..] == MemberTexts(keys[1..], v);
      RegroupThree(Quote(keys[0]) + ":" + Print(v.fields[keys[0]]), ",", PrintMembers(keys[1..], v));
    }
  }

  /** A list is its items joined by commas; an object its members by ascending key, joined by commas: no whitespace anywhere. */
  lemma TextExactly(v: Json, keys: seq<string>)
    requires InSubset(v)
    requires v.JObject? ==> StrictListing(LexLe, v.fields.Keys, keys)
    ensures v.JList? ==> Print(v) == "[" + Joined(ItemTexts(v.items)) + "]"
    ensures v.JObject? ==> Print(v) == "{" + Joined(MemberTexts(keys, v)) + "}"
  {
    if v.JList? {
      ItemsJoined(v.items);
    } else if v.JObject? {
      LexIsTotalOrder();
      SortedUnique(LexLe, v.fields.Keys, keys);
      MembersJoined(keys, v);
    }
  }

  // ---------------------------------------------------------------- reading

  function SkipSpace(s: string): (t: string)
    ensures |t| <= |s|
  {
    if s != "" && (s[0] == ' ' || s[0] == '\t' || s[0] == '\n' || s[0] == '\r') then SkipSpace(s[1..]) else s
  }

  function HexValue(c: char): Option<int> {
    if '0' <= c <= '9' then Some((c - '0') as int)
    else if 'a' <= c <= 'f' then Some((c - 'a') as int + 10)
    else if 'A' <= c <= 'F' then Some((c - 'A') as int + 10)
    else None
  }

  /** \uXXXX: only ASCII code units are in the subset. */
  function ReadHex(s: string): (r: Option<(char, string)>)
    ensures r.Some? ==> |r.value.1| < |s|
  {
    if |s| < 4 || s[0] != '0' || s[1] != '0' || HexValue(s[2]).None? || HexValue(s[3]).None? then None
    else
      var code := HexValue(s[2]).value * 16 + HexValue(s[3]).value;
      if code >= 128 then None else Some((code as char, s[4..]))
  }

  /** One character of a string body, possibly escaped. */
  function ReadChar(s: string): (r: Option<(char, string)>)
    ensures r.Some? ==> |r.value.1| < |s| && r.value.0 < 128 as char
  {
    if s == "" then None
    else if s[0] == '\\' then
      if |s| == 1 then None
      else if s[1] == '\"' || s[1] == '\\' || s[1] == '/' then Some((s[1], s[2..]))
      else if s[1] == 'b' then Some((8 as char, s[2..]))
      else if s[1] == 't' then Some(('\t', s[2..]))
      else if s[1] == 'n' then Some(('\n', s[2..]))
      else if s[1] == 'f' then Some((12 as char, s[2..]))
      else if s[1] == 'r' then Some(('\r', s[2..]))
      else if s[1] == 'u' then ReadHex(s[2..])
      else None
    else if s[0] < ' ' || s[0] >= 128 as char || s[0] == '\"' then None
    else Some((s[0], s[1..]))
  }

  /** A string body up to and including its closing quote. */
  function ReadString(s: string): (r: Option<(string, string)>)
    ensures r.Some? ==> |r.value.1| < |s|
  {
    if s == "" then None
    else if s[0] == '\"' then Some(("", s[1..]))
    else match ReadChar(s)
      case None => None
      case Some((c, t)) =>
        match ReadString(t)
        case None => None
        case Some((body, rest)) => Some(([c] + body, rest))
  }

  predicate IsDigit(c: char) {
    '0' <= c <= '9'
  }

  function DigitRun(s: string): (n: nat)
    ensures n <= |s|
    ensures forall i | 0 <= i < n :: IsDigit(s[i])
    ensures n < |s| ==> !IsDigit(s[n])
  {
    if s != "" && IsDigit(s[0]) then 1 + DigitRun(s[1..]) else 0
  }

  function DigitsValue(s: string, acc: nat): nat
    requires forall i | 0 <= i < |s| :: IsDigit(s[i])
  {
    if s == "" then acc
    else
      assert IsDigit(s[0]);
      DigitsValue(s[1..], acc * 10 + (s[0] - '0') as nat)
  }

  /** The digits of an integer literal. A fraction, an exponent or an unsafe magnitude is outside the subset. */
  function ReadMagnitude(t: string): (r: Option<(int, string)>)
    ensures r.Some? ==> |r.value.1| < |t| && 0 <= r.value.0 <= MAX_SAFE
  {
    if t == "" || !IsDigit(t[0]) then None
    else
      var n := if t[0] == '0' then 1 else DigitRun(t);
      var magnitude := DigitsValue(t[..n], 0);
      var rest := t[n..];
      if magnitude > MAX_SAFE || (rest != "" && (rest[0] == '.' || rest[0] == 'e' || rest[0] == 'E')) then None
      else Some((magnitude, rest))
  }

  function ReadInteger(s: string): (r: Option<(Json, string)>)
    ensures r.Some? ==> |r.value.1| < |s| && InSubset(r.value.0)
  {
    var negative := s != "" && s[0] == '-';
    match ReadMagnitude(if negative then s[1..] else s)
    case None => None
    case Some((magnitude, rest)) => Some((JInteger(if negative then -magnitude else magnitude), rest))
  }

  function ReadValue(s: string): (r: Option<(Json, string)>)
    ensures r.Some? ==> |r.value.1| < |s|
    decreases |s|, 0
  {
    var t := SkipSpace(s);
    if t == "" then None
    else if t[0] == '\"' then
      match ReadString(t[1..])
      case None => None
      case Some((body, rest)) => Some((JString(body), rest))
    else if t[0] == '[' then
      var u := SkipSpace(t[1..]);
      if u != "" && u[0] == ']' then Some((JList([]), u[1..])) else ReadItems(t[1..], [])
    else if t[0] == '{' then
      var u := SkipSpace(t[1..]);
      if u != "" && u[0] == '}' then Some((JObject(map[]), u[1..])) else ReadMembers(t[1..], map[])
    else ReadInteger(t)
  }

  function ReadItems(s: string, before: seq<Json>): (r: Option<(Json, string)>)
    ensures r.Some? ==> |r.value.1| < |s|
    decreases |s|, 1
  {
    match ReadValue(s)
    case None => None
    case Some((v, rest)) =>
      var t := SkipSpace(rest);
      if t != "" && t[0] == ']' then Some((JList(before + [v]), t[1..]))
      else if t != "" && t[0] == ',' then ReadItems(t[1..], before + [v])
      else None
  }

  /** A later member of the same name replaces an earlier one, as in JSON.parse. */
  function ReadMembers(s: string, before: map<string, Json>): (r: Option<(Json, string)>)
    ensures r.Some? ==> |r.value.1| < |s|
    decreases |s|, 1
  {
    var t := SkipSpace(s);
    if t == "" || t[0] != '\"' then None
    else match ReadString(t[1..])
      case None => None
      case Some((key, afterKey)) =>
        var u := SkipSpace(afterKey);
        if u == "" || u[0] != ':' then None
        else match ReadValue(u[1..])
          case None => None
          case Some((v, rest)) =>
            var w := SkipSpace(rest);
            if w != "" && w[0] == '}' then Some((JObject(before[key := v]), w[1..]))
            else if w != "" && w[0] == ',' then ReadMembers(w[1..], before[key := v])
            else None
  }

  /** JSON.parse restricted to texts whose value lies in the subset. */
  function Parse(s: string): Option<Json> {
    match ReadValue(s)
    case None => None
    case Some((v, rest)) => if SkipSpace(rest) == "" then Some(v) else None
  }

  // ---------------------------------------------------------------- printing then reading

  lemma ReadCharOfEscape(c: char, rest: string)
    requires c < 128 as char
    ensures ReadChar(EscapeChar(c) + rest) == Some((c, rest)) && EscapeChar(c)[0] != '\"'
  {
    var e := EscapeChar(c);
    assert (e + rest)[|e|..] == rest;
    if |e| == 6 {
      var s := (e + rest)[2..];
      assert s[0] == '0' && s[1] == '0' && s[2] == HexDigit(c as int / 16) && s[3] == HexDigit(c as int % 16);
      assert s[4..] == rest;
    }
  }

  lemma DropFirst(c: char, s: string)
    ensures ([c] + s)[1..] == s
  {}

  lemma ReadsOnward(s: string, c: char, tail: string, body: string, rest: string)
    requires s != "" && s[0] != '\"' && ReadChar(s) == Some((c, tail)) && ReadString(tail) == Some((body, rest))
    ensures ReadString(s) == Some(([c] + body, rest))
  {}

  lemma {:induction false} ReadStringOfEscape(t: string, rest: string)
    requires Ascii(t)
    ensures ReadString(Escape(t) + "\"" + rest) == Some((t, rest))
  {
    if t == "" {
      assert Escape(t) + "\"" + rest == ['\"'] + rest;
      DropFirst('\"', rest);
    } else {
      var c, tail := t[0], Escape(t[1..]) + "\"" + rest;
      assert Escape(t) + "\"" + rest == EscapeChar(c) + tail;
      ReadCharOfEscape(c, tail);
      ReadStringOfEscape(t[1..], rest);
      ReadsOnward(EscapeChar(c) + tail, c, tail, t[1..], rest);
      assert t == [c] + t[1..];
    }
  }

  lemma {:induction false} DigitsValueAppend(s: string, d: char, acc: nat)
    requires IsDigit(d) && forall i | 0 <= i < |s| :: IsDigit(s[i])
    ensures DigitsValue(s + [d], acc) == DigitsValue(s, acc) * 10 + (d - '0') as nat
  {
    if s == "" {
      assert s + [d] == [d];
      assert [d][1..] == "";
    } else {
      assert (s + [d])[1..] == s[1..] + [d];
      DigitsValueAppend(s[1..], d, acc * 10 + (s[0] - '0') as nat);
    }
  }

  lemma {:induction false} DigitsRead(n: nat)
    ensures |Digits(n)| >= 1
    ensures forall i | 0 <= i < |Digits(n)| :: IsDigit(Digits(n)[i])
    ensures Digits(n)[0] == '0' <==> n == 0
    ensures DigitsValue(Digits(n), 0) == n
  {
    if n < 10 {
      assert Digits(n)[1..] == "";
    } else {
      DigitsRead(n / 10);
      DigitsValueAppend(Digits(n / 10), Digit(n % 10), 0);
    }
  }

  lemma {:induction false} DigitRunStops(s: string, rest: string)
    requires forall i | 0 <= i < |s| :: IsDigit(s[i])
    requires rest == "" || !IsDigit(rest[0])
    ensures DigitRun(s + rest) == |s|
  {
    if s == "" {
      assert s + rest == rest;
    } else {
      assert (s + rest)[1..] == s[1..] + rest;
      DigitRunStops(s[1..], rest);
    }
  }

  /** What may follow a value inside a canonical text. */
  predicate Delimited(rest: string) {
    rest == "" || rest[0] == ',' || rest[0] == ']' || rest[0] == '}'
  }

  lemma ReadMagnitudeOfDigits(magnitude: nat, rest: string)
    requires magnitude <= MAX_SAFE && Delimited(rest)
    ensures ReadMagnitude(Digits(magnitude) + rest) == Some((magnitude, rest))
    ensures IsDigit((Digits(magnitude) + rest)[0])
  {
    var d := Digits(magnitude);
    DigitsRead(magnitude);
    DigitRunStops(d, rest);
    var n := if d[0] == '0' then 1 else DigitRun(d + rest);
    assert n == |d|;
    assert (d + rest)[..n] == d && (d + rest)[n..] == rest;
  }

  lemma ReadNonnegative(n: nat, text: string, rest: string)
    requires ReadMagnitude(text) == Some((n, rest)) && text != "" && IsDigit(text[0])
    ensures ReadInteger(text) == Some((JInteger(n), rest))
  {
    assert text[0] != '-';
  }

  lemma ReadNegative(n: nat, text: string, rest: string)
    requires ReadMagnitude(text) == Some((n, rest))
    ensures ReadInteger(['-'] + text) == Some((JInteger(0 - n), rest))
  {
    DropFirst('-', text);
  }

  lemma DecimalText(n: int, rest: string)
    ensures Decimal(n) + rest == if n < 0 then ['-'] + (Digits(-n) + rest) else Digits(n) + rest
  {
    if n < 0 { assert Decimal(n) == ['-'] + Digits(-n); }
  }

  lemma ReadIntegerOfDecimal(n: int, rest: string)
    requires -MAX_SAFE <= n <= MAX_SAFE && Delimited(rest)
    ensures ReadInteger(Decimal(n) + rest) == Some((JInteger(n), rest))
  {
    DecimalText(n, rest);
    if n < 0 {
      ReadMagnitudeOfDigits(-n, rest);
      ReadNegative(-n, Digits(-n) + rest, rest);
    } else {
      ReadMagnitudeOfDigits(n, rest);
      ReadNonnegative(n, Digits(n) + rest, rest);
    }
  }

  /** A text that begins neither with space nor with a closing bracket. */
  predicate Starts(s: string) {
    s != "" && s[0] > ' ' && s[0] != ']'
  }

  lemma WrappedStarts(open: char, s: string, close: string)
    requires open > ' ' && open != ']'
    ensures Starts([open] + s + close)
  {}

  lemma DecimalStarts(n: int)
    ensures Starts(Decimal(n))
  {
    var d := Digits(if n < 0 then -n else n);
    DigitsRead(if n < 0 then -n else n);
    assert IsDigit(d[0]);
    if n < 0 {
      WrappedStarts('-', d, []);
      assert ['-'] + d + [] == ['-'] + d;
    }
  }

  lemma PrintStart(v: Json)
    requires InSubset(v)
    ensures Starts(Print(v)) && SkipSpace(Print(v)) == Print(v)
  {
    match v {
      case JString(t) => WrappedStarts('\"', Escape(t), "\"");
      case JInteger(n) => DecimalStarts(n);
      case JList(xs) => WrappedStarts('[', PrintItems(xs), "]");
      case JObject(m) => WrappedStarts('{', PrintMembers(SortedKeys(m), v), "}");
    }
    SkipsNothing(Print(v));
  }

  // Regrouping of concatenations, stated on plain strings so that no printer is unfolded.

  lemma Regroup(a: string, b: string, c: string, d: string)
    ensures a + b + c + d == a + (b + c + d) == a + (b + (c + d))
  {}

  lemma RegroupThree(a: string, b: string, c: string)
    ensures a + b + c == a + (b + c)
  {}

  lemma RegroupFive(a: string, b: string, c: string, d: string, e: string)
    ensures a + b + c + d + e == a + (b + (c + d + e))
  {
    RegroupThree(a + b, c, d);
    RegroupThree(a + b, c + d, e);
    RegroupThree(a, b, c + d + e);
  }

  // How the reader moves over a text whose first character is known.

  lemma ReadsQuoted(s: string, body: string, rest: string)
    requires s != "" && s[0] == '\"' && ReadString(s[1..]) == Some((body, rest))
    ensures ReadValue(s) == Some((JString(body), rest))
  {}

  lemma ReadsDigits(s: string)
    requires s != "" && (s[0] == '-' || IsDigit(s[0]))
    ensures ReadValue(s) == ReadInteger(s)
  {}

  lemma ReadsList(s: string)
    requires |s| >= 2 && s[0] == '[' && SkipSpace(s[1..]) == s[1..]
    ensures ReadValue(s) == if s[1] == ']' then Some((JList([]), s[2..])) else ReadItems(s[1..], [])
  {
    assert s[1..][1..] == s[2..];
  }

  lemma ReadsObject(s: string)
    requires |s| >= 2 && s[0] == '{' && SkipSpace(s[1..]) == s[1..]
    ensures ReadValue(s) == if s[1] == '}' then Some((JObject(map[]), s[2..])) else ReadMembers(s[1..], map[])
  {
    assert s[1..][1..] == s[2..];
  }

  lemma ReadsItem(s: string, before: seq<Json>, v: Json, rest: string)
    requires ReadValue(s) == Some((v, rest)) && rest != ""
    ensures rest[0] == ']' ==> ReadItems(s, before) == Some((JList(before + [v]), rest[1..]))
    ensures rest[0] == ',' ==> ReadItems(s, before) == ReadItems(rest[1..], before + [v])
  {}

  lemma ReadsMember(s: string, before: map<string, Json>, key: string, colon: string, v: Json, rest: string)
    requires s != "" && s[0] == '\"' && ReadString(s[1..]) == Some((key, colon))
    requires colon != "" && colon[0] == ':' && ReadValue(colon[1..]) == Some((v, rest)) && rest != ""
    ensures rest[0] == '}' ==> ReadMembers(s, before) == Some((JObject(before[key := v]), rest[1..]))
    ensures rest[0] == ',' ==> ReadMembers(s, before) == ReadMembers(rest[1..], before[key := v])
  {
    assert SkipSpace(s) == s && SkipSpace(colon) == colon;
  }

  /** Reading the canonical text of a value returns that value and leaves the rest untouched. */
  lemma {:induction false} ReadValueOfPrint(v: Json, rest: string)
    requires InSubset(v) && Delimited(rest)
    ensures ReadValue(Print(v) + rest) == Some((v, rest))
    decreases v, 2
  {
    var s := Print(v) + rest;
    match v
    case JString(t) =>
      assert s[1..] == Escape(t) + "\"" + rest;
      ReadStringOfEscape(t, rest);
      ReadsQuoted(s, t, rest);
    case JInteger(n) =>
      DigitsRead(if n < 0 then -n else n);
      ReadsDigits(s);
      ReadIntegerOfDecimal(n, rest);
    case JList(xs) => ReadListOfPrint(v, rest);
    case JObject(m) => ReadObjectOfPrint(v, rest);
  }

  lemma ListText(v: Json, rest: string)
    requires InSubset(v) && v.JList?
    ensures Print(v) + rest == "[" + (PrintItems(v.items) + "]" + rest)
  {
    Regroup("[", PrintItems(v.items), "]", rest);
  }

  lemma ItemsStart(xs: seq<Json>, rest: string)
    requires forall i | 0 <= i < |xs| :: InSubset(xs[i])
    ensures var s := PrintItems(xs) + "]" + rest;
            s != "" && SkipSpace(s) == s && (if xs == [] then s == "]" + rest else s[0] != ']')
  {
    if xs != [] { PrintStart(xs[0]); }
    SkipsNothing(PrintItems(xs) + "]" + rest);
  }

  lemma {:induction false} ReadListOfPrint(v: Json, rest: string)
    requires InSubset(v) && v.JList? && Delimited(rest)
    ensures ReadValue(Print(v) + rest) == Some((v, rest))
    decreases v, 1
  {
    var body := PrintItems(v.items) + "]" + rest;
    ListText(v, rest);
    DropFirst('[', body);
    ItemsStart(v.items, rest);
    ReadsList("[" + body);
    if v.items != [] {
      ReadItemsOfPrint(v.items, [], rest);
      assert [] + v.items == v.items;
    } else {
      assert ("[" + body)[2..] == rest;
    }
  }

  lemma ObjectText(v: Json, rest: string)
    requires InSubset(v) && v.JObject?
    ensures Print(v) + rest == "{" + (PrintMembers(SortedKeys(v.fields), v) + "}" + rest)
  {
    Regroup("{", PrintMembers(SortedKeys(v.fields), v), "}", rest);
  }

  lemma MembersStart(keys: seq<string>, v: Json, rest: string)
    requires InSubset(v) && v.JObject? && forall k | k in keys :: k in v.fields
    ensures var s := PrintMembers(keys, v) + "}" + rest;
            if keys == [] then s == "}" + rest else s[0] == '\"'
  {}

  lemma AllMembers(v: Json)
    requires v.JObject?
    ensures map[] + (map k | k in SortedKeys(v.fields) :: v.fields[k]) == v.fields
    ensures SortedKeys(v.fields) == [] ==> v.fields == map[]
  {
    assert SortedKeys(v.fields) == [] ==> forall k :: k !in SortedKeys(v.fields);
  }

  lemma {:induction false} ReadObjectOfPrint(v: Json, rest: string)
    requires InSubset(v) && v.JObject? && Delimited(rest)
    ensures ReadValue(Print(v) + rest) == Some((v, rest))
    decreases v, 1
  {
    var keys := SortedKeys(v.fields);
    var body := PrintMembers(keys, v) + "}" + rest;
    ObjectText(v, rest);
    DropFirst('{', body);
    MembersStart(keys, v, rest);
    AllMembers(v);
    SkipsNothing(body);
    ReadsObject("{" + body);
    if keys != [] {
      ReadMembersOfPrint(keys, v, map[], rest);
    } else {
      assert ("{" + body)[2..] == rest;
    }
  }

  lemma SkipsNothing(s: string)
    requires s != "" && s[0] > ' '
    ensures SkipSpace(s) == s
  {}

  /** What follows an item: the closing character, or a comma and the remaining items. */
  function TailOf(last: bool, more: string, close: char, rest: string): string {
    if last then [close] + rest else "," + (more + [close] + rest)
  }

  /** The printed list `all` is its first item and its tail; past the tail's first character the rest goes on. */
  predicate Follows(all: string, first: string, last: bool, more: string, close: char, rest: string) {
    && all + [close] + rest == first + TailOf(last, more, close, rest)
    && TailOf(last, more, close, rest)[1..] == if last then rest else more + [close] + rest
  }

  lemma TailText(all: string, first: string, last: bool, more: string, close: char, rest: string)
    requires all == if last then first else first + "," + more
    ensures Follows(all, first, last, more, close, rest)
  {
    if last {
      assert all + [close] + rest == first + ([close] + rest);
      DropFirst(close, rest);
    } else {
      RegroupFive(first, ",", more, [close], rest);
      DropFirst(',', more + [close] + rest);
    }
  }

  /** The text after the first item of a printed list, up to and including the closing bracket. */
  function ItemsTail(xs: seq<Json>, rest: string): string
    requires xs != [] && forall i | 0 <= i < |xs| :: InSubset(xs[i])
  {
    TailOf(|xs| == 1, PrintItems(xs[1..]), ']', rest)
  }

  lemma ItemsUnfold(xs: seq<Json>)
    requires xs != [] && forall i | 0 <= i < |xs| :: InSubset(xs[i])
    ensures PrintItems(xs) == if |xs| == 1 then Print(xs[0]) else Print(xs[0]) + "," + PrintItems(xs[1..])
  {}

  lemma ItemsText(xs: seq<Json>, rest: string)
    requires xs != [] && forall i | 0 <= i < |xs| :: InSubset(xs[i])
    ensures Follows(PrintItems(xs), Print(xs[0]), |xs| == 1, PrintItems(xs[1..]), ']', rest)
  {
    ItemsUnfold(xs);
    TailText(PrintItems(xs), Print(xs[0]), |xs| == 1, PrintItems(xs[1..]), ']', rest);
  }

  lemma {:induction false} ReadItemsOfPrint(xs: seq<Json>, before: seq<Json>, rest: string)
    requires xs != [] && forall i | 0 <= i < |xs| :: InSubset(xs[i])
    ensures ReadItems(PrintItems(xs) + "]" + rest, before) == Some((JList(before + xs), rest))
    decreases xs, 0
  {
    var tail := ItemsTail(xs, rest);
    ItemsText(xs, rest);
    ReadValueOfPrint(xs[0], tail);
    ReadsItem(Print(xs[0]) + tail, before, xs[0], tail);
    ItemsJoin(xs, before);
    if |xs| > 1 {
      ReadItemsOfPrint(xs[1..], before + [xs[0]], rest);
    }
  }

  lemma ItemsJoin(xs: seq<Json>, before: seq<Json>)
    requires xs != []
    ensures before + [xs[0]] + xs[1..] == before + xs
    ensures |xs| == 1 ==> before + [xs[0]] == before + xs
  {}

  /** The text after the first member of a printed object, up to and including the closing brace. */
  function MembersTail(keys: seq<string>, v: Json, rest: string): string
    requires InSubset(v) && v.JObject? && keys != [] && forall k | k in keys :: k in v.fields
  {
    TailOf(|keys| == 1, PrintMembers(keys[1..], v), '}', rest)
  }

  lemma MembersText(keys: seq<string>, v: Json, rest: string)
    requires InSubset(v) && v.JObject? && keys != [] && forall k | k in keys :: k in v.fields
    ensures PrintMembers(keys, v) + "}" + rest
         == "\"" + (Escape(keys[0]) + "\"" + (":" + (Print(v.fields[keys[0]]) + MembersTail(keys, v, rest))))
    ensures MembersTail(keys, v, rest)[1..] == if |keys| == 1 then rest else PrintMembers(keys[1..], v) + "}" + rest
  {
    var key, first := Escape(keys[0]), Print(v.fields[keys[0]]);
    if |keys| == 1 {
      MemberText(key, first, "", rest);
      DropFirst('}', rest);
      assert "\"" + key + "\"" + ":" + first + "" == "\"" + key + "\"" + ":" + first;
      assert "" + "}" + rest == "}" + rest;
    } else {
      var more := PrintMembers(keys[1..], v);
      MemberText(key, first, "," + more, rest);
      Regroup(",", more, "}", rest);
      DropFirst(',', more + "}" + rest);
    }
  }

  lemma MemberText(key: string, first: string, more: string, rest: string)
    ensures "\"" + key + "\"" + ":" + first + more + "}" + rest
         == "\"" + (key + "\"" + (":" + (first + (more + "}" + rest))))
  {}

  lemma {:induction false} ReadMembersOfPrint(keys: seq<string>, v: Json, before: map<string, Json>, rest: string)
    requires InSubset(v) && v.JObject? && keys != [] && forall k | k in keys :: k in v.fields
    ensures ReadMembers(PrintMembers(keys, v) + "}" + rest, before)
         == Some((JObject(before + (map k | k in keys :: v.fields[k])), rest))
    decreases v, 0, |keys|
  {
    var k, x, tail := keys[0], v.fields[keys[0]], MembersTail(keys, v, rest);
    var colon := ":" + (Print(x) + tail);
    var s := "\"" + (Escape(k) + "\"" + colon);
    MembersText(keys, v, rest);
    assert s[1..] == Escape(k) + "\"" + colon;
    ReadStringOfEscape(k, colon);
    assert colon[1..] == Print(x) + tail;
    ReadValueOfPrint(x, tail);
    ReadsMember(s, before, k, colon, x, tail);
    if |keys| == 1 {
      LastMember(keys, v.fields, before);
    } else {
      ReadMembersOfPrint(keys[1..], v, before[k := x], rest);
      MembersJoin(keys, v.fields, before);
    }
  }

  lemma LastMember(keys: seq<string>, m: map<string, Json>, before: map<string, Json>)
    requires |keys| == 1 && keys[0] in m
    ensures before[keys[0] := m[keys[0]]] == before + (map k | k in keys :: m[k])
  {}

  lemma MembersJoin(keys: seq<string>, m: map<string, Json>, before: map<string, Json>)
    requires |keys| >= 1 && forall k | k in keys :: k in m
    ensures before[keys[0] := m[keys[0]]] + (map k | k in keys[1..] :: m[k]) == before + (map k | k in keys :: m[k])
  {
    assert keys == [keys[0]] + keys[1..];
  }

  /** Parsing the canonical text of any value of the subset returns that value. */
  lemma ParsePrint(v: Json)
    requires InSubset(v)
    ensures Parse(Print(v)) == Some(v)
  {
    ReadValueOfPrint(v, "");
    assert Print(v) + "" == Print(v);
  }

  /** Two values never share a canonical text. */
  lemma PrintInjective(v: Json, w: Json)
    requires InSubset(v) && InSubset(w) && Print(v) == Print(w)
    ensures v == w
  {
    ParsePrint(v);
    ParsePrint(w);
  }

  // ---------------------------------------------------------------- what the reader can return

  lemma {:induction false} ReadStringIsAscii(s: string)
    ensures ReadString(s).Some? ==> Ascii(ReadString(s).value.0)
  {
    if s != "" && s[0] != '\"' && ReadChar(s).Some? {
      ReadStringIsAscii(ReadChar(s).value.1);
    }
  }

  lemma {:induction false} ReadValueInSubset(s: string)
    ensures ReadValue(s).Some? ==> InSubset(ReadValue(s).value.0)
    decreases |s|, 0
  {
    var t := SkipSpace(s);
    if t != "" {
      if t[0] == '\"' {
        ReadStringIsAscii(t[1..]);
      } else if t[0] == '[' {
        ReadItemsInSubset(t[1..], []);
      } else if t[0] == '{' {
        ReadMembersInSubset(t[1..], map[]);
      }
    }
  }

  lemma {:induction false} ReadItemsInSubset(s: string, before: seq<Json>)
    requires forall i | 0 <= i < |before| :: InSubset(before[i])
    ensures ReadItems(s, before).Some? ==> InSubset(ReadItems(s, before).value.0)
    decreases |s|, 1
  {
    ReadValueInSubset(s);
    match ReadValue(s)
    case None =>
    case Some((v, rest)) =>
      var t := SkipSpace(rest);
      var now := before + [v];
      assert forall i | 0 <= i < |now| :: InSubset(now[i]);
      if t != "" && t[0] == ',' { ReadItemsInSubset(t[1..], now); }
  }

  lemma {:induction false} ReadMembersInSubset(s: string, before: map<string, Json>)
    requires forall k | k in before :: Ascii(k) && InSubset(before[k])
    ensures ReadMembers(s, before).Some? ==> InSubset(ReadMembers(s, before).value.0)
    decreases |s|, 1
  {
    var t := SkipSpace(s);
    if t != "" && t[0] == '\"' && ReadString(t[1..]).Some? {
      ReadStringIsAscii(t[1..]);
      var key, u := ReadString(t[1..]).value.0, SkipSpace(ReadString(t[1..]).value.1);
      if u != "" && u[0] == ':' {
        ReadValueInSubset(u[1..]);
        match ReadValue(u[1..])
        case None =>
        case Some((v, rest)) =>
          var w := SkipSpace(rest);
          if w != "" && w[0] == ',' { ReadMembersInSubset(w[1..], before[key := v]); }
      }
    }
  }

  lemma ParseInSubset(s: string)
    ensures Parse(s).Some? ==> InSubset(Parse(s).value)
  {
    ReadValueInSubset(s);
  }

  lemma {:induction false} EscapeIsAscii(s: string)
    requires Ascii(s)
    ensures Ascii(Escape(s))
  {
    if s != "" { EscapeIsAscii(s[1..]); }
  }

  lemma {:induction false} DigitsAreAscii(n: nat)
    ensures Ascii(Digits(n))
  {
    if n >= 10 { DigitsAreAscii(n / 10); }
  }

  /** A text in quotes or brackets. */
  lemma WrappedIsAscii(open: string, s: string, close: string)
    requires Ascii(open) && Ascii(s) && Ascii(close)
    ensures Ascii(open + s + close)
  {}

  /** Parts in a row, the last one optional: the shape of a printed item or member list. */
  lemma JoinedIsAscii(a: string, b: string, last: bool, more: string)
    requires Ascii(a) && Ascii(b) && Ascii(more)
    ensures Ascii(a + b + (if last then "" else "," + more))
  {}

  lemma {:induction false} PrintIsAscii(v: Json)
    requires InSubset(v)
    ensures Ascii(Print(v))
    decreases v, 1
  {
    match v
    case JString(t) =>
      EscapeIsAscii(t);
      WrappedIsAscii("\"", Escape(t), "\"");
    case JInteger(n) => DigitsAreAscii(if n < 0 then -n else n);
    case JList(xs) =>
      PrintItemsIsAscii(xs);
      WrappedIsAscii("[", PrintItems(xs), "]");
    case JObject(m) =>
      PrintMembersIsAscii(SortedKeys(m), v);
      WrappedIsAscii("{", PrintMembers(SortedKeys(m), v), "}");
  }

  lemma {:induction false} PrintItemsIsAscii(xs: seq<Json>)
    requires forall i | 0 <= i < |xs| :: InSubset(xs[i])
    ensures Ascii(PrintItems(xs))
    decreases xs, 0
  {
    if xs != [] {
      PrintIsAscii(xs[0]);
      PrintItemsIsAscii(xs[1..]);
      JoinedIsAscii("", Print(xs[0]), |xs| == 1, PrintItems(xs[1..]));
      assert "" + Print(xs[0]) == Print(xs[0]);
    }
  }

  lemma {:induction false} PrintMembersIsAscii(keys: seq<string>, v: Json)
    requires InSubset(v) && v.JObject? && forall k | k in keys :: k in v.fields
    ensures Ascii(PrintMembers(keys, v))
    decreases v, 0, |keys|
  {
    if keys != [] {
      EscapeIsAscii(keys[0]);
      WrappedIsAscii("\"", Escape(keys[0]), "\"");
      WrappedIsAscii(Quote(keys[0]), ":", "");
      assert Quote(keys[0]) + ":" + "" == Quote(keys[0]) + ":";
      PrintIsAscii(v.fields[keys[0]]);
      PrintMembersIsAscii(keys[1..], v);
      JoinedIsAscii(Quote(keys[0]) + ":", Print(v.fields[keys[0]]), |keys| == 1, PrintMembers(keys[1..], v));
    }
  }
}
