/** Tool patterns: the grammar, the regular expression they compile to, and what one pattern says about another. */
module Glob {
  import opened Prelude

  datatype PatternError = BlankPattern | InvalidCharacters

  /** What String.prototype.trim removes. */
  predicate JsSpace(c: char) {
    || '\t' <= c <= '\r' || c == ' ' || c == '\U{A0}' || c == '\U{1680}' || '\U{2000}' <= c <= '\U{200A}'
    || c == '\U{2028}' || c == '\U{2029}' || c == '\U{202F}' || c == '\U{205F}' || c == '\U{3000}' || c == '\U{FEFF}'
  }

  predicate Blank(p: string) {
    forall i | 0 <= i < |p| :: JsSpace(p[i])
  }

  /** validateToolPattern. */
  function Validate(p: string): Option<PatternError> {
    if Blank(p) then Some(BlankPattern)
    else if exists i | 0 <= i < |p| :: p[i] == '\r' || p[i] == '\n' || p[i] == '\0' then Some(InvalidCharacters)
    else None
  }

  /** White space and line terminators of ECMAScript, by code point. */
  predicate TrimmedCode(code: int) {
    || 9 <= code < 14 || code == 32 || code == 160 || code == 5760 || 8192 <= code < 8203
    || code == 8232 || code == 8233 || code == 8239 || code == 8287 || code == 12288 || code == 65279
  }

  lemma SpaceExactly(c: char)
    ensures JsSpace(c) <==> TrimmedCode(c as int)
  {}

  /** A pattern is refused exactly when nothing is left of it trimmed, or else it has a line break or a NUL. */
  lemma ValidateExactly(p: string)
    ensures Validate(p) == Some(BlankPattern) <==> forall i | 0 <= i < |p| :: TrimmedCode(p[i] as int)
    ensures Validate(p) == Some(InvalidCharacters)
       <==> ((exists i | 0 <= i < |p| :: !TrimmedCode(p[i] as int)) && (10 as char in p || 13 as char in p || 0 as char in p))
  {
    forall i | 0 <= i < |p| ensures JsSpace(p[i]) <==> TrimmedCode(p[i] as int) { SpaceExactly(p[i]); }
  }

  predicate ValidPattern(p: string) {
    Validate(p).None?
  }

  /** The characters `.` does not match. */
  predicate LineTerminator(c: char) {
    c == '\n' || c == '\r' || c == '\U{2028}' || c == '\U{2029}'
  }

  // ---------------------------------------------------------------- compilation

  /** The character class of the escaping replace. */
  predicate Escaped(c: char) {
    || c == '.' || c == '+' || c == '?' || c == '^' || c == '$' || c == '{' || c == '}'
    || c == '(' || c == ')' || c == '|' || c == '[' || c == ']' || c == '\\'
  }

  function Escape(p: string): string {
    if p == [] then [] else (if Escaped(p[0]) then ['\\', p[0]] else [p[0]]) + Escape(p[1..])
  }

  function StarsToRuns(t: string): string {
    if t == [] then [] else (if t[0] == '*' then ['.', '*'] else [t[0]]) + StarsToRuns(t[1..])
  }

  /** The source text handed to the RegExp constructor. */
  function RegexSource(p: string): string {
    ['^'] + StarsToRuns(Escape(p)) + ['$']
  }

  /** The regular expressions in use: a fixed character, or any run of non-terminators. */
  datatype Token = Literal(c: char) | AnyRun

  /** The syntax characters of ECMAScript patterns; unescaped, each means something other than itself. */
  predicate SyntaxCharacter(c: char) {
    c in ['^', '$', '\\', '.', '*', '+', '?', '(', ')', '[', ']', '{', '}', '|']
  }

  /** Read a pattern body up to its closing `$`; None marks a pattern outside the fragment. */
  function ReadTokens(t: string): Option<seq<Token>>
    decreases |t|
  {
    if t == [] then None
    else if t == ['$'] then Some([])
    else if t[0] == '.' && |t| > 1 && t[1] == '*' then Prepend(AnyRun, ReadTokens(t[2..]))
    else if t[0] == '\\' && |t| > 1 && SyntaxCharacter(t[1]) then Prepend(Literal(t[1]), ReadTokens(t[2..]))
    else if SyntaxCharacter(t[0]) then None
    else Prepend(Literal(t[0]), ReadTokens(t[1..]))
  }

  function Prepend(k: Token, rest: Option<seq<Token>>): Option<seq<Token>> {
    match rest
    case None => None
    case Some(tokens) => Some([k] + tokens)
  }

  function ReadRegex(source: string): Option<seq<Token>> {
    if source != [] && source[0] == '^' then ReadTokens(source[1..]) else None
  }

  /** The anchored expression accepts the text: each run takes any number of non-terminators. */
  predicate Accepts(tokens: seq<Token>, s: string)
    decreases |tokens| + |s|
  {
    if tokens == [] then s == []
    else match tokens[0]
      case Literal(c) => s != [] && s[0] == c && Accepts(tokens[1..], s[1..])
      case AnyRun => Accepts(tokens[1..], s) || (s != [] && !LineTerminator(s[0]) && Accepts(tokens, s[1..]))
  }

  function TokenOf(c: char): Token {
    if c == '*' then AnyRun else Literal(c)
  }

  function Tokens(p: string): (r: seq<Token>)
    ensures |r| == |p|
  {
    if p == [] then [] else [TokenOf(p[0])] + Tokens(p[1..])
  }

  /** What the two replacements make of one character. */
  function CharSource(c: char): string {
    if Escaped(c) then ['\\', c] else if c == '*' then ['.', '*'] else [c]
  }

  lemma {:induction false} StarsToRunsConcat(a: string, b: string)
    ensures StarsToRuns(a + b) == StarsToRuns(a) + StarsToRuns(b)
  {
    if a == [] {
      assert a + b == b;
    } else {
      assert (a + b)[1..] == a[1..] + b;
      StarsToRunsConcat(a[1..], b);
    }
  }

  lemma StarsToRunsOne(c: char)
    ensures StarsToRuns([c]) == if c == '*' then ['.', '*'] else [c]
  {
    assert StarsToRuns([c][1..]) == [];
  }

  lemma EscapedCharSource(c: char)
    ensures StarsToRuns(if Escaped(c) then ['\\', c] else [c]) == CharSource(c)
  {
    StarsToRunsOne(c);
    if Escaped(c) {
      StarsToRunsOne('\\');
      StarsToRunsConcat(['\\'], [c]);
      assert ['\\'] + [c] == ['\\', c];
    }
  }

  lemma SourceBodyOf(p: string)
    requires p != []
    ensures StarsToRuns(Escape(p)) == CharSource(p[0]) + StarsToRuns(Escape(p[1..]))
  {
    var first := if Escaped(p[0]) then ['\\', p[0]] else [p[0]];
    EscapedCharSource(p[0]);
    StarsToRunsConcat(first, Escape(p[1..]));
  }

  lemma ReadCharSource(c: char, rest: string)
    requires rest != []
    ensures ReadTokens(CharSource(c) + rest) == Prepend(TokenOf(c), ReadTokens(rest))
  {
    var t := CharSource(c) + rest;
    if Escaped(c) || c == '*' {
      assert t[2..] == rest;
    } else {
      assert t[1..] == rest;
    }
  }

  lemma {:induction false} SourceBodyReads(p: string)
    ensures ReadTokens(StarsToRuns(Escape(p)) + ['$']) == Some(Tokens(p))
  {
    if p != [] {
      var rest := StarsToRuns(Escape(p[1..])) + ['$'];
      SourceBodyReads(p[1..]);
      SourceBodyOf(p);
      assert CharSource(p[0]) + StarsToRuns(Escape(p[1..])) + ['$'] == CharSource(p[0]) + rest;
      ReadCharSource(p[0], rest);
    }
  }

  /** Escaping is complete: the compiled source reads as exactly the pattern's own characters and stars. */
  lemma SourceReadsBack(p: string)
    ensures ReadRegex(RegexSource(p)) == Some(Tokens(p))
  {
    SourceBodyReads(p);
    assert RegexSource(p)[1..] == StarsToRuns(Escape(p)) + ['$'];
  }

  // ---------------------------------------------------------------- meaning

  /** The glob matches the name. */
  predicate Matches(g: string, s: string)
    decreases |g| + |s|
  {
    if g == [] then s == []
    else if g[0] == '*' then Matches(g[1..], s) || (s != [] && !LineTerminator(s[0]) && Matches(g, s[1..]))
    else s != [] && s[0] == g[0] && Matches(g[1..], s[1..])
  }

  lemma {:induction false} TokensMatch(g: string, s: string)
    ensures Accepts(Tokens(g), s) == Matches(g, s)
    decreases |g| + |s|
  {
    if g != [] {
      assert Tokens(g)[1..] == Tokens(g[1..]);
      TokensMatch(g[1..], s);
      if s != [] {
        TokensMatch(g[1..], s[1..]);
        TokensMatch(g, s[1..]);
      }
    }
  }

  /** matchesToolPattern: compile and test, after validating the pattern; the name is never validated. */
  function MatchesToolPattern(p: string, name: string): (r: Result<bool, PatternError>)
    ensures r.Ok? <==> ValidPattern(p)
    ensures r.Ok? ==> r.value == Matches(p, name)
  {
    match Validate(p)
    case Some(e) => Err(e)
    case None =>
      SourceReadsBack(p);
      TokensMatch(p, name);
      match ReadRegex(RegexSource(p))
      case None => Ok(false)
      case Some(tokens) => Ok(Accepts(tokens, name))
  }

  function Stars(g: string): nat {
    if g == [] then 0 else (if g[0] == '*' then 1 else 0) + Stars(g[1..])
  }

  /** The pattern's text with its stars replaced, left to right, by the given runs. */
  function Fill(g: string, runs: seq<string>): string
    requires |runs| == Stars(g)
  {
    if g == [] then []
    else if g[0] == '*' then runs[0] + Fill(g[1..], runs[1..])
    else [g[0]] + Fill(g[1..], runs)
  }

  predicate OneLine(s: string) {
    forall i | 0 <= i < |s| :: !LineTerminator(s[i])
  }

  ghost predicate Instance(g: string, runs: seq<string>, s: string) {
    |runs| == Stars(g) && (forall i | 0 <= i < |runs| :: OneLine(runs[i])) && Fill(g, runs) == s
  }

  lemma {:induction false} MatchHasRuns(g: string, s: string) returns (runs: seq<string>)
    requires Matches(g, s)
    ensures Instance(g, runs, s)
    decreases |g| + |s|
  {
    if g == [] {
      runs := [];
    } else if g[0] != '*' {
      runs := MatchHasRuns(g[1..], s[1..]);
      assert s == [s[0]] + s[1..];
    } else if Matches(g[1..], s) {
      var rest := MatchHasRuns(g[1..], s);
      runs := [[]] + rest;
      assert runs[1..] == rest;
    } else {
      var rest := MatchHasRuns(g, s[1..]);
      runs := rest[0 := [s[0]] + rest[0]];
      assert runs[1..] == rest[1..];
      assert Fill(g, runs) == [s[0]] + (rest[0] + Fill(g[1..], rest[1..]));
      assert s == [s[0]] + s[1..];
    }
  }

  lemma {:induction false} StarTakesRun(g: string, run: string, s: string)
    requires g != [] && g[0] == '*' && OneLine(run) && Matches(g[1..], s)
    ensures Matches(g, run + s)
  {
    if run == [] {
      assert run + s == s;
    } else {
      StarTakesRun(g, run[1..], s);
      assert (run + s)[1..] == run[1..] + s;
    }
  }

  lemma {:induction false} RunsMatch(g: string, runs: seq<string>)
    requires |runs| == Stars(g) && forall i | 0 <= i < |runs| :: OneLine(runs[i])
    ensures Matches(g, Fill(g, runs))
  {
    if g != [] {
      if g[0] == '*' {
        RunsMatch(g[1..], runs[1..]);
        StarTakesRun(g, runs[0], Fill(g[1..], runs[1..]));
      } else {
        RunsMatch(g[1..], runs);
        assert Fill(g, runs)[1..] == Fill(g[1..], runs);
      }
    }
  }

  /** A glob matches exactly its own text with every star replaced by some run of one line. */
  lemma MatchesExactly(g: string, s: string)
    ensures Matches(g, s) <==> exists runs :: Instance(g, runs, s)
  {
    if Matches(g, s) { var runs := MatchHasRuns(g, s); }
    if runs :| Instance(g, runs, s) { RunsMatch(g, runs); }
  }

  /** A star matches every single character but the four line terminators, by code point. */
  lemma StarMatchesCharacter(c: char)
    ensures Matches(['*'], [c]) <==> c as int !in {10, 13, 8232, 8233}
  {
    assert [c][1..] == [] && ['*'][1..] == [];
    assert Matches([], []) && !Matches([], [c]);
  }

  /** Every glob matches itself read as plain text. */
  lemma {:induction false} MatchesItself(g: string)
    ensures Matches(g, g)
  {
    if g != [] {
      MatchesItself(g[1..]);
      if g[0] == '*' {
        StarTakesRun(g, ['*'], g[1..]);
        assert ['*'] + g[1..] == g;
      }
    }
  }

  /** Matching composes: what matches a matched pattern is matched. */
  lemma {:induction false} MatchesTransitive(g: string, p: string, s: string)
    requires Matches(g, p) && Matches(p, s)
    ensures Matches(g, s)
    decreases |g| + |p| + |s|
  {
    if g != [] {
      if g[0] != '*' {
        MatchesTransitive(g[1..], p[1..], s[1..]);
      } else if Matches(g[1..], p) {
        MatchesTransitive(g[1..], p, s);
      } else if p[0] != '*' {
        MatchesTransitive(g, p[1..], s[1..]);
      } else if Matches(p[1..], s) {
        MatchesTransitive(g, p[1..], s);
      } else {
        MatchesTransitive(g, p, s[1..]);
      }
    }
  }

  /** Everything P matches, G matches. */
  ghost predicate Covers(g: string, p: string) {
    forall s | Matches(p, s) :: Matches(g, s)
  }

  /** Textual cover is exact: G matches the text of P if and only if G matches every name P matches. */
  lemma CoverExact(g: string, p: string)
    ensures Matches(g, p) <==> Covers(g, p)
  {
    MatchesItself(p);
    if Matches(g, p) {
      forall s | Matches(p, s) ensures Matches(g, s) { MatchesTransitive(g, p, s); }
    }
  }

  // ---------------------------------------------------------------- names without stars

  predicate StarFree(s: string) {
    forall i | 0 <= i < |s| :: s[i] != '*'
  }

  function StarsAs(p: string, c: char): string {
    if p == [] then [] else [if p[0] == '*' then c else p[0]] + StarsAs(p[1..], c)
  }

  lemma {:induction false} StarsAsMatched(p: string, c: char)
    requires c != '*' && !LineTerminator(c)
    ensures Matches(p, StarsAs(p, c)) && StarFree(StarsAs(p, c))
  {
    if p != [] {
      StarsAsMatched(p[1..], c);
      var s := StarsAs(p, c);
      assert s[1..] == StarsAs(p[1..], c);
      assert s == [s[0]] + s[1..];
      if p[0] == '*' { StarTakesRun(p, [c], s[1..]); }
    }
  }

  /** A character the glob does not mention can only be taken by a star, which takes a star as well. */
  lemma {:induction false} FreshCharacterIsStar(g: string, p: string, c: char)
    requires c != '*' && c !in g && !LineTerminator(c) && Matches(g, StarsAs(p, c))
    ensures Matches(g, p)
    decreases |g| + |p|
  {
    if g != [] {
      if p != [] { assert StarsAs(p, c)[1..] == StarsAs(p[1..], c); }
      if g[0] != '*' {
        FreshCharacterIsStar(g[1..], p[1..], c);
      } else if Matches(g[1..], StarsAs(p, c)) {
        FreshCharacterIsStar(g[1..], p, c);
      } else {
        FreshCharacterIsStar(g, p[1..], c);
      }
    }
  }

  /** Cover stays exact over names without stars, as soon as one ordinary character does not occur in G. */
  lemma CoverExactForStarFreeNames(g: string, p: string, c: char)
    requires c != '*' && c !in g && !LineTerminator(c)
    ensures Matches(g, p) <==> forall s | StarFree(s) && Matches(p, s) :: Matches(g, s)
  {
    if Matches(g, p) {
      forall s | StarFree(s) && Matches(p, s) ensures Matches(g, s) { MatchesTransitive(g, p, s); }
    } else {
      StarsAsMatched(p, c);
      if Matches(g, StarsAs(p, c)) { FreshCharacterIsStar(g, p, c); }
    }
  }

  /** A valid pattern never matches a carriage return or a line feed. */
  lemma {:induction false} MatchedTextHasNoBreaks(g: string, s: string)
    requires (forall i | 0 <= i < |g| :: g[i] != '\r' && g[i] != '\n') && Matches(g, s)
    ensures forall i | 0 <= i < |s| :: s[i] != '\r' && s[i] != '\n'
    decreases |g| + |s|
  {
    if g != [] {
      if g[0] == '*' && Matches(g[1..], s) {
        MatchedTextHasNoBreaks(g[1..], s);
      } else {
        MatchedTextHasNoBreaks(if g[0] == '*' then g else g[1..], s[1..]);
        assert s == [s[0]] + s[1..];
      }
    }
  }
}
