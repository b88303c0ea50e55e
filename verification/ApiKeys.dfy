/** API keys: which scopes a new key may carry, and what its scopes then allow. */
module ApiKeys {
  import opened Prelude
  import opened Glob
  import opened ToolPolicy

  /** A row of the permission query: a tool pattern, and whether it comes from a user's own upstream. */
  datatype Permission = Permission(pattern: string, custom: bool)

  datatype ApiKey = ApiKey(userId: string, name: string, rawKey: string, scopes: seq<string>, expiresAt: Option<string>, active: bool)

  datatype CreateError = ScopeNotGranted | BadGrant(error: PatternError) | DuplicateId

  function Granted(rows: seq<Permission>): (r: seq<string>)
    ensures |r| == |rows| && forall i | 0 <= i < |rows| :: r[i] == rows[i].pattern
  {
    seq(|rows|, i requires 0 <= i < |rows| => rows[i].pattern)
  }

  function Defaults(rows: seq<Permission>): seq<string> {
    if rows == [] then []
    else
      var n := |rows| - 1;
      Defaults(rows[..n]) + if rows[n].custom then [] else [rows[n].pattern]
  }

  /** [...new Set(patterns)]: the first occurrence of each pattern, in order. */
  function Distinct(patterns: seq<string>): seq<string> {
    if patterns == [] then []
    else
      var n := |patterns| - 1;
      var before := Distinct(patterns[..n]);
      if patterns[n] in before then before else before + [patterns[n]]
  }

  lemma {:induction false} DistinctKeepsEachOnce(patterns: seq<string>)
    ensures forall p :: p in Distinct(patterns) <==> p in patterns
    ensures forall i, j | 0 <= i < j < |Distinct(patterns)| :: Distinct(patterns)[i] != Distinct(patterns)[j]
  {
    if patterns != [] {
      var n := |patterns| - 1;
      DistinctKeepsEachOnce(patterns[..n]);
      assert patterns == patterns[..n] + [patterns[n]];
    }
  }

  function Selected(rows: seq<Permission>, requested: Option<seq<string>>): seq<string> {
    match requested
    case Some(patterns) => Distinct(patterns)
    case None => Defaults(rows)
  }

  /** The cover check: is some selected pattern matched, as plain text, by no granted pattern? */
  function SomeUncovered(granted: seq<string>, selected: seq<string>): Result<bool, PatternError> {
    if selected == [] then Ok(false)
    else match SomeMatch(granted, selected[0])
      case Err(e) => Err(e)
      case Ok(false) => Ok(true)
      case Ok(true) => SomeUncovered(granted, selected[1..])
  }

  function Scopes(selected: seq<string>): seq<string> {
    seq(|selected|, i requires 0 <= i < |selected| => ScopeOf(selected[i]))
  }

  class ApiKeyService {
    var keys: map<string, ApiKey>
    /** The users whose cached keys were invalidated, in order. */
    var invalidated: seq<string>

    constructor ()
      ensures keys == map[] && invalidated == []
    {
      keys, invalidated := map[], [];
    }

    /** create: `rows` is what the permission query returned, `rawKey` and `id` what was drawn. */
    method Create(userId: string, name: string, expiresAt: Option<string>, requested: Option<seq<string>>,
                  rows: seq<Permission>, rawKey: string, id: string)
      returns (r: Result<ApiKey, CreateError>)
      modifies `keys
      ensures var selected := Selected(rows, requested);
        match SomeUncovered(Granted(rows), selected)
        case Err(e) => r == Err(BadGrant(e)) && keys == old(keys)
        case Ok(true) => r == Err(ScopeNotGranted) && keys == old(keys)
        case Ok(false) =>
          if id in old(keys) then r == Err(DuplicateId) && keys == old(keys)
          else
            && r == Ok(ApiKey(userId, name, rawKey, Scopes(selected), expiresAt, true))
            && keys == old(keys)[id := r.value]
    {
      var selected := Selected(rows, requested);
      var uncovered := SomeUncovered(Granted(rows), selected);
      if uncovered.Err? { return Err(BadGrant(uncovered.error)); }
      if uncovered.value { return Err(ScopeNotGranted); }
      if id in keys { return Err(DuplicateId); }
      var key := ApiKey(userId, name, rawKey, Scopes(selected), expiresAt, true);
      keys := keys[id := key];
      return Ok(key);
    }

    /** revoke: only the owner's active key, once. */
    method Revoke(userId: string, keyId: string) returns (revoked: bool)
      modifies this
      ensures revoked == (keyId in old(keys) && old(keys)[keyId].userId == userId && old(keys)[keyId].active)
      ensures keys == if revoked then old(keys)[keyId := old(keys)[keyId].(active := false)] else old(keys)
      ensures invalidated == if revoked then old(invalidated) + [userId] else old(invalidated)
    {
      revoked := keyId in keys && keys[keyId].userId == userId && keys[keyId].active;
      if revoked {
        keys := keys[keyId := keys[keyId].(active := false)];
        invalidated := invalidated + [userId];
      }
    }
  }

  // ---------------------------------------------------------------- what the check decides

  ghost predicate AllowsOnly(selected: seq<string>, granted: seq<string>) {
    forall name | AnyMatches(selected, name) :: AnyMatches(granted, name)
  }

  /** A passed check: each selected pattern lies, as a set of names, within one granted pattern. */
  lemma {:induction false} CoveredEach(granted: seq<string>, selected: seq<string>, n: nat)
    requires SomeUncovered(granted, selected) == Ok(false) && n < |selected|
    ensures exists g | 0 <= g < |granted| :: Covers(granted[g], selected[n])
  {
    if n > 0 {
      CoveredEach(granted, selected[1..], n - 1);
    } else {
      var g :| 0 <= g < |granted| && Matches(granted[g], selected[0]);
      CoverExact(granted[g], selected[0]);
    }
  }

  /** No scope of a created key allows a tool outside the granted patterns. */
  lemma CreatedAllowsOnlyGranted(rows: seq<Permission>, requested: Option<seq<string>>)
    requires SomeUncovered(Granted(rows), Selected(rows, requested)) == Ok(false)
    ensures AllowsOnly(Selected(rows, requested), Granted(rows))
  {
    var selected, granted := Selected(rows, requested), Granted(rows);
    forall name | AnyMatches(selected, name) ensures AnyMatches(granted, name) {
      var n :| 0 <= n < |selected| && Matches(selected[n], name);
      CoveredEach(granted, selected, n);
      var g :| 0 <= g < |granted| && Covers(granted[g], selected[n]);
      assert Matches(granted[g], name);
    }
  }

  lemma {:induction false} UncoveredFound(granted: seq<string>, selected: seq<string>)
    requires SomeUncovered(granted, selected) == Ok(true)
    ensures exists n | 0 <= n < |selected| :: !AnyMatches(granted, selected[n])
  {
    if SomeMatch(granted, selected[0]) == Ok(true) {
      UncoveredFound(granted, selected[1..]);
      var n :| 0 <= n < |selected[1..]| && !AnyMatches(granted, selected[1..][n]);
      assert selected[n + 1] == selected[1..][n];
    } else {
      assert !AnyMatches(granted, selected[0]);
    }
  }

  /** A refusal has a witness: the selected pattern's own text is a name it allows and no grant does. */
  lemma RefusedAllowsMore(granted: seq<string>, selected: seq<string>)
    requires SomeUncovered(granted, selected) == Ok(true)
    ensures !AllowsOnly(selected, granted)
  {
    UncoveredFound(granted, selected);
    var n :| 0 <= n < |selected| && !AnyMatches(granted, selected[n]);
    MatchesItself(selected[n]);
    assert AnyMatches(selected, selected[n]);
  }

  lemma {:induction false} CheckNeverThrows(granted: seq<string>, selected: seq<string>)
    requires AllValid(granted)
    ensures SomeUncovered(granted, selected).Ok?
  {
    if selected != [] {
      SomeMatchOfValid(granted, selected[0]);
      CheckNeverThrows(granted, selected[1..]);
    }
  }

  /**
   The check is exact: with well-formed grants, a key is created if and only if every tool its scopes would
   allow is already allowed by the granted patterns taken together.
   */
  lemma CheckIsExact(rows: seq<Permission>, requested: Option<seq<string>>)
    requires AllValid(Granted(rows))
    ensures SomeUncovered(Granted(rows), Selected(rows, requested)) == Ok(!AllowsOnly(Selected(rows, requested), Granted(rows)))
  {
    var granted, selected := Granted(rows), Selected(rows, requested);
    CheckNeverThrows(granted, selected);
    match SomeUncovered(granted, selected)
    case Ok(uncovered) =>
      if uncovered {
        RefusedAllowsMore(granted, selected);
      } else {
        CreatedAllowsOnlyGranted(rows, requested);
      }
  }

  ghost predicate AllowsOnlyStarFree(selected: seq<string>, granted: seq<string>) {
    forall name | StarFree(name) && AnyMatches(selected, name) :: AnyMatches(granted, name)
  }

  lemma RefusedAllowsMoreStarFree(granted: seq<string>, selected: seq<string>, c: char)
    requires SomeUncovered(granted, selected) == Ok(true)
    requires c != '*' && !LineTerminator(c) && forall g | 0 <= g < |granted| :: c !in granted[g]
    ensures !AllowsOnlyStarFree(selected, granted)
  {
    UncoveredFound(granted, selected);
    var n :| 0 <= n < |selected| && !AnyMatches(granted, selected[n]);
    var name := StarsAs(selected[n], c);
    StarsAsMatched(selected[n], c);
    assert AnyMatches(selected, name);
    forall g | 0 <= g < |granted| ensures !Matches(granted[g], name) {
      if Matches(granted[g], name) { FreshCharacterIsStar(granted[g], selected[n], c); }
    }
  }

  /** The check stays exact over names without stars whenever some ordinary character is in no grant. */
  lemma CheckIsExactGivenCharacter(rows: seq<Permission>, requested: Option<seq<string>>, c: char)
    requires AllValid(Granted(rows))
    requires c != '*' && !LineTerminator(c) && forall g | 0 <= g < |rows| :: c !in rows[g].pattern
    ensures SomeUncovered(Granted(rows), Selected(rows, requested)) == Ok(!AllowsOnlyStarFree(Selected(rows, requested), Granted(rows)))
  {
    var granted, selected := Granted(rows), Selected(rows, requested);
    CheckNeverThrows(granted, selected);
    match SomeUncovered(granted, selected)
    case Ok(uncovered) =>
      if uncovered {
        RefusedAllowsMoreStarFree(granted, selected, c);
      } else {
        CreatedAllowsOnlyGranted(rows, requested);
      }
  }

  /** The patterns are those of the rows at the given places: every row of no user's own upstream, once and in order. */
  ghost predicate ListsTools(rows: seq<Permission>, patterns: seq<string>, at: seq<nat>) {
    && |at| == |patterns|
    && (forall n | 0 <= n < |at| :: at[n] < |rows| && rows[at[n]] == Permission(patterns[n], false))
    && (forall m, n | 0 <= m < n < |at| :: at[m] < at[n])
    && (forall i | 0 <= i < |rows| && !rows[i].custom :: i in at)
  }

  lemma ListsNext(rows: seq<Permission>, patterns: seq<string>, at: seq<nat>, p: string)
    requires ListsTools(rows, patterns, at)
    ensures ListsTools(rows + [Permission(p, true)], patterns, at)
    ensures ListsTools(rows + [Permission(p, false)], patterns + [p], at + [|rows|])
  {
    var more := at + [|rows|];
    assert more[|at|] == |rows|;
    forall i | 0 <= i < |rows| && !rows[i].custom ensures i in more {
      var n :| 0 <= n < |at| && at[n] == i;
      assert more[n] == i;
    }
  }

  /** The defaults of a key are the tool permissions, each row once and in order. */
  lemma {:induction false} DefaultsExactly(rows: seq<Permission>) returns (at: seq<nat>)
    ensures ListsTools(rows, Defaults(rows), at)
  {
    if rows == [] { return []; }
    var before, row := rows[..|rows| - 1], rows[|rows| - 1];
    at := DefaultsExactly(before);
    ListsNext(before, Defaults(before), at, row.pattern);
    assert rows == before + [row];
    if !row.custom { at := at + [|before|]; }
  }

  lemma DefaultsAreGranted(rows: seq<Permission>, p: string)
    requires p in Defaults(rows)
    ensures p in Granted(rows)
  {
    var at := DefaultsExactly(rows);
    var n :| 0 <= n < |Defaults(rows)| && Defaults(rows)[n] == p;
    assert Granted(rows)[at[n]] == p;
  }

  lemma DefaultsMatch(rows: seq<Permission>, name: string)
    ensures AnyMatches(Defaults(rows), name) <==> exists i | 0 <= i < |rows| :: !rows[i].custom && Matches(rows[i].pattern, name)
  {
    var at := DefaultsExactly(rows);
    if n :| 0 <= n < |Defaults(rows)| && Matches(Defaults(rows)[n], name) {
      assert !rows[at[n]].custom && Matches(rows[at[n]].pattern, name);
    }
    if i :| 0 <= i < |rows| && !rows[i].custom && Matches(rows[i].pattern, name) {
      var n :| 0 <= n < |at| && at[n] == i;
      assert Matches(Defaults(rows)[n], name);
    }
  }

  /** A key asked for without scopes is never refused: each default pattern matches itself. */
  lemma ScopelessNeverRefused(rows: seq<Permission>)
    ensures SomeUncovered(Granted(rows), Selected(rows, None)) != Ok(true)
  {
    var granted, selected := Granted(rows), Defaults(rows);
    if SomeUncovered(granted, selected) == Ok(true) {
      UncoveredFound(granted, selected);
      var n :| 0 <= n < |selected| && !AnyMatches(granted, selected[n]);
      DefaultsAreGranted(rows, selected[n]);
      var g :| 0 <= g < |granted| && granted[g] == selected[n];
      MatchesItself(granted[g]);
      assert false;
    }
  }

  /**
   Once created, a key under any policy only reaches tools that are not denied, that the policy allows, and
   that its owner's grants allowed when the key was made.
   */
  lemma KeyStaysWithinGrant(rows: seq<Permission>, requested: Option<seq<string>>, allow: seq<string>, deny: seq<string>,
                            toolPatterns: seq<string>, name: string)
    requires SomeUncovered(Granted(rows), Selected(rows, requested)) == Ok(false)
    requires Constructible(Policy(allow, deny, Some(Principal(toolPatterns, Scopes(Selected(rows, requested))))))
    requires PolicyAllows(Policy(allow, deny, Some(Principal(toolPatterns, Scopes(Selected(rows, requested))))), name) == Ok(true)
    ensures AnyMatches(Granted(rows), name) && AnyMatches(toolPatterns, name) && AnyMatches(allow, name) && !AnyMatches(deny, name)
  {
    var selected := Selected(rows, requested);
    PatternsOfScopes(selected);
    CreatedAllowsOnlyGranted(rows, requested);
    assert AnyMatches(selected, name);
  }

  /** With valid grants, whatever pattern is accepted has no line break. */
  lemma AcceptedHasNoBreaks(granted: seq<string>, selected: seq<string>, n: nat)
    requires AllValid(granted) && SomeUncovered(granted, selected) == Ok(false) && n < |selected|
    ensures forall i | 0 <= i < |selected[n]| :: selected[n][i] != '\r' && selected[n][i] != '\n'
  {
    CoveredEach(granted, selected, n);
    var g :| 0 <= g < |granted| && Covers(granted[g], selected[n]);
    MatchesItself(selected[n]);
    assert ValidPattern(granted[g]);
    MatchedTextHasNoBreaks(granted[g], selected[n]);
  }

  // ---------------------------------------------------------------- the stored grants

  predicate GrantChar(c: char) {
    'A' <= c <= 'Z' || 'a' <= c <= 'z' || '0' <= c <= '9' || c == '_' || c == '-'
  }

  predicate DottedChar(c: char) {
    GrantChar(c) || c == '.'
  }

  /** A prefix up to the dot at i, then dotted characters, of which the last may be a star instead. */
  predicate GrantSplit(p: string, i: nat) {
    && 0 < i < |p| - 1 && p[i] == '.'
    && (forall k | 0 <= k < i :: GrantChar(p[k]))
    && (forall k | i < k < |p| - 1 :: DottedChar(p[k]))
    && (DottedChar(p[|p| - 1]) || p[|p| - 1] == '*')
  }

  /** The CHECK on stored tool permissions, which is also what the key request accepts. */
  ghost predicate ToolGrant(p: string) {
    exists i: nat :: GrantSplit(p, i)
  }

  /** The CHECK on the prefix of a user's own upstream. */
  predicate UpstreamPrefix(s: string) {
    && 1 <= |s| <= 50 && 'a' <= s[0] <= 'z'
    && forall i | 0 <= i < |s| :: 'a' <= s[i] <= 'z' || '0' <= s[i] <= '9' || s[i] == '_'
  }

  ghost predicate UpstreamGrant(p: string) {
    exists prefix :: UpstreamPrefix(prefix) && p == prefix + ['.', '*']
  }

  /** A letter, a digit, an underscore or a hyphen, by character code. */
  predicate WordCode(code: int) {
    48 <= code < 58 || 65 <= code < 91 || 97 <= code < 123 || code == 95 || code == 45
  }

  /** The grammar as a regular expression reads it: a word, a dot, then a star, or words and dots that may end in a star. */
  predicate GrantParts(p: string, prefix: string, body: string, star: bool) {
    && p == prefix + ['.'] + body + (if star then ['*'] else [])
    && prefix != [] && (body != [] || star)
    && (forall k | 0 <= k < |prefix| :: WordCode(prefix[k] as int))
    && (forall k | 0 <= k < |body| :: WordCode(body[k] as int) || body[k] == '.')
  }

  lemma PartsOfSplit(p: string, i: nat) returns (prefix: string, body: string, star: bool)
    requires GrantSplit(p, i)
    ensures GrantParts(p, prefix, body, star)
  {
    star := p[|p| - 1] == '*';
    var end := if star then |p| - 1 else |p|;
    prefix, body := p[..i], p[i + 1..end];
    forall k | 0 <= k < |body| ensures WordCode(body[k] as int) || body[k] == '.' { assert body[k] == p[i + 1 + k]; }
  }

  lemma SplitOfParts(prefix: string, body: string, tail: string)
    requires prefix != [] && body + tail != [] && (tail == [] || tail == ['*'])
    requires forall k | 0 <= k < |prefix| :: GrantChar(prefix[k])
    requires forall k | 0 <= k < |body| :: DottedChar(body[k])
    ensures GrantSplit(prefix + ['.'] + body + tail, |prefix|)
  {
    var i, p := |prefix|, prefix + ['.'] + body + tail;
    forall k | i < k < |p| - 1 ensures DottedChar(p[k]) { assert p[k] == body[k - i - 1]; }
    assert p[|p| - 1] == if tail == [] then body[|body| - 1] else '*';
  }

  lemma ToolGrantExactly(p: string)
    ensures ToolGrant(p) <==> exists prefix, body, star :: GrantParts(p, prefix, body, star)
  {
    if i: nat :| GrantSplit(p, i) { var prefix, body, star := PartsOfSplit(p, i); }
    if prefix, body, star :| GrantParts(p, prefix, body, star) {
      SplitOfParts(prefix, body, if star then ['*'] else []);
    }
  }

  /** Prefixes: one lower-case letter, then at most 49 lower-case letters, digits or underscores. */
  lemma UpstreamPrefixExactly(s: string)
    ensures UpstreamPrefix(s)
      <==> (0 < |s| < 51 && 97 <= s[0] as int < 123
            && forall i | 0 < i < |s| :: 97 <= s[i] as int < 123 || 48 <= s[i] as int < 58 || s[i] as int == 95)
  {}

  /** What the permission query can return. */
  ghost predicate RowsStored(rows: seq<Permission>) {
    forall i | 0 <= i < |rows| :: if rows[i].custom then UpstreamGrant(rows[i].pattern) else ToolGrant(rows[i].pattern)
  }

  /** What the request parser lets through. */
  ghost predicate RequestParsed(requested: Option<seq<string>>) {
    requested.Some? ==> forall i | 0 <= i < |requested.value| :: ToolGrant(requested.value[i])
  }

  /** An upstream's grant is a tool grant like any other. */
  lemma UpstreamGrantIsToolGrant(p: string)
    requires UpstreamGrant(p)
    ensures ToolGrant(p)
  {
    var prefix :| UpstreamPrefix(prefix) && p == prefix + ['.', '*'];
    assert GrantSplit(p, |prefix|);
  }

  lemma ToolGrantCharacters(p: string)
    requires ToolGrant(p)
    ensures p != [] && GrantChar(p[0])
    ensures forall k | 0 <= k < |p| :: DottedChar(p[k]) || p[k] == '*'
  {
    var i: nat :| GrantSplit(p, i);
    forall k | 0 <= k < |p| ensures DottedChar(p[k]) || p[k] == '*' {
      assert k < i || k == i || k == |p| - 1 || i < k < |p| - 1;
    }
  }

  lemma ValidExactly(p: string)
    requires p != [] && GrantChar(p[0]) && forall i | 0 <= i < |p| :: p[i] != '\r' && p[i] != '\n'
    ensures ValidPattern(p) <==> '\0' !in p
  {
    assert !JsSpace(p[0]);
  }

  lemma ToolGrantValid(p: string)
    requires ToolGrant(p)
    ensures ValidPattern(p)
  {
    ToolGrantCharacters(p);
    ValidExactly(p);
  }

  lemma StoredGrantsFit(rows: seq<Permission>)
    requires RowsStored(rows)
    ensures forall g | 0 <= g < |rows| :: ToolGrant(Granted(rows)[g])
    ensures AllValid(Granted(rows))
  {
    forall g | 0 <= g < |rows| ensures ToolGrant(Granted(rows)[g]) && ValidPattern(Granted(rows)[g]) {
      if rows[g].custom { UpstreamGrantIsToolGrant(rows[g].pattern); }
      ToolGrantValid(rows[g].pattern);
    }
  }

  /**
   With the grants the database can hold, a key is created if and only if every tool name its scopes would allow is
   allowed by the grants together; the check never throws.
   */
  lemma CheckIsExactForToolNames(rows: seq<Permission>, requested: Option<seq<string>>)
    requires RowsStored(rows)
    ensures SomeUncovered(Granted(rows), Selected(rows, requested)) == Ok(!AllowsOnlyStarFree(Selected(rows, requested), Granted(rows)))
  {
    StoredGrantsFit(rows);
    forall g | 0 <= g < |rows| ensures '/' !in rows[g].pattern {
      assert ToolGrant(Granted(rows)[g]);
      ToolGrantCharacters(rows[g].pattern);
    }
    CheckIsExactGivenCharacter(rows, requested, '/');
  }

  /** Under stored grants any accepted pattern begins with an ordinary character and has no line break. */
  lemma AcceptedShape(rows: seq<Permission>, selected: seq<string>, n: nat)
    requires RowsStored(rows) && SomeUncovered(Granted(rows), selected) == Ok(false) && n < |selected|
    ensures selected[n] != [] && GrantChar(selected[n][0])
    ensures forall i | 0 <= i < |selected[n]| :: selected[n][i] != '\r' && selected[n][i] != '\n'
  {
    StoredGrantsFit(rows);
    CoveredEach(Granted(rows), selected, n);
    var g :| 0 <= g < |Granted(rows)| && Covers(Granted(rows)[g], selected[n]);
    MatchesItself(selected[n]);
    ToolGrantCharacters(Granted(rows)[g]);
    AcceptedHasNoBreaks(Granted(rows), selected, n);
  }

  /** The cover check also validates: whatever is asked for, an accepted pattern is valid exactly when it has no NUL. */
  lemma AcceptedValidExactly(rows: seq<Permission>, selected: seq<string>, n: nat)
    requires RowsStored(rows) && SomeUncovered(Granted(rows), selected) == Ok(false) && n < |selected|
    ensures ValidPattern(selected[n]) <==> '\0' !in selected[n]
  {
    AcceptedShape(rows, selected, n);
    ValidExactly(selected[n]);
  }

  lemma SelectedFits(rows: seq<Permission>, requested: Option<seq<string>>)
    requires RowsStored(rows) && RequestParsed(requested)
    ensures AllValid(Selected(rows, requested))
  {
    var selected := Selected(rows, requested);
    StoredGrantsFit(rows);
    forall n | 0 <= n < |selected| ensures ValidPattern(selected[n]) {
      match requested
      case Some(patterns) =>
        DistinctKeepsEachOnce(patterns);
        assert selected[n] in patterns;
        ToolGrantValid(selected[n]);
      case None =>
        DefaultsAreGranted(rows, selected[n]);
    }
  }

  /**
   Using a created key never throws: whatever grants its owner holds by then, the guard allows exactly the names
   that one of those grants and one of the key's patterns match.
   */
  lemma KeyNeverThrows(rows: seq<Permission>, requested: Option<seq<string>>, held: seq<Permission>, name: string)
    requires RowsStored(rows) && RequestParsed(requested) && RowsStored(held)
    ensures var selected := Selected(rows, requested);
            GuardAllows(Principal(Granted(held), Scopes(selected)), name) == Ok(AnyMatches(Granted(held), name) && AnyMatches(selected, name))
  {
    var selected := Selected(rows, requested);
    StoredGrantsFit(held);
    SelectedFits(rows, requested);
    PatternsOfScopes(selected);
    SomeMatchOfValid(Granted(held), name);
    SomeMatchOfValid(selected, name);
  }

  /** A key made without scopes reaches exactly what a grant held then and a tool permission of its making match: no own upstream. */
  lemma ScopelessKeyExactly(rows: seq<Permission>, held: seq<Permission>, name: string)
    requires RowsStored(rows) && RowsStored(held)
    ensures GuardAllows(Principal(Granted(held), Scopes(Selected(rows, None))), name)
         == Ok(AnyMatches(Granted(held), name) && exists i | 0 <= i < |rows| :: !rows[i].custom && Matches(rows[i].pattern, name))
  {
    KeyNeverThrows(rows, None, held, name);
    DefaultsMatch(rows, name);
  }
}
