/** The scope guard and the gateway's tool policy. */
module ToolPolicy {
  import opened Prelude
  import opened Glob

  datatype Principal = Principal(toolPatterns: seq<string>, scopes: seq<string>)

  const SCOPE_PREFIX := "tool:"

  function ScopeOf(p: string): string {
    SCOPE_PREFIX + p
  }

  predicate IsToolScope(s: string) {
    SCOPE_PREFIX <= s
  }

  /** patterns.some((p) => matchesToolPattern(p, name)): left to right, stopping at the first match or throw. */
  function SomeMatch(patterns: seq<string>, name: string): (r: Result<bool, PatternError>)
    ensures r == Ok(true) ==> exists i | 0 <= i < |patterns| :: Matches(patterns[i], name)
    ensures r == Ok(false) ==> forall i | 0 <= i < |patterns| :: ValidPattern(patterns[i]) && !Matches(patterns[i], name)
  {
    if patterns == [] then Ok(false)
    else match MatchesToolPattern(patterns[0], name)
      case Err(e) => Err(e)
      case Ok(true) => Ok(true)
      case Ok(false) => SomeMatch(patterns[1..], name)
  }

  /** The scopes' patterns, in order; scopes of other kinds are skipped. */
  function ScopePatterns(scopes: seq<string>): seq<string> {
    if scopes == [] then []
    else (if IsToolScope(scopes[0]) then [scopes[0][5..]] else []) + ScopePatterns(scopes[1..])
  }

  predicate AllValid(patterns: seq<string>) {
    forall i | 0 <= i < |patterns| :: ValidPattern(patterns[i])
  }

  predicate AnyMatches(patterns: seq<string>, name: string) {
    exists i | 0 <= i < |patterns| :: Matches(patterns[i], name)
  }

  /** Over valid patterns nothing throws, and the answer is the plain disjunction. */
  lemma {:induction false} SomeMatchOfValid(patterns: seq<string>, name: string)
    requires AllValid(patterns)
    ensures SomeMatch(patterns, name) == Ok(AnyMatches(patterns, name))
  {
    if patterns != [] {
      SomeMatchOfValid(patterns[1..], name);
      if AnyMatches(patterns[1..], name) {
        var i :| 0 <= i < |patterns[1..]| && Matches(patterns[1..][i], name);
        assert Matches(patterns[i + 1], name);
      }
      if AnyMatches(patterns, name) && !Matches(patterns[0], name) {
        var i :| 0 <= i < |patterns| && Matches(patterns[i], name);
        assert patterns[1..][i - 1] == patterns[i];
      }
    }
  }

  /** ScopeGuard.allows: the user's patterns first, then the key's scopes. */
  function GuardAllows(p: Principal, name: string): Result<bool, PatternError> {
    match SomeMatch(p.toolPatterns, name)
    case Ok(true) => SomeMatch(ScopePatterns(p.scopes), name)
    case refused => refused
  }

  lemma {:induction false} PatternsOfScopes(patterns: seq<string>)
    ensures ScopePatterns(seq(|patterns|, i requires 0 <= i < |patterns| => ScopeOf(patterns[i]))) == patterns
  {
    if patterns != [] {
      var scopes := seq(|patterns|, i requires 0 <= i < |patterns| => ScopeOf(patterns[i]));
      PatternsOfScopes(patterns[1..]);
      assert scopes[1..] == seq(|patterns[1..]|, i requires 0 <= i < |patterns[1..]| => ScopeOf(patterns[1..][i]));
      assert scopes[0][5..] == patterns[0];
      assert SCOPE_PREFIX <= scopes[0];
    }
  }

  // ---------------------------------------------------------------- the gateway policy

  /** A policy whose patterns all compiled; the compiled patterns are those of the globs, so only the globs are kept. */
  datatype Policy = Policy(allow: seq<string>, deny: seq<string>, principal: Option<Principal>)

  predicate Constructible(p: Policy) {
    AllValid(p.allow) && AllValid(p.deny)
  }

  function FirstInvalid(patterns: seq<string>): (e: Option<PatternError>)
    ensures e.None? <==> AllValid(patterns)
  {
    if patterns == [] then None
    else match Validate(patterns[0])
      case Some(e) => Some(e)
      case None =>
        assert AllValid(patterns) <==> AllValid(patterns[1..]) by {
          if AllValid(patterns[1..]) {
            forall i | 0 <= i < |patterns| ensures ValidPattern(patterns[i]) {
              if i > 0 { assert patterns[1..][i - 1] == patterns[i]; }
            }
          }
        }
        FirstInvalid(patterns[1..])
  }

  /** The constructor throws on the first pattern that does not compile, allowed ones first. */
  function NewPolicy(allow: seq<string>, deny: seq<string>, principal: Option<Principal>): (r: Result<Policy, PatternError>)
    ensures r.Ok? <==> AllValid(allow) && AllValid(deny)
    ensures r.Ok? ==> r.value == Policy(allow, deny, principal) && Constructible(r.value)
  {
    match FirstInvalid(allow)
    case Some(e) => Err(e)
    case None =>
      match FirstInvalid(deny)
      case Some(e) => Err(e)
      case None => Ok(Policy(allow, deny, principal))
  }

  predicate CompiledMatch(globs: seq<string>, name: string) {
    AnyMatches(globs, name)
  }

  /** ToolAccessPolicy.allows: both halves of the principal are evaluated, so either may throw. */
  function PolicyAllows(p: Policy, name: string): Result<bool, PatternError>
    requires Constructible(p)
  {
    if CompiledMatch(p.deny, name) then Ok(false)
    else if !CompiledMatch(p.allow, name) then Ok(false)
    else match p.principal
      case None => Ok(true)
      case Some(principal) =>
        match SomeMatch(principal.toolPatterns, name)
        case Err(e) => Err(e)
        case Ok(byPattern) =>
          match SomeMatch(ScopePatterns(principal.scopes), name)
          case Err(e) => Err(e)
          case Ok(byScope) => Ok(byPattern && byScope)
  }

  /** withAllowedPattern: a new policy; the old one is frozen. */
  function WithAllowed(p: Policy, glob: string): Result<Policy, PatternError> {
    NewPolicy(p.allow + [glob], p.deny, p.principal)
  }

  /** The policy allows exactly what is not denied, globally allowed, and allowed by the guard of its principal. */
  lemma PolicyIsGuardWithin(p: Policy, name: string)
    requires Constructible(p)
    ensures PolicyAllows(p, name) == Ok(true) <==>
      && !AnyMatches(p.deny, name) && AnyMatches(p.allow, name)
      && (p.principal.None? || GuardAllows(p.principal.value, name) == Ok(true))
  {}

  predicate PrincipalAdmits(p: Policy, name: string) {
    p.principal.None? || GuardAllows(p.principal.value, name) == Ok(true)
  }

  lemma AnyOfAppended(patterns: seq<string>, glob: string, name: string)
    ensures AnyMatches(patterns + [glob], name) <==> AnyMatches(patterns, name) || Matches(glob, name)
  {
    var all := patterns + [glob];
    if AnyMatches(patterns, name) {
      var i :| 0 <= i < |patterns| && Matches(patterns[i], name);
      assert Matches(all[i], name);
    }
    assert all[|patterns|] == glob;
    if AnyMatches(all, name) && !Matches(glob, name) {
      var i :| 0 <= i < |all| && Matches(all[i], name);
      assert patterns[i] == all[i];
    }
  }

  /**
   Adding a pattern never revokes a tool, and it adds exactly the tools the pattern matches that are not
   denied and that the principal could use anyway; it fails only for a pattern that does not compile.
   */
  lemma WithAllowedExactly(p: Policy, glob: string, name: string)
    requires Constructible(p)
    ensures WithAllowed(p, glob).Ok? <==> ValidPattern(glob)
    ensures WithAllowed(p, glob).Ok? ==>
      (PolicyAllows(WithAllowed(p, glob).value, name) == Ok(true) <==>
         || PolicyAllows(p, name) == Ok(true)
         || (Matches(glob, name) && !AnyMatches(p.deny, name) && PrincipalAdmits(p, name)))
  {
    var allow := p.allow + [glob];
    AnyOfAppended(p.allow, glob, name);
    if ValidPattern(glob) {
      assert AllValid(allow);
      PolicyIsGuardWithin(Policy(allow, p.deny, p.principal), name);
      PolicyIsGuardWithin(p, name);
    } else {
      assert allow[|p.allow|] == glob;
    }
  }
}
