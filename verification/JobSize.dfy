/** Every compact text the signer can produce fits the size limit of the verifier. */
module JobSize {
  import opened Prelude
  import opened CanonicalJson
  import opened CanonicalBytes
  import opened JobContract
  import opened JobSigner
  import Base64Url

  /** Printable characters that JSON writes as themselves. */
  predicate Plain(s: string) {
    forall i | 0 <= i < |s| :: ' ' <= s[i] < 128 as char && s[i] != '\"' && s[i] != '\\'
  }

  lemma {:induction false} PlainEscape(s: string)
    requires Plain(s)
    ensures Ascii(s) && |Escape(s)| == |s|
  {
    if s != "" { PlainEscape(s[1..]); }
  }

  lemma {:induction false} EscapeAtMostDoubles(s: string)
    requires Ascii(s) && forall i | 0 <= i < |s| :: s[i] >= ' '
    ensures |Escape(s)| <= 2 * |s|
  {
    if s != "" { EscapeAtMostDoubles(s[1..]); }
  }

  function Power10(k: nat): nat {
    if k == 0 then 1 else 10 * Power10(k - 1)
  }

  lemma {:induction false} DigitsLength(n: nat, k: nat)
    requires k >= 1 && n < Power10(k)
    ensures |Digits(n)| <= k
  {
    if n >= 10 {
      DigitsLength(n / 10, k - 1);
    }
  }

  predicate Fits(v: Json, n: int) {
    InSubset(v) && |Print(v)| <= n
  }

  lemma IntegerFits(n: int)
    requires 0 <= n <= MAX_SAFE
    ensures Fits(JInteger(n), 16)
  {
    assert Power10(4) == 10000;
    assert Power10(8) == 100000000;
    assert Power10(12) == 1000000000000;
    assert Power10(16) == 10000000000000000;
    DigitsLength(n, 16);
  }

  lemma PlainFits(s: string)
    requires Plain(s)
    ensures Fits(JString(s), |s| + 2)
  {
    PlainEscape(s);
  }

  lemma IdFits(s: string)
    requires ValidId(s)
    ensures Fits(JString(s), 130)
  {
    forall i | 0 <= i < |s| ensures ' ' <= s[i] < 128 as char && s[i] != '\"' && s[i] != '\\' { assert IdChar(s[i]); }
    PlainFits(s);
  }

  lemma UrlFits(p: Primitives, s: string)
    requires ValidUrl(p, s)
    ensures Fits(JString(s), 1026)
  {
    EscapeAtMostDoubles(s);
  }

  const URL_KEYS := {"iss", "identity_issuer"}

  /** A member whose quoted key, colon, value and comma take at most `light` characters, or `light + heavy` for a URL. */
  predicate MemberFits(k: string, v: Json, light: nat, heavy: nat) {
    Plain(k) && InSubset(v) && |k| + 4 + |Print(v)| <= light + (if k in URL_KEYS then heavy else 0)
  }

  predicate Budgeted(m: map<string, Json>, light: nat, heavy: nat, n: nat) {
    |m.Keys| <= n && forall k | k in m :: MemberFits(k, m[k], light, heavy)
  }

  lemma WithBudgeted(m: map<string, Json>, k: string, v: Json, light: nat, heavy: nat, n: nat)
    requires Budgeted(m, light, heavy, n) && MemberFits(k, v, light, heavy)
    ensures Budgeted(With(m, k, v), light, heavy, n + 1)
  {
    assert With(m, k, v).Keys == m.Keys + {k};
  }

  function HeavyCount(keys: seq<string>): nat {
    (if "iss" in keys then 1 else 0) + (if "identity_issuer" in keys then 1 else 0)
  }

  lemma HeavyCountStep(keys: seq<string>)
    requires keys != [] && keys[0] !in keys[1..]
    ensures HeavyCount(keys) == HeavyCount(keys[1..]) + if keys[0] in URL_KEYS then 1 else 0
  {
    assert keys == [keys[0]] + keys[1..];
  }

  lemma MemberLength(keys: seq<string>, v: Json, light: nat, heavy: nat)
    requires InSubset(v) && v.JObject? && keys != [] && forall k | k in keys :: k in v.fields
    requires MemberFits(keys[0], v.fields[keys[0]], light, heavy)
    ensures |PrintMembers(keys, v)|
         <= light + (if keys[0] in URL_KEYS then heavy else 0) + |PrintMembers(keys[1..], v)|
  {
    PlainEscape(keys[0]);
  }

  /** The allowance of a list of keys. */
  function Allowance(keys: seq<string>, light: nat, heavy: nat): nat {
    if keys == [] then 0
    else light + (if keys[0] in URL_KEYS then heavy else 0) + Allowance(keys[1..], light, heavy)
  }

  lemma {:induction false} AllowanceBound(keys: seq<string>, light: nat, heavy: nat)
    requires forall i, j | 0 <= i < j < |keys| :: keys[i] != keys[j]
    ensures Allowance(keys, light, heavy) == light * |keys| + heavy * HeavyCount(keys)
  {
    if keys != [] {
      var rest := keys[1..];
      AllowanceBound(rest, light, heavy);
      HeavyCountStep(keys);
      AddMember(light, heavy, |rest|, HeavyCount(rest));
    }
  }

  lemma AddMember(light: nat, heavy: nat, n: nat, h: nat)
    ensures light * (n + 1) == light * n + light && heavy * (h + 1) == heavy * h + heavy
  {}

  lemma MultiplyMonotone(a: nat, m: nat, n: nat)
    requires m <= n
    ensures a * m <= a * n
  {}

  lemma {:induction false} MembersLength(keys: seq<string>, v: Json, light: nat, heavy: nat)
    requires InSubset(v) && v.JObject? && forall k | k in keys :: k in v.fields && MemberFits(k, v.fields[k], light, heavy)
    ensures |PrintMembers(keys, v)| <= Allowance(keys, light, heavy)
  {
    if keys != [] {
      MembersLength(keys[1..], v, light, heavy);
      MemberLength(keys, v, light, heavy);
    }
  }

  lemma ObjectFits(v: Json, light: nat, heavy: nat, n: nat)
    requires InSubset(v) && v.JObject? && Budgeted(v.fields, light, heavy, n)
    ensures Fits(v, 2 + light * n + heavy * 2)
  {
    var keys := SortedKeys(v.fields);
    MembersLength(keys, v, light, heavy);
    AllowanceBound(keys, light, heavy);
    MultiplyMonotone(light, |keys|, n);
    MultiplyMonotone(heavy, HeavyCount(keys), 2);
  }

  lemma AddNested(m: map<string, Json>, k: string, v: Json, n: nat)
    requires Budgeted(m, 150, 0, n) && Plain(k) && |k| <= 16 && Fits(v, 130)
    ensures Budgeted(With(m, k, v), 150, 0, n + 1)
  {
    WithBudgeted(m, k, v, 150, 0, n);
  }

  lemma NestedKeysArePlain()
    ensures Plain("subject") && Plain("authorization_id") && Plain("approved_at")
    ensures Plain("id") && Plain("version") && Plain("sha256")
  {}

  lemma ApprovalFits(a: Approval)
    requires ApprovalValid(a)
    ensures Fits(ApprovalJson(a), 452)
  {
    ApprovalInSubset(a);
    NestedKeysArePlain();
    IdFits(a.subject);
    IdFits(a.authorizationId);
    IntegerFits(a.approvedAt);
    var m: map<string, Json> := map[];
    AddNested(m, "subject", JString(a.subject), 0);
    m := With(m, "subject", JString(a.subject));
    AddNested(m, "authorization_id", JString(a.authorizationId), 1);
    m := With(m, "authorization_id", JString(a.authorizationId));
    AddNested(m, "approved_at", JInteger(a.approvedAt), 2);
    m := With(m, "approved_at", JInteger(a.approvedAt));
    assert ApprovalJson(a).fields == m;
    ObjectFits(ApprovalJson(a), 150, 0, 3);
  }

  lemma ResourceFits(r: Resource)
    requires ResourceValid(r)
    ensures Fits(ResourceJson(r), 452)
  {
    ResourceInSubset(r);
    NestedKeysArePlain();
    IdFits(r.id);
    PlainFits(r.sha256);
    IntegerFits(r.version);
    var m: map<string, Json> := map[];
    AddNested(m, "id", JString(r.id), 0);
    m := With(m, "id", JString(r.id));
    AddNested(m, "version", JInteger(r.version), 1);
    m := With(m, "version", JInteger(r.version));
    AddNested(m, "sha256", JString(r.sha256), 2);
    m := With(m, "sha256", JString(r.sha256));
    assert ResourceJson(r).fields == m;
    ObjectFits(ResourceJson(r), 150, 0, 3);
  }

  lemma IdentityKeysArePlain()
    ensures Plain("schema_version") && Plain("job_id") && Plain("iss") && Plain("aud") && Plain("identity_issuer")
    ensures Plain("tenant_id") && Plain("organization_id") && Plain("subject") && Plain("device_id") && Plain("device_version")
  {}

  lemma OperationKeysArePlain()
    ensures Plain("key_jkt") && Plain("approved_by") && Plain("operation") && Plain("resource") && Plain("policy_revision")
    ensures Plain("expected_state_version") && Plain("iat") && Plain("exp")
  {}

  lemma KeysArePlain()
    ensures forall k | k in JOB_KEYS :: Plain(k) && |k| <= 22
  {
    IdentityKeysArePlain();
    OperationKeysArePlain();
  }

  lemma LiteralsArePlain()
    ensures Plain(JOB_AUDIENCE) && |JOB_AUDIENCE| <= 100 && Plain(JOB_OPERATION) && |JOB_OPERATION| <= 100
  {}

  lemma IdentityFieldsFit(p: Primitives, j: ManagementJob)
    requires SchemaValid(p, j)
    ensures Fits(JString(j.jobId), 452) && Fits(JString(j.tenantId), 452) && Fits(JString(j.organizationId), 452)
    ensures Fits(JString(j.subject), 452) && Fits(JString(j.deviceId), 452) && Fits(JString(j.keyJkt), 452)
    ensures Fits(JInteger(j.deviceVersion), 452)
  {
    IdFits(j.jobId); IdFits(j.tenantId); IdFits(j.organizationId); IdFits(j.subject); IdFits(j.deviceId);
    forall i | 0 <= i < |j.keyJkt| ensures ' ' <= j.keyJkt[i] < 128 as char && j.keyJkt[i] != '\"' && j.keyJkt[i] != '\\' {
      assert Base64Url.InAlphabet(j.keyJkt[i]);
    }
    PlainFits(j.keyJkt);
    IntegerFits(j.deviceVersion);
  }

  lemma OperationFieldsFit(p: Primitives, j: ManagementJob)
    requires SchemaValid(p, j)
    ensures Fits(JInteger(1), 452) && Fits(JString(JOB_AUDIENCE), 452) && Fits(JString(JOB_OPERATION), 452)
    ensures Fits(ApprovalJson(j.approvedBy), 452) && Fits(ResourceJson(j.resource), 452)
    ensures Fits(JInteger(j.policyRevision), 452) && Fits(JInteger(j.expectedStateVersion), 452)
    ensures Fits(JInteger(j.iat), 452) && Fits(JInteger(j.exp), 452)
  {
    LiteralsArePlain();
    PlainFits(JOB_AUDIENCE); PlainFits(JOB_OPERATION);
    ApprovalFits(j.approvedBy); ResourceFits(j.resource);
    IntegerFits(1); IntegerFits(j.policyRevision); IntegerFits(j.expectedStateVersion); IntegerFits(j.iat); IntegerFits(j.exp);
  }

  lemma AddLight(m: map<string, Json>, k: string, v: Json, n: nat)
    requires Budgeted(m, 480, 580, n) && k in JOB_KEYS && Fits(v, 452)
    ensures Budgeted(With(m, k, v), 480, 580, n + 1)
  {
    KeysArePlain();
    WithBudgeted(m, k, v, 480, 580, n);
  }

  lemma AddUrl(m: map<string, Json>, k: string, v: Json, n: nat)
    requires Budgeted(m, 480, 580, n) && k in URL_KEYS && k in JOB_KEYS && Fits(v, 1026)
    ensures Budgeted(With(m, k, v), 480, 580, n + 1)
  {
    KeysArePlain();
    WithBudgeted(m, k, v, 480, 580, n);
  }

  lemma AudienceFits()
    ensures Fits(JString(JOB_AUDIENCE), 452)
  {
    LiteralsArePlain();
    PlainFits(JOB_AUDIENCE);
  }

  function ThreeFields(j: ManagementJob): map<string, Json> {
    map["schema_version" := JInteger(1), "job_id" := JString(j.jobId), "iss" := JString(j.iss)]
  }

  lemma ThreeFieldsBudgeted(p: Primitives, j: ManagementJob)
    requires SchemaValid(p, j)
    ensures Budgeted(ThreeFields(j), 480, 580, 3)
  {
    IntegerFits(1);
    IdFits(j.jobId);
    UrlFits(p, j.iss);
    var m: map<string, Json> := map[];
    AddLight(m, "schema_version", JInteger(1), 0);
    m := With(m, "schema_version", JInteger(1));
    AddLight(m, "job_id", JString(j.jobId), 1);
    m := With(m, "job_id", JString(j.jobId));
    AddUrl(m, "iss", JString(j.iss), 2);
    m := With(m, "iss", JString(j.iss));
    assert ThreeFields(j) == m;
  }

  lemma FourFieldsBudgeted(p: Primitives, j: ManagementJob)
    requires SchemaValid(p, j)
    ensures Budgeted(FourFields(j), 480, 580, 4)
  {
    ThreeFieldsBudgeted(p, j);
    AudienceFits();
    AddAudience(ThreeFields(j), JString(JOB_AUDIENCE));
  }

  lemma AddAudience(m: map<string, Json>, v: Json)
    requires Budgeted(m, 480, 580, 3) && Fits(v, 452)
    ensures Budgeted(m["aud" := v], 480, 580, 4)
  {
    AddLight(m, "aud", v, 3);
  }

  lemma SixFieldsBudgeted(p: Primitives, j: ManagementJob)
    requires SchemaValid(p, j)
    ensures Budgeted(SixFields(j), 480, 580, 6)
  {
    IdFits(j.tenantId);
    UrlFits(p, j.identityIssuer);
    FourFieldsBudgeted(p, j);
    var m := FourFields(j);
    AddUrl(m, "identity_issuer", JString(j.identityIssuer), 4);
    m := With(m, "identity_issuer", JString(j.identityIssuer));
    AddLight(m, "tenant_id", JString(j.tenantId), 5);
    m := With(m, "tenant_id", JString(j.tenantId));
    assert SixFields(j) == m;
  }

  lemma NineFieldsBudgeted(p: Primitives, j: ManagementJob)
    requires SchemaValid(p, j)
    ensures Budgeted(NineFields(j), 480, 580, 9)
  {
    IdentityFieldsFit(p, j);
    SixFieldsBudgeted(p, j);
    var m := SixFields(j);
    AddLight(m, "organization_id", JString(j.organizationId), 6);
    m := With(m, "organization_id", JString(j.organizationId));
    AddLight(m, "subject", JString(j.subject), 7);
    m := With(m, "subject", JString(j.subject));
    AddLight(m, "device_id", JString(j.deviceId), 8);
    m := With(m, "device_id", JString(j.deviceId));
    assert NineFields(j) == m;
  }

  lemma JobFieldsBudgeted(p: Primitives, j: ManagementJob)
    requires SchemaValid(p, j)
    ensures Budgeted(JobJson(j).fields, 480, 580, 18)
  {
    OperationFieldsFit(p, j);
    IdentityFieldsFit(p, j);
    NineFieldsBudgeted(p, j);
    var m := NineFields(j);
    AddLight(m, "device_version", JInteger(j.deviceVersion), 9);
    m := With(m, "device_version", JInteger(j.deviceVersion));
    AddLight(m, "key_jkt", JString(j.keyJkt), 10);
    m := With(m, "key_jkt", JString(j.keyJkt));
    AddLight(m, "approved_by", ApprovalJson(j.approvedBy), 11);
    m := With(m, "approved_by", ApprovalJson(j.approvedBy));
    AddLight(m, "operation", JString(JOB_OPERATION), 12);
    m := With(m, "operation", JString(JOB_OPERATION));
    AddLight(m, "resource", ResourceJson(j.resource), 13);
    m := With(m, "resource", ResourceJson(j.resource));
    AddLight(m, "policy_revision", JInteger(j.policyRevision), 14);
    m := With(m, "policy_revision", JInteger(j.policyRevision));
    AddLight(m, "expected_state_version", JInteger(j.expectedStateVersion), 15);
    m := With(m, "expected_state_version", JInteger(j.expectedStateVersion));
    AddLight(m, "iat", JInteger(j.iat), 16);
    m := With(m, "iat", JInteger(j.iat));
    AddLight(m, "exp", JInteger(j.exp), 17);
    m := With(m, "exp", JInteger(j.exp));
    assert JobJson(j).fields == m;
  }

  /** Every field at its longest: the canonical payload of a valid job. */
  lemma PayloadFits(p: Primitives, j: ManagementJob)
    requires SchemaValid(p, j)
    ensures Fits(JobJson(j), 9802)
  {
    JobInSubset(p, j);
    JobFieldsBudgeted(p, j);
    ObjectFits(JobJson(j), 480, 580, 18);
  }

  lemma AddHeader(m: map<string, Json>, k: string, v: Json, n: nat)
    requires Budgeted(m, 140, 0, n) && Plain(k) && |k| == 3 && Fits(v, 130)
    ensures Budgeted(With(m, k, v), 140, 0, n + 1)
  {
    WithBudgeted(m, k, v, 140, 0, n);
  }

  lemma HeaderLiteralsArePlain()
    ensures Plain("EdDSA") && Plain(JOB_TYPE) && |JOB_TYPE| <= 128
    ensures Plain("alg") && Plain("typ") && Plain("kid")
  {}

  lemma ShortFits(s: string)
    requires Plain(s) && |s| <= 128
    ensures Fits(JString(s), 130)
  {
    PlainFits(s);
  }

  lemma HeaderBudgeted(kid: string, alg: string, typ: string)
    requires Fits(JString(kid), 130) && Fits(JString(alg), 130) && Fits(JString(typ), 130)
    ensures Budgeted(map["alg" := JString(alg), "typ" := JString(typ), "kid" := JString(kid)], 140, 0, 3)
  {
    HeaderLiteralsArePlain();
    var m: map<string, Json> := map[];
    AddHeader(m, "alg", JString(alg), 0);
    m := With(m, "alg", JString(alg));
    AddHeader(m, "typ", JString(typ), 1);
    m := With(m, "typ", JString(typ));
    AddHeader(m, "kid", JString(kid), 2);
  }

  lemma HeaderFits(kid: string)
    requires ValidId(kid)
    ensures Fits(HeaderJson(kid), 422)
  {
    HeaderInSubset(kid);
    HeaderLiteralsArePlain();
    IdFits(kid);
    ShortFits("EdDSA");
    ShortFits(JOB_TYPE);
    HeaderBudgeted(kid, "EdDSA", JOB_TYPE);
    ObjectFits(HeaderJson(kid), 140, 0, 3);
  }

  /** For all field values the schema permits, the signed text has three segments and fits MAX_JOB_BYTES. */
  lemma SignedFits(p: Primitives, t: JobTrust, j: ManagementJob)
    requires SignsSoundly(p) && ValidId(t.kid) && SchemaValid(p, j)
    ensures Sign(p, t, j).Some? && |Sign(p, t, j).value| <= MAX_JOB_BYTES
    ensures |SplitDots(Sign(p, t, j).value)| == 3
  {
    CompactSegments(p, t, false, false, j);
    PayloadFits(p, j);
    HeaderFits(t.kid);
  }

  /**
   Signing then verifying: every schema-valid job comes back with its digest exactly when its windows, the
   binding and the clock pass, and otherwise with the first failing check's error.
   */
  lemma SignVerify(p: Primitives, t: JobTrust, j: ManagementJob, b: JobBinding, now: int)
    requires SignsSoundly(p) && TrustValid(t) && SchemaValid(p, j) && Timestamp(now)
    ensures Sign(p, t, j).Some?
    ensures Verify(p, Sign(p, t, j).value, t, b, now)
         == match Refusal(j, b, now)
            case Some(error) => Err(error)
            case None => Ok(VerifiedJob(j, JobDigest(p, j), now))
  {
    SignedFits(p, t, j);
    VerifyOfCompact(p, t, false, false, j, b, now);
  }

  /** Equal digests of two verified texts mean the same job, whatever keys, bindings and clocks verified them. */
  lemma DigestNamesOneJob(p: Primitives, c1: string, t1: JobTrust, b1: JobBinding, now1: int,
                          c2: string, t2: JobTrust, b2: JobBinding, now2: int)
    requires Unforgeable(p) && HashInjective(p)
    requires Verify(p, c1, t1, b1, now1).Ok? && Verify(p, c2, t2, b2, now2).Ok?
    requires Verify(p, c1, t1, b1, now1).value.digest == Verify(p, c2, t2, b2, now2).value.digest
    ensures Verify(p, c1, t1, b1, now1).value.job == Verify(p, c2, t2, b2, now2).value.job
  {
    var v1, v2 := Verify(p, c1, t1, b1, now1).value, Verify(p, c2, t2, b2, now2).value;
    var hm1, pm1 := CompactOfVerified(p, c1, t1, b1, now1);
    var hm2, pm2 := CompactOfVerified(p, c2, t2, b2, now2);
    var payload1 := Mark(pm1, CanonicalOf(JobJson(v1.job)));
    var payload2 := Mark(pm2, CanonicalOf(JobJson(v2.job)));
    assert payload1 == payload2;
    PayloadJobExactly(p, payload1, v1.job);
    PayloadJobExactly(p, payload2, v2.job);
  }

  /**
   The one freedom left to a text: a byte order mark before the payload. It is accepted for the same job under
   the same key, but its digest is not the digest of the job, so its result reports can never match.
   */
  lemma MarkedPayloadHasForeignDigest(p: Primitives, t: JobTrust, j: ManagementJob, b: JobBinding, now: int)
    requires SignsSoundly(p) && HashInjective(p) && TrustValid(t) && SchemaValid(p, j) && Timestamp(now)
    requires Refusal(j, b, now).None? && |Compact(p, t, false, true, j)| <= MAX_JOB_BYTES
    ensures Verify(p, Compact(p, t, false, true, j), t, b, now).Ok?
    ensures Verify(p, Compact(p, t, false, true, j), t, b, now).value.job == j
    ensures Verify(p, Compact(p, t, false, true, j), t, b, now).value.digest != JobDigest(p, j)
  {
    VerifyOfCompact(p, t, false, true, j, b, now);
    JobInSubset(p, j);
    var canonical := CanonicalOf(JobJson(j));
    assert |Mark(true, canonical)| == |canonical| + 3;
  }
}
