/** The signed-job contract: schema, compact JWS framing, signing, verification and planning. */
module JobContract {
  import opened Prelude
  import opened CanonicalJson
  import opened CanonicalBytes
  import Base64Url

  const JOB_TYPE := "lynply-daemon-job+jws"
  const JOB_AUDIENCE := "urn:lynply:tools-daemon:management-jobs:v1"
  const JOB_OPERATION := "managed_worker.revoke"
  const MAX_JOB_BYTES := 16384

  /**
   The primitives the contract calls and does not define. Ed25519 and SHA-256 are ideal functions; a key
   pair is named by its public key text; plainHttpsUrl is the URL parser's verdict on an https URL without
   credentials, query or fragment that prints back unchanged.
   */
  datatype Primitives = Primitives(
    sign: (string, string) -> seq<Byte>,
    verifies: (string, string, seq<Byte>) -> bool,
    sha256: seq<Byte> -> string,
    plainHttpsUrl: string -> bool)

  /** Signatures have 64 bytes and verify under their own key (section 3.1 of RFC 8037). */
  ghost predicate SignsSoundly(p: Primitives) {
    forall key, input {:trigger p.sign(key, input)} ::
      |p.sign(key, input)| == 64 && p.verifies(key, input, p.sign(key, input))
  }

  /** Nothing but the key's own signature verifies. */
  ghost predicate Unforgeable(p: Primitives) {
    forall key, input, signature {:trigger p.verifies(key, input, signature)} ::
      p.verifies(key, input, signature) ==> signature == p.sign(key, input)
  }

  ghost predicate HashInjective(p: Primitives) {
    forall a, b {:trigger p.sha256(a), p.sha256(b)} :: p.sha256(a) == p.sha256(b) ==> a == b
  }

  datatype Resource = Resource(id: string, version: int, sha256: string)

  datatype Approval = Approval(subject: string, authorizationId: string, approvedAt: int)

  /** A job as the schema leaves it; the three literal fields are constants. */
  datatype ManagementJob = ManagementJob(
    jobId: string, iss: string, identityIssuer: string, tenantId: string, organizationId: string, subject: string,
    deviceId: string, deviceVersion: int, keyJkt: string, approvedBy: Approval, resource: Resource,
    policyRevision: int, expectedStateVersion: int, iat: int, exp: int)

  datatype JobBinding = JobBinding(
    gateway: string, identityIssuer: string, tenant: string, organization: string,
    subject: string, device: string, deviceVersion: int, jkt: string)

  datatype JobTrust = JobTrust(kid: string, publicKey: string)

  datatype VerifiedJob = VerifiedJob(job: ManagementJob, digest: string, verifiedAt: int)

  datatype JobError =
    | JobInvalid | KeyUntrusted | SignatureInvalid | BindingMismatch | NotYetValid | Expired
    | ClockRegressed | StateInvalid | Conflict | ResourceMismatch | StaleState | ResourceRevoked

  // ---------------------------------------------------------------- schema

  predicate Alphanumeric(c: char) {
    'A' <= c <= 'Z' || 'a' <= c <= 'z' || '0' <= c <= '9'
  }

  predicate IdChar(c: char) {
    Alphanumeric(c) || c == '.' || c == '_' || c == ':' || c == '-'
  }

  predicate ValidId(s: string) {
    1 <= |s| <= 128 && Alphanumeric(s[0]) && forall i | 0 <= i < |s| :: IdChar(s[i])
  }

  predicate Positive(n: int) {
    1 <= n <= MAX_SAFE
  }

  predicate Timestamp(n: int) {
    0 <= n <= MAX_SAFE
  }

  predicate ValidUrl(p: Primitives, s: string) {
    1 <= |s| <= 512 && (forall i | 0 <= i < |s| :: '!' <= s[i] <= '~') && p.plainHttpsUrl(s)
  }

  predicate ValidDigest(s: string) {
    |s| == 64 && forall i | 0 <= i < |s| :: '0' <= s[i] <= '9' || 'a' <= s[i] <= 'f'
  }

  predicate ValidThumbprint(s: string) {
    |s| == 43 && Base64Url.AlphabetText(s)
  }

  /** A digit, an upper-case or a lower-case letter, by character code. */
  predicate LetterOrDigit(code: int) {
    48 <= code < 58 || 65 <= code < 91 || 97 <= code < 123
  }

  /** Ids: one letter or digit, then at most 127 letters, digits, dots, underscores, colons or hyphens. */
  lemma IdExactly(s: string)
    ensures ValidId(s)
      <==> (0 < |s| < 129 && LetterOrDigit(s[0] as int) && forall i | 0 < i < |s| :: LetterOrDigit(s[i] as int) || s[i] in "._:-")
  {}

  /** The other leaves of the schema: printable URLs, lower-case hex digests, thumbprints, positive numbers and times up to 2^53 - 1. */
  lemma LeavesExactly(p: Primitives, s: string, n: int)
    ensures ValidUrl(p, s) <==> (0 < |s| < 513 && p.plainHttpsUrl(s) && forall i | 0 <= i < |s| :: 33 <= s[i] as int < 127)
    ensures ValidDigest(s) <==> (|s| == 64 && forall i | 0 <= i < |s| :: 48 <= s[i] as int < 58 || 97 <= s[i] as int < 103)
    ensures ValidThumbprint(s) <==> (|s| == 43 && forall i | 0 <= i < |s| :: LetterOrDigit(s[i] as int) || s[i] in "-_")
    ensures Positive(n) <==> 0 < n < 9007199254740992
    ensures Timestamp(n) <==> 0 <= n < 9007199254740992
  {}

  predicate ResourceValid(r: Resource) {
    ValidId(r.id) && Positive(r.version) && ValidDigest(r.sha256)
  }

  predicate ApprovalValid(a: Approval) {
    ValidId(a.subject) && ValidId(a.authorizationId) && Timestamp(a.approvedAt)
  }

  /** What jobSchema accepts. */
  predicate SchemaValid(p: Primitives, j: ManagementJob) {
    && ValidId(j.jobId) && ValidUrl(p, j.iss) && ValidUrl(p, j.identityIssuer)
    && ValidId(j.tenantId) && ValidId(j.organizationId) && ValidId(j.subject)
    && ValidId(j.deviceId) && Positive(j.deviceVersion) && ValidThumbprint(j.keyJkt)
    && ApprovalValid(j.approvedBy) && ResourceValid(j.resource)
    && Positive(j.policyRevision) && Positive(j.expectedStateVersion) && Timestamp(j.iat) && Timestamp(j.exp)
  }

  function ResourceJson(r: Resource): Json {
    JObject(map["id" := JString(r.id), "version" := JInteger(r.version), "sha256" := JString(r.sha256)])
  }

  function ApprovalJson(a: Approval): Json {
    JObject(map["subject" := JString(a.subject), "authorization_id" := JString(a.authorizationId),
                "approved_at" := JInteger(a.approvedAt)])
  }

  function JobJson(j: ManagementJob): Json {
    JObject(map[
      "schema_version" := JInteger(1), "job_id" := JString(j.jobId), "iss" := JString(j.iss),
      "aud" := JString(JOB_AUDIENCE), "identity_issuer" := JString(j.identityIssuer),
      "tenant_id" := JString(j.tenantId), "organization_id" := JString(j.organizationId),
      "subject" := JString(j.subject), "device_id" := JString(j.deviceId),
      "device_version" := JInteger(j.deviceVersion), "key_jkt" := JString(j.keyJkt),
      "approved_by" := ApprovalJson(j.approvedBy), "operation" := JString(JOB_OPERATION),
      "resource" := ResourceJson(j.resource), "policy_revision" := JInteger(j.policyRevision),
      "expected_state_version" := JInteger(j.expectedStateVersion), "iat" := JInteger(j.iat), "exp" := JInteger(j.exp)])
  }

  function HeaderJson(kid: string): Json {
    JObject(map["alg" := JString("EdDSA"), "typ" := JString(JOB_TYPE), "kid" := JString(kid)])
  }

  predicate HasText(v: Json, k: string) {
    v.JObject? && k in v.fields && v.fields[k].JString?
  }

  predicate HasInteger(v: Json, k: string) {
    v.JObject? && k in v.fields && v.fields[k].JInteger?
  }

  function TextAt(v: Json, k: string): string {
    if HasText(v, k) then v.fields[k].text else ""
  }

  function IntegerAt(v: Json, k: string): int {
    if HasInteger(v, k) then v.fields[k].n else 0
  }

  function ValueAt(v: Json, k: string): Json {
    if v.JObject? && k in v.fields then v.fields[k] else JObject(map[])
  }

  /** The fields of an object, read one by one; a missing or ill-typed field yields a value no schema accepts. */
  function ReadResource(v: Json): Resource {
    Resource(TextAt(v, "id"), IntegerAt(v, "version"), TextAt(v, "sha256"))
  }

  function ReadApproval(v: Json): Approval {
    Approval(TextAt(v, "subject"), TextAt(v, "authorization_id"), IntegerAt(v, "approved_at"))
  }

  function ReadJob(v: Json): ManagementJob {
    ManagementJob(
      TextAt(v, "job_id"), TextAt(v, "iss"), TextAt(v, "identity_issuer"), TextAt(v, "tenant_id"),
      TextAt(v, "organization_id"), TextAt(v, "subject"), TextAt(v, "device_id"), IntegerAt(v, "device_version"),
      TextAt(v, "key_jkt"), ReadApproval(ValueAt(v, "approved_by")), ReadResource(ValueAt(v, "resource")),
      IntegerAt(v, "policy_revision"), IntegerAt(v, "expected_state_version"), IntegerAt(v, "iat"), IntegerAt(v, "exp"))
  }

  /**
   jobSchema.safeParse. The strict schema fixes the key set, the literal fields and every type, so it accepts
   a value exactly when the fields read from it are valid and write back to that value: see StrictSchema.
   */
  function JobOf(p: Primitives, v: Json): Option<ManagementJob> {
    var job := ReadJob(v);
    if SchemaValid(p, job) && v == JobJson(job) then Some(job) else None
  }

  /** headerSchema.safeParse; the kid is the one field that varies. */
  function HeaderOf(v: Json): (kid: Option<string>) {
    var kid := TextAt(v, "kid");
    if ValidId(kid) && v == HeaderJson(kid) then Some(kid) else None
  }

  const JOB_KEYS := {
    "schema_version", "job_id", "iss", "aud", "identity_issuer", "tenant_id", "organization_id", "subject",
    "device_id", "device_version", "key_jkt", "approved_by", "operation", "resource", "policy_revision",
    "expected_state_version", "iat", "exp" }

  predicate ResourceShape(v: Json) {
    && HasText(v, "id") && HasInteger(v, "version") && HasText(v, "sha256")
    && v.fields.Keys == {"id", "version", "sha256"}
  }

  predicate ApprovalShape(v: Json) {
    && HasText(v, "subject") && HasText(v, "authorization_id") && HasInteger(v, "approved_at")
    && v.fields.Keys == {"subject", "authorization_id", "approved_at"}
  }

  /** The strict object grammar of a job, key by key. */
  predicate JobShape(v: Json) {
    && v.JObject? && v.fields.Keys == JOB_KEYS
    && v.fields["schema_version"] == JInteger(1) && v.fields["aud"] == JString(JOB_AUDIENCE)
    && v.fields["operation"] == JString(JOB_OPERATION)
    && HasText(v, "job_id") && HasText(v, "iss") && HasText(v, "identity_issuer") && HasText(v, "tenant_id")
    && HasText(v, "organization_id") && HasText(v, "subject") && HasText(v, "device_id") && HasText(v, "key_jkt")
    && HasInteger(v, "device_version") && HasInteger(v, "policy_revision")
    && HasInteger(v, "expected_state_version") && HasInteger(v, "iat") && HasInteger(v, "exp")
    && ApprovalShape(v.fields["approved_by"]) && ResourceShape(v.fields["resource"])
  }

  lemma ResourceRoundTrip(v: Json)
    ensures v == ResourceJson(ReadResource(v)) <==> ResourceShape(v)
  {
    if ResourceShape(v) { assert v.fields == ResourceJson(ReadResource(v)).fields; }
  }

  lemma ApprovalRoundTrip(v: Json)
    ensures v == ApprovalJson(ReadApproval(v)) <==> ApprovalShape(v)
  {
    if ApprovalShape(v) { assert v.fields == ApprovalJson(ReadApproval(v)).fields; }
  }

  predicate Holds(m: map<string, Json>, k: string, v: Json) {
    k in m && m[k] == v
  }

  lemma OwnerFields(j: ManagementJob)
    ensures var f := JobJson(j).fields;
      && Holds(f, "job_id", JString(j.jobId)) && Holds(f, "iss", JString(j.iss))
      && Holds(f, "identity_issuer", JString(j.identityIssuer)) && Holds(f, "tenant_id", JString(j.tenantId))
      && Holds(f, "organization_id", JString(j.organizationId))
  {}

  lemma DeviceFields(j: ManagementJob)
    ensures var f := JobJson(j).fields;
      && Holds(f, "subject", JString(j.subject)) && Holds(f, "device_id", JString(j.deviceId))
      && Holds(f, "device_version", JInteger(j.deviceVersion)) && Holds(f, "key_jkt", JString(j.keyJkt))
  {}

  lemma LiteralFields(j: ManagementJob)
    ensures var f := JobJson(j).fields;
      && Holds(f, "schema_version", JInteger(1)) && Holds(f, "aud", JString(JOB_AUDIENCE))
      && Holds(f, "operation", JString(JOB_OPERATION))
  {}

  lemma NestedFields(j: ManagementJob)
    ensures var f := JobJson(j).fields;
      && Holds(f, "approved_by", ApprovalJson(j.approvedBy)) && Holds(f, "resource", ResourceJson(j.resource))
  {}

  lemma StateFields(j: ManagementJob)
    ensures var f := JobJson(j).fields;
      && Holds(f, "policy_revision", JInteger(j.policyRevision)) && Holds(f, "expected_state_version", JInteger(j.expectedStateVersion))
      && Holds(f, "iat", JInteger(j.iat)) && Holds(f, "exp", JInteger(j.exp))
  {}

  lemma ResourceReadsBack(r: Resource)
    ensures ReadResource(ResourceJson(r)) == r
  {}

  lemma ApprovalReadsBack(a: Approval)
    ensures ReadApproval(ApprovalJson(a)) == a
  {}

  lemma JobReadsBack(j: ManagementJob)
    ensures ReadJob(JobJson(j)) == j
  {
    OwnerFields(j);
    DeviceFields(j);
    LiteralFields(j);
    NestedFields(j);
    StateFields(j);
    ApprovalReadsBack(j.approvedBy);
    ResourceReadsBack(j.resource);
  }

  /** The schema accepts exactly the JSON forms of valid jobs, so a job has one JSON value. */
  lemma JobOfExactly(p: Primitives, v: Json, j: ManagementJob)
    ensures JobOf(p, v) == Some(j) <==> SchemaValid(p, j) && v == JobJson(j)
  {
    JobReadsBack(j);
  }

  lemma ShapeOfJson(v: Json)
    requires v == JobJson(ReadJob(v))
    ensures JobShape(v)
  {
    OwnerFields(ReadJob(v));
    DeviceFields(ReadJob(v));
    LiteralFields(ReadJob(v));
    NestedFields(ReadJob(v));
    StateFields(ReadJob(v));
    ApprovalRoundTrip(v.fields["approved_by"]);
    ResourceRoundTrip(v.fields["resource"]);
  }

  lemma JsonOfShape(v: Json)
    requires JobShape(v)
    ensures v == JobJson(ReadJob(v))
  {
    var j := ReadJob(v);
    OwnerFields(j);
    DeviceFields(j);
    LiteralFields(j);
    NestedFields(j);
    StateFields(j);
    ApprovalRoundTrip(v.fields["approved_by"]);
    ResourceRoundTrip(v.fields["resource"]);
    forall k | k in JOB_KEYS ensures v.fields[k] == JobJson(j).fields[k] {}
    assert v.fields == JobJson(j).fields;
  }

  /** Writing the fields back is the strict grammar: the exact keys, literals and types, and valid fields. */
  lemma StrictSchema(p: Primitives, v: Json)
    ensures JobOf(p, v).Some? <==> JobShape(v) && SchemaValid(p, ReadJob(v))
  {
    if v == JobJson(ReadJob(v)) { ShapeOfJson(v); }
    if JobShape(v) { JsonOfShape(v); }
  }

  lemma {:induction false} IdIsAscii(s: string)
    requires ValidId(s)
    ensures Ascii(s)
  {
    forall i | 0 <= i < |s| ensures s[i] < 128 as char { assert IdChar(s[i]); }
  }

  lemma ResourceInSubset(r: Resource)
    requires ResourceValid(r)
    ensures InSubset(ResourceJson(r))
  {
    IdIsAscii(r.id);
    assert Ascii(r.sha256);
  }

  lemma ApprovalInSubset(a: Approval)
    requires ApprovalValid(a)
    ensures InSubset(ApprovalJson(a))
  {
    IdIsAscii(a.subject);
    IdIsAscii(a.authorizationId);
  }

  function With(m: map<string, Json>, k: string, v: Json): map<string, Json> {
    m[k := v]
  }

  lemma KeysAreAscii()
    ensures forall k | k in JOB_KEYS :: Ascii(k)
  {}

  lemma WithInSubset(m: map<string, Json>, k: string, v: Json)
    requires InSubset(JObject(m)) && k in JOB_KEYS && InSubset(v)
    ensures InSubset(JObject(With(m, k, v)))
  {
    KeysAreAscii();
  }

  function FourFields(j: ManagementJob): map<string, Json> {
    map["schema_version" := JInteger(1), "job_id" := JString(j.jobId), "iss" := JString(j.iss), "aud" := JString(JOB_AUDIENCE)]
  }

  function SixFields(j: ManagementJob): map<string, Json> {
    With(With(FourFields(j), "identity_issuer", JString(j.identityIssuer)), "tenant_id", JString(j.tenantId))
  }

  function NineFields(j: ManagementJob): map<string, Json> {
    var m := With(With(SixFields(j), "organization_id", JString(j.organizationId)), "subject", JString(j.subject));
    With(m, "device_id", JString(j.deviceId))
  }

  lemma LiteralsAreAscii()
    ensures Ascii(JOB_AUDIENCE) && Ascii(JOB_OPERATION)
  {}

  predicate TextsAreAscii(j: ManagementJob) {
    && Ascii(j.jobId) && Ascii(j.iss) && Ascii(j.identityIssuer) && Ascii(j.tenantId) && Ascii(j.organizationId)
    && Ascii(j.subject) && Ascii(j.deviceId) && Ascii(j.keyJkt)
  }

  lemma JobTextsAreAscii(p: Primitives, j: ManagementJob)
    requires SchemaValid(p, j)
    ensures TextsAreAscii(j)
  {
    IdIsAscii(j.jobId); IdIsAscii(j.tenantId); IdIsAscii(j.organizationId); IdIsAscii(j.subject); IdIsAscii(j.deviceId);
  }

  lemma FourFieldsInSubset(j: ManagementJob)
    requires TextsAreAscii(j)
    ensures InSubset(JObject(FourFields(j)))
  {
    LiteralsAreAscii();
    var m: map<string, Json> := map[];
    WithInSubset(m, "schema_version", JInteger(1));
    m := With(m, "schema_version", JInteger(1));
    WithInSubset(m, "job_id", JString(j.jobId));
    m := With(m, "job_id", JString(j.jobId));
    WithInSubset(m, "iss", JString(j.iss));
    m := With(m, "iss", JString(j.iss));
    WithInSubset(m, "aud", JString(JOB_AUDIENCE));
    m := With(m, "aud", JString(JOB_AUDIENCE));
    assert FourFields(j) == m;
  }

  lemma SixFieldsInSubset(j: ManagementJob)
    requires TextsAreAscii(j)
    ensures InSubset(JObject(SixFields(j)))
  {
    FourFieldsInSubset(j);
    var m := FourFields(j);
    WithInSubset(m, "identity_issuer", JString(j.identityIssuer));
    m := With(m, "identity_issuer", JString(j.identityIssuer));
    WithInSubset(m, "tenant_id", JString(j.tenantId));
    m := With(m, "tenant_id", JString(j.tenantId));
    assert SixFields(j) == m;
  }

  lemma NineFieldsInSubset(j: ManagementJob)
    requires TextsAreAscii(j)
    ensures InSubset(JObject(NineFields(j)))
  {
    SixFieldsInSubset(j);
    var m := SixFields(j);
    WithInSubset(m, "organization_id", JString(j.organizationId));
    m := With(m, "organization_id", JString(j.organizationId));
    WithInSubset(m, "subject", JString(j.subject));
    m := With(m, "subject", JString(j.subject));
    WithInSubset(m, "device_id", JString(j.deviceId));
    m := With(m, "device_id", JString(j.deviceId));
    assert NineFields(j) == m;
  }

  /** Every field of a valid job lies in the canonical JSON subset. */
  lemma JobInSubset(p: Primitives, j: ManagementJob)
    requires SchemaValid(p, j)
    ensures InSubset(JobJson(j))
  {
    JobTextsAreAscii(p, j);
    NineFieldsInSubset(j);
    LiteralsAreAscii();
    ApprovalInSubset(j.approvedBy);
    ResourceInSubset(j.resource);
    var m := NineFields(j);
    WithInSubset(m, "device_version", JInteger(j.deviceVersion));
    m := With(m, "device_version", JInteger(j.deviceVersion));
    WithInSubset(m, "key_jkt", JString(j.keyJkt));
    m := With(m, "key_jkt", JString(j.keyJkt));
    WithInSubset(m, "approved_by", ApprovalJson(j.approvedBy));
    m := With(m, "approved_by", ApprovalJson(j.approvedBy));
    WithInSubset(m, "operation", JString(JOB_OPERATION));
    m := With(m, "operation", JString(JOB_OPERATION));
    WithInSubset(m, "resource", ResourceJson(j.resource));
    m := With(m, "resource", ResourceJson(j.resource));
    WithInSubset(m, "policy_revision", JInteger(j.policyRevision));
    m := With(m, "policy_revision", JInteger(j.policyRevision));
    WithInSubset(m, "expected_state_version", JInteger(j.expectedStateVersion));
    m := With(m, "expected_state_version", JInteger(j.expectedStateVersion));
    WithInSubset(m, "iat", JInteger(j.iat));
    m := With(m, "iat", JInteger(j.iat));
    WithInSubset(m, "exp", JInteger(j.exp));
    m := With(m, "exp", JInteger(j.exp));
    assert JobJson(j).fields == m;
  }

  lemma HeaderInSubset(kid: string)
    requires ValidId(kid)
    ensures InSubset(HeaderJson(kid))
  {
    IdIsAscii(kid);
    HeaderTextsAreAscii();
  }

  lemma HeaderTextsAreAscii()
    ensures Ascii(JOB_TYPE) && Ascii("EdDSA") && Ascii("alg") && Ascii("typ") && Ascii("kid")
  {}

  lemma HeaderOfExactly(v: Json, kid: string)
    ensures HeaderOf(v) == Some(kid) <==> ValidId(kid) && v == HeaderJson(kid)
  {
  }

  /** The strict object grammar of a header, key by key. */
  predicate HeaderShape(v: Json) {
    && v.JObject? && v.fields.Keys == {"alg", "typ", "kid"}
    && HasText(v, "alg") && HasText(v, "typ") && HasText(v, "kid")
    && v.fields["alg"].text == "EdDSA" && v.fields["typ"].text == JOB_TYPE && ValidId(v.fields["kid"].text)
  }

  /** The header schema accepts exactly that grammar, and yields the text of the kid field. */
  lemma StrictHeader(v: Json)
    ensures HeaderOf(v).Some? <==> HeaderShape(v)
    ensures HeaderShape(v) ==> HeaderOf(v) == Some(v.fields["kid"].text)
  {
    if HeaderShape(v) { assert v.fields == HeaderJson(v.fields["kid"].text).fields; }
  }

  // ---------------------------------------------------------------- compact framing

  /** compact.split("."). */
  function SplitDots(s: string): (r: seq<string>)
    ensures |r| >= 1
  {
    if s == "" then [""]
    else if s[0] == '.' then [""] + SplitDots(s[1..])
    else
      var r := SplitDots(s[1..]);
      [[s[0]] + r[0]] + r[1..]
  }

  predicate Dotless(s: string) {
    forall i | 0 <= i < |s| :: s[i] != '.'
  }

  function JoinDots(r: seq<string>): string
    requires |r| >= 1
  {
    if |r| == 1 then r[0] else r[0] + "." + JoinDots(r[1..])
  }

  lemma {:induction false} SplitOfDotless(s: string)
    requires Dotless(s)
    ensures SplitDots(s) == [s]
  {
    if s != "" {
      SplitOfDotless(s[1..]);
      assert s == [s[0]] + s[1..];
    }
  }

  lemma {:induction false} SplitAtDot(a: string, b: string)
    requires Dotless(a)
    ensures SplitDots(a + "." + b) == [a] + SplitDots(b)
  {
    if a == "" {
      assert a + "." + b == "." + b;
      assert ("." + b)[1..] == b;
    } else {
      assert (a + "." + b)[1..] == a[1..] + "." + b;
      SplitAtDot(a[1..], b);
      assert a == [a[0]] + a[1..];
    }
  }

  lemma {:induction false} JoinOfSplit(s: string)
    ensures JoinDots(SplitDots(s)) == s
  {
    if s != "" {
      JoinOfSplit(s[1..]);
      var r := SplitDots(s[1..]);
      if s[0] == '.' {
        assert SplitDots(s)[1..] == r;
        assert s == "." + s[1..];
      } else {
        assert SplitDots(s)[1..] == r[1..];
        assert s == [s[0]] + s[1..];
      }
    }
  }

  lemma ThreeSegments(a: string, b: string, c: string)
    requires Dotless(a) && Dotless(b) && Dotless(c)
    ensures SplitDots(a + "." + b + "." + c) == [a, b, c]
  {
    assert a + "." + b + "." + c == a + "." + (b + "." + c);
    SplitAtDot(a, b + "." + c);
    SplitAtDot(b, c);
    SplitOfDotless(c);
  }

  // ---------------------------------------------------------------- verification and planning

  predicate TrustValid(t: JobTrust) {
    ValidId(t.kid) && ValidThumbprint(t.publicKey) && Base64Url.Decode(t.publicKey).Some?
  }

  /** At most five minutes between approval and issue, and between issue and expiry. */
  predicate WindowsValid(j: ManagementJob) {
    && j.iat < j.exp && j.exp - j.iat <= 300
    && j.approvedBy.approvedAt <= j.iat && j.iat - j.approvedBy.approvedAt <= 300
  }

  predicate Bound(j: ManagementJob, b: JobBinding) {
    && j.iss == b.gateway && j.identityIssuer == b.identityIssuer && j.tenantId == b.tenant
    && j.organizationId == b.organization && j.subject == b.subject && j.deviceId == b.device
    && j.deviceVersion == b.deviceVersion && j.keyJkt == b.jkt
  }

  /** The checks after the signature, in order. */
  function Refusal(j: ManagementJob, b: JobBinding, now: int): Option<JobError> {
    if !WindowsValid(j) then Some(JobInvalid)
    else if !Bound(j, b) then Some(BindingMismatch)
    else if j.iat > now + 5 then Some(NotYetValid)
    else if j.exp <= now then Some(Expired)
    else None
  }

  /** Which check refuses a signed job, in terms of its own fields: its windows, the binding it was made for, and the clock. */
  lemma RefusalExactly(j: ManagementJob, b: JobBinding, now: int)
    ensures var windows := j.approvedBy.approvedAt <= j.iat <= j.approvedBy.approvedAt + 300 && j.iat < j.exp <= j.iat + 300;
      var bound := b == JobBinding(j.iss, j.identityIssuer, j.tenantId, j.organizationId, j.subject, j.deviceId, j.deviceVersion, j.keyJkt);
      && (Refusal(j, b, now) == Some(JobInvalid) <==> !windows)
      && (Refusal(j, b, now) == Some(BindingMismatch) <==> windows && !bound)
      && (Refusal(j, b, now) == Some(NotYetValid) <==> windows && bound && now < j.iat - 5)
      && (Refusal(j, b, now) == Some(Expired) <==> windows && bound && j.iat - 5 <= now && j.exp <= now)
      && (Refusal(j, b, now) == None <==> windows && bound && j.iat - 5 <= now < j.exp)
  {}

  /** The three segments after decoding; None marks an undecodable header, payload or signature. */
  datatype Decoded = Decoded(kid: Option<string>, payload: Option<seq<Byte>>, signature: Option<seq<Byte>>, input: string)

  function DecodeCompact(compact: string): Option<Decoded> {
    var segments := SplitDots(compact);
    if |segments| != 3 then None
    else Some(Decoded(HeaderKid(segments[0]), Base64Url.Decode(segments[1]), Base64Url.Decode(segments[2]),
                      segments[0] + "." + segments[1]))
  }

  /** VerifiedJob.verify. */
  function Verify(p: Primitives, compact: string, trust: JobTrust, binding: JobBinding, now: int)
    : Result<VerifiedJob, JobError>
  {
    if |compact| > MAX_JOB_BYTES || !Timestamp(now) then Err(JobInvalid)
    else match DecodeCompact(compact)
      case None => Err(JobInvalid)
      case Some(d) => VerifyDecoded(p, d, trust, binding, now)
  }

  /** The checks up to the signature, in order. */
  function DecodedRefusal(p: Primitives, d: Decoded, trust: JobTrust): Option<JobError> {
    if d.kid.None? then Some(JobInvalid)
    else if d.kid.value != trust.kid || !TrustValid(trust) then Some(KeyUntrusted)
    else if d.payload.None? || d.signature.None? then Some(JobInvalid)
    else if |d.signature.value| != 64 || !p.verifies(trust.publicKey, d.input, d.signature.value) then Some(SignatureInvalid)
    else None
  }

  /** A key is refused exactly when it is not the header's or not a key, a signature exactly when that key did not make it. */
  lemma DecodedRefusalExactly(p: Primitives, d: Decoded, t: JobTrust)
    ensures var known := d.kid == Some(t.kid) && TrustValid(t);
      var signed := d.signature.Some? && |d.signature.value| == 64 && p.verifies(t.publicKey, d.input, d.signature.value);
      && (DecodedRefusal(p, d, t) == Some(KeyUntrusted) <==> d.kid.Some? && !known)
      && (DecodedRefusal(p, d, t) == Some(SignatureInvalid) <==> known && d.payload.Some? && d.signature.Some? && !signed)
      && (DecodedRefusal(p, d, t) == Some(JobInvalid) <==> d.kid.None? || (known && (d.payload.None? || d.signature.None?)))
      && (DecodedRefusal(p, d, t) == None <==> known && d.payload.Some? && signed)
  {}

  function VerifyDecoded(p: Primitives, d: Decoded, trust: JobTrust, binding: JobBinding, now: int)
    : Result<VerifiedJob, JobError>
  {
    match DecodedRefusal(p, d, trust)
    case Some(error) => Err(error)
    case None => VerifyPayload(p, d.payload.value, binding, now)
  }

  function HeaderKid(segment: string): Option<string> {
    match Base64Url.Decode(segment)
    case None => None
    case Some(bytes) =>
      match ParseCanonical(bytes)
      case None => None
      case Some(v) => HeaderOf(v)
  }

  function PayloadJob(p: Primitives, payload: seq<Byte>): Option<ManagementJob> {
    match ParseCanonical(payload)
    case None => None
    case Some(v) => JobOf(p, v)
  }

  function VerifyPayload(p: Primitives, payload: seq<Byte>, binding: JobBinding, now: int): Result<VerifiedJob, JobError> {
    match PayloadJob(p, payload)
    case None => Err(JobInvalid)
    case Some(job) =>
      match Refusal(job, binding, now)
      case Some(error) => Err(error)
      case None => Ok(VerifiedJob(job, p.sha256(payload), now))
  }

  datatype Status = Active | Revoked

  datatype ResourceState = ResourceState(resource: Resource, policyRevision: int, stateVersion: int, status: Status)

  datatype PriorJob = PriorJob(jobId: string, digest: string)

  datatype Admission =
    | AlreadyRecorded(jobId: string, digest: string)
    | PrepareRevoke(jobId: string, digest: string, resourceId: string, expectedStateVersion: int, nextStateVersion: int)

  predicate StateValid(s: ResourceState) {
    ResourceValid(s.resource) && Positive(s.policyRevision) && Positive(s.stateVersion)
  }

  predicate PriorValid(r: PriorJob) {
    ValidId(r.jobId) && ValidDigest(r.digest)
  }

  /** VerifiedJob.plan. Comparing canonical texts of two resources is comparing the resources: see ResourceTextsAgree. */
  function Plan(v: VerifiedJob, current: ResourceState, now: int, prior: Option<PriorJob>): Result<Admission, JobError> {
    if !Timestamp(now) then Err(JobInvalid)
    else if now < v.verifiedAt then Err(ClockRegressed)
    else if v.job.iat > now + 5 then Err(NotYetValid)
    else if v.job.exp <= now then Err(Expired)
    else if !StateValid(current) || (prior.Some? && !PriorValid(prior.value)) then Err(StateInvalid)
    else if prior.Some? then
      if prior.value.jobId != v.job.jobId || prior.value.digest != v.digest then Err(Conflict)
      else Ok(AlreadyRecorded(v.job.jobId, v.digest))
    else if current.resource != v.job.resource then Err(ResourceMismatch)
    else if current.policyRevision != v.job.policyRevision || current.stateVersion != v.job.expectedStateVersion
    then Err(StaleState)
    else if current.status != Active then Err(ResourceRevoked)
    else if current.stateVersion == MAX_SAFE then Err(StateInvalid)
    else Ok(PrepareRevoke(v.job.jobId, v.digest, v.job.resource.id, current.stateVersion, current.stateVersion + 1))
  }

  /** The clock allows planning: it has not gone back since verification, and the job has begun and not expired. */
  predicate InTime(v: VerifiedJob, now: int) {
    0 <= now <= MAX_SAFE && v.verifiedAt <= now && v.job.iat - 5 <= now < v.job.exp
  }

  /** A revocation is prepared exactly in time, for a job not recorded before, on the one state the job names, below 2^53 - 1. */
  lemma PlanPreparesExactly(v: VerifiedJob, current: ResourceState, now: int, prior: Option<PriorJob>)
    ensures Plan(v, current, now, prior).Ok? && Plan(v, current, now, prior).value.PrepareRevoke?
      <==> && InTime(v, now) && prior.None? && StateValid(current) && current.stateVersion < MAX_SAFE
           && current == ResourceState(v.job.resource, v.job.policyRevision, v.job.expectedStateVersion, Active)
    ensures Plan(v, current, now, prior).Ok? && Plan(v, current, now, prior).value.PrepareRevoke? ==>
      Plan(v, current, now, prior).value
        == PrepareRevoke(v.job.jobId, v.digest, v.job.resource.id, v.job.expectedStateVersion, v.job.expectedStateVersion + 1)
  {}

  /** A job is told it is recorded exactly in time, on any valid state, when the record has its own id and digest. */
  lemma PlanRepeatsExactly(v: VerifiedJob, current: ResourceState, now: int, prior: Option<PriorJob>)
    ensures Plan(v, current, now, prior) == Ok(AlreadyRecorded(v.job.jobId, v.digest))
      <==> && InTime(v, now) && StateValid(current) && prior == Some(PriorJob(v.job.jobId, v.digest))
           && ValidId(v.job.jobId) && ValidDigest(v.digest)
    ensures Plan(v, current, now, prior).Ok? && Plan(v, current, now, prior).value.AlreadyRecorded? ==>
      Plan(v, current, now, prior).value == AlreadyRecorded(v.job.jobId, v.digest)
  {}

  /** Every refusal names a defect that is there. */
  lemma PlanRefusesFor(v: VerifiedJob, current: ResourceState, now: int, prior: Option<PriorJob>)
    requires Plan(v, current, now, prior).Err?
    ensures match Plan(v, current, now, prior).error
      case ClockRegressed => now < v.verifiedAt
      case NotYetValid => now < v.job.iat - 5
      case Expired => v.job.exp <= now
      case Conflict => prior.Some? && prior.value != PriorJob(v.job.jobId, v.digest)
      case ResourceMismatch => current.resource != v.job.resource
      case StaleState => (current.policyRevision, current.stateVersion) != (v.job.policyRevision, v.job.expectedStateVersion)
      case ResourceRevoked => current.status == Revoked
      case StateInvalid => !StateValid(current) || (prior.Some? && !PriorValid(prior.value)) || current.stateVersion == MAX_SAFE
      case JobInvalid => !(0 <= now <= MAX_SAFE)
      case _ => false
  {}

  /** The textual comparison of the source decides equality of resources. */
  lemma ResourceTextsAgree(r: Resource, s: Resource)
    requires ResourceValid(r) && ResourceValid(s)
    ensures InSubset(ResourceJson(r)) && InSubset(ResourceJson(s))
    ensures Print(ResourceJson(r)) == Print(ResourceJson(s)) <==> r == s
  {
    ResourceInSubset(r);
    ResourceInSubset(s);
    if Print(ResourceJson(r)) == Print(ResourceJson(s)) {
      PrintInjective(ResourceJson(r), ResourceJson(s));
      ResourceReadsBack(r);
      ResourceReadsBack(s);
    }
  }
}
