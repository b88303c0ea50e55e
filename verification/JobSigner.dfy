/** Signing a job, and how signing and verification fit together (sections 3.1 and 7.1 of RFC 7515). */
module JobSigner {
  import opened Prelude
  import opened CanonicalJson
  import opened CanonicalBytes
  import opened JobContract
  import Base64Url

  function Mark(marked: bool, bytes: seq<Byte>): seq<Byte> {
    if marked then BYTE_ORDER_MARK + bytes else bytes
  }

  /** header "." payload, over the canonical bytes with or without a leading byte order mark. */
  function SigningInput(p: Primitives, t: JobTrust, headerMark: bool, payloadMark: bool, j: ManagementJob): string
    requires ValidId(t.kid) && SchemaValid(p, j)
  {
    HeaderInSubset(t.kid);
    JobInSubset(p, j);
    Base64Url.Encode(Mark(headerMark, CanonicalOf(HeaderJson(t.kid)))) + "."
    + Base64Url.Encode(Mark(payloadMark, CanonicalOf(JobJson(j))))
  }

  function Compact(p: Primitives, t: JobTrust, headerMark: bool, payloadMark: bool, j: ManagementJob): string
    requires ValidId(t.kid) && SchemaValid(p, j)
  {
    var input := SigningInput(p, t, headerMark, payloadMark, j);
    input + "." + Base64Url.Encode(p.sign(t.publicKey, input))
  }

  /** JobSigner.sign: the schema is parsed again, then the canonical bytes are framed and signed. */
  function Sign(p: Primitives, t: JobTrust, j: ManagementJob): Option<string>
    requires ValidId(t.kid)
  {
    if SchemaValid(p, j) then Some(Compact(p, t, false, false, j)) else None
  }

  /** The digest of a job: SHA-256 of its canonical bytes. */
  function JobDigest(p: Primitives, j: ManagementJob): string
    requires SchemaValid(p, j)
  {
    JobInSubset(p, j);
    p.sha256(CanonicalOf(JobJson(j)))
  }

  lemma EncodedIsDotless(b: seq<Byte>)
    ensures Dotless(Base64Url.Encode(b))
  {
    var s := Base64Url.Encode(b);
    forall i | 0 <= i < |s| ensures s[i] != '.' { assert Base64Url.InAlphabet(s[i]); }
  }

  lemma CanonicalNonempty(v: Json)
    requires InSubset(v)
    ensures CanonicalOf(v) != []
  {
    PrintStart(v);
  }

  /** The three segments of a compact text. */
  lemma CompactSegments(p: Primitives, t: JobTrust, hm: bool, pm: bool, j: ManagementJob)
    requires ValidId(t.kid) && SchemaValid(p, j)
    ensures InSubset(HeaderJson(t.kid)) && InSubset(JobJson(j))
    ensures var h := Base64Url.Encode(Mark(hm, CanonicalOf(HeaderJson(t.kid))));
            var b := Base64Url.Encode(Mark(pm, CanonicalOf(JobJson(j))));
            var s := Base64Url.Encode(p.sign(t.publicKey, h + "." + b));
            && SigningInput(p, t, hm, pm, j) == h + "." + b
            && Compact(p, t, hm, pm, j) == h + "." + b + "." + s
            && SplitDots(Compact(p, t, hm, pm, j)) == [h, b, s]
  {
    HeaderInSubset(t.kid);
    JobInSubset(p, j);
    var h := Base64Url.Encode(Mark(hm, CanonicalOf(HeaderJson(t.kid))));
    var b := Base64Url.Encode(Mark(pm, CanonicalOf(JobJson(j))));
    var s := Base64Url.Encode(p.sign(t.publicKey, h + "." + b));
    EncodedIsDotless(Mark(hm, CanonicalOf(HeaderJson(t.kid))));
    EncodedIsDotless(Mark(pm, CanonicalOf(JobJson(j))));
    EncodedIsDotless(p.sign(t.publicKey, h + "." + b));
    ThreeSegments(h, b, s);
  }

  lemma HeaderKidExactly(segment: string, kid: string)
    requires ValidId(kid)
    ensures InSubset(HeaderJson(kid))
    ensures HeaderKid(segment) == Some(kid)
       <==> exists m :: segment == Base64Url.Encode(Mark(m, CanonicalOf(HeaderJson(kid))))
  {
    HeaderInSubset(kid);
    var v := HeaderJson(kid);
    CanonicalNonempty(v);
    HeaderOfExactly(v, kid);
    forall m | segment == Base64Url.Encode(Mark(m, CanonicalOf(v))) ensures HeaderKid(segment) == Some(kid) {
      Base64Url.DecodeEncode(Mark(m, CanonicalOf(v)));
      ParseCanonicalExactly(Mark(m, CanonicalOf(v)), v);
    }
    if HeaderKid(segment) == Some(kid) {
      Base64Url.DecodeExactly(segment);
      var bytes := Base64Url.Decode(segment).value;
      var w := ParseCanonical(bytes).value;
      HeaderOfExactly(w, kid);
      ParseCanonicalExactly(bytes, v);
      if bytes == CanonicalOf(v) {
        assert segment == Base64Url.Encode(Mark(false, CanonicalOf(v)));
      } else {
        assert segment == Base64Url.Encode(Mark(true, CanonicalOf(v)));
      }
    }
  }

  lemma PayloadJobExactly(p: Primitives, payload: seq<Byte>, j: ManagementJob)
    ensures SchemaValid(p, j) ==> InSubset(JobJson(j))
    ensures PayloadJob(p, payload) == Some(j)
       <==> SchemaValid(p, j) && exists m :: payload == Mark(m, CanonicalOf(JobJson(j)))
  {
    if SchemaValid(p, j) {
      JobInSubset(p, j);
      var v := JobJson(j);
      JobOfExactly(p, v, j);
      ParseCanonicalExactly(payload, v);
      forall m | payload == Mark(m, CanonicalOf(v)) ensures PayloadJob(p, payload) == Some(j) {}
    }
    if PayloadJob(p, payload) == Some(j) {
      var v := ParseCanonical(payload).value;
      JobOfExactly(p, v, j);
      ParseCanonicalExactly(payload, v);
      if payload == CanonicalOf(v) {
        assert payload == Mark(false, CanonicalOf(JobJson(j)));
      } else {
        assert payload == Mark(true, CanonicalOf(JobJson(j)));
      }
    }
  }

  lemma DecodedOfSegments(c: string, h: string, body: string, s: string)
    requires SplitDots(c) == [h, body, s]
    ensures DecodeCompact(c)
         == Some(Decoded(HeaderKid(h), Base64Url.Decode(body), Base64Url.Decode(s), h + "." + body))
  {}

  lemma SegmentsOfDecoded(c: string) returns (h: string, body: string, s: string)
    requires DecodeCompact(c).Some?
    ensures SplitDots(c) == [h, body, s]
  {
    var segments := SplitDots(c);
    h, body, s := segments[0], segments[1], segments[2];
    assert segments == [h, body, s];
  }

  lemma DecodedAccepts(p: Primitives, d: Decoded, t: JobTrust)
    requires TrustValid(t) && d.kid == Some(t.kid) && d.payload.Some? && d.signature.Some?
    requires |d.signature.value| == 64 && p.verifies(t.publicKey, d.input, d.signature.value)
    ensures DecodedRefusal(p, d, t).None?
  {}

  lemma AcceptedDecoded(p: Primitives, d: Decoded, t: JobTrust)
    requires DecodedRefusal(p, d, t).None?
    ensures d.kid == Some(t.kid) && TrustValid(t) && d.payload.Some? && d.signature.Some?
    ensures p.verifies(t.publicKey, d.input, d.signature.value)
  {}

  lemma JoinThree(c: string, h: string, body: string, s: string)
    requires SplitDots(c) == [h, body, s]
    ensures c == h + "." + body + "." + s
  {
    JoinOfSplit(c);
    var r := [h, body, s];
    assert r[1..] == [body, s] && r[1..][1..] == [s];
    assert JoinDots([body, s]) == body + "." + s;
  }

  /** Past the signature, verification is the checks of the job in the payload. */
  lemma VerifyOfDecoded(p: Primitives, c: string, d: Decoded, t: JobTrust, j: ManagementJob, b: JobBinding, now: int)
    requires |c| <= MAX_JOB_BYTES && Timestamp(now) && DecodeCompact(c) == Some(d) && DecodedRefusal(p, d, t).None?
    requires d.payload.Some? && PayloadJob(p, d.payload.value) == Some(j)
    ensures Verify(p, c, t, b, now)
         == match Refusal(j, b, now)
            case Some(error) => Err(error)
            case None => Ok(VerifiedJob(j, p.sha256(d.payload.value), now))
  {}

  lemma DecodedOfCompact(p: Primitives, t: JobTrust, hm: bool, pm: bool, j: ManagementJob)
    requires SignsSoundly(p) && ValidId(t.kid) && SchemaValid(p, j)
    ensures InSubset(JobJson(j))
    ensures DecodeCompact(Compact(p, t, hm, pm, j))
         == var input := SigningInput(p, t, hm, pm, j);
            Some(Decoded(Some(t.kid), Some(Mark(pm, CanonicalOf(JobJson(j)))), Some(p.sign(t.publicKey, input)), input))
  {
    CompactSegments(p, t, hm, pm, j);
    var payload := Mark(pm, CanonicalOf(JobJson(j)));
    var h := Base64Url.Encode(Mark(hm, CanonicalOf(HeaderJson(t.kid))));
    var body := Base64Url.Encode(payload);
    var signature := p.sign(t.publicKey, h + "." + body);
    CanonicalNonempty(JobJson(j));
    HeaderKidExactly(h, t.kid);
    Base64Url.DecodeEncode(payload);
    Base64Url.DecodeEncode(signature);
    DecodedOfSegments(Compact(p, t, hm, pm, j), h, body, Base64Url.Encode(signature));
  }

  /** Verifying any framing of a valid job under its own key reaches the lifetime and binding checks. */
  lemma VerifyOfCompact(p: Primitives, t: JobTrust, hm: bool, pm: bool, j: ManagementJob, b: JobBinding, now: int)
    requires SignsSoundly(p) && TrustValid(t) && SchemaValid(p, j) && Timestamp(now)
    requires |Compact(p, t, hm, pm, j)| <= MAX_JOB_BYTES
    ensures InSubset(JobJson(j))
    ensures Verify(p, Compact(p, t, hm, pm, j), t, b, now)
         == match Refusal(j, b, now)
            case Some(error) => Err(error)
            case None => Ok(VerifiedJob(j, p.sha256(Mark(pm, CanonicalOf(JobJson(j)))), now))
  {
    DecodedOfCompact(p, t, hm, pm, j);
    var c := Compact(p, t, hm, pm, j);
    var d := DecodeCompact(c).value;
    DecodedAccepts(p, d, t);
    PayloadJobExactly(p, d.payload.value, j);
    VerifyOfDecoded(p, c, d, t, j, b, now);
  }

  /** What a verified job tells about the text it came from: it is one of the four framings of that job. */
  lemma CompactOfVerified(p: Primitives, c: string, t: JobTrust, b: JobBinding, now: int)
      returns (hm: bool, pm: bool)
    requires Unforgeable(p) && Verify(p, c, t, b, now).Ok?
    ensures var v := Verify(p, c, t, b, now).value;
            && TrustValid(t) && SchemaValid(p, v.job) && InSubset(JobJson(v.job)) && Refusal(v.job, b, now).None?
            && Timestamp(now) && |c| <= MAX_JOB_BYTES
            && c == Compact(p, t, hm, pm, v.job)
            && v == VerifiedJob(v.job, p.sha256(Mark(pm, CanonicalOf(JobJson(v.job)))), now)
  {
    var v := Verify(p, c, t, b, now).value;
    var h, body, s := SegmentsOfDecoded(c);
    JoinThree(c, h, body, s);
    DecodedOfSegments(c, h, body, s);
    AcceptedDecoded(p, DecodeCompact(c).value, t);
    Base64Url.DecodeExactly(body);
    Base64Url.DecodeExactly(s);
    var payload, signature := Base64Url.Decode(body).value, Base64Url.Decode(s).value;
    HeaderKidExactly(h, t.kid);
    hm :| h == Base64Url.Encode(Mark(hm, CanonicalOf(HeaderJson(t.kid))));
    PayloadJobExactly(p, payload, v.job);
    pm :| payload == Mark(pm, CanonicalOf(JobJson(v.job)));
    CompactSegments(p, t, hm, pm, v.job);
    assert signature == p.sign(t.publicKey, h + "." + body);
  }

  /** The text is header, payload and signature: the canonical bytes of both, each possibly marked, signed by the key. */
  ghost predicate Frames(p: Primitives, c: string, t: JobTrust, hm: bool, pm: bool, j: ManagementJob)
    requires InSubset(HeaderJson(t.kid)) && InSubset(JobJson(j))
  {
    var header := Base64Url.Encode(Mark(hm, CanonicalOf(HeaderJson(t.kid))));
    var payload := Base64Url.Encode(Mark(pm, CanonicalOf(JobJson(j))));
    c == header + "." + payload + "." + Base64Url.Encode(p.sign(t.publicKey, header + "." + payload))
  }

  /** Some framing of the job under the key is this text, and `digest` is the hash of its payload. */
  ghost predicate FramesJob(p: Primitives, c: string, t: JobTrust, j: ManagementJob, digest: string)
    requires InSubset(HeaderJson(t.kid)) && InSubset(JobJson(j))
  {
    exists hm, pm {:trigger Frames(p, c, t, hm, pm, j)} ::
      Frames(p, c, t, hm, pm, j) && digest == p.sha256(Mark(pm, CanonicalOf(JobJson(j))))
  }

  lemma FramesCompact(p: Primitives, c: string, t: JobTrust, hm: bool, pm: bool, j: ManagementJob)
    requires ValidId(t.kid) && SchemaValid(p, j)
    ensures InSubset(HeaderJson(t.kid)) && InSubset(JobJson(j))
    ensures Frames(p, c, t, hm, pm, j) <==> c == Compact(p, t, hm, pm, j)
  {
    CompactSegments(p, t, hm, pm, j);
  }

  /** What the checks after the signature ask of a job, a binding and a clock. */
  predicate Passes(j: ManagementJob, b: JobBinding, now: int) {
    && j.approvedBy.approvedAt <= j.iat <= j.approvedBy.approvedAt + 300 && j.iat < j.exp <= j.iat + 300
    && b == JobBinding(j.iss, j.identityIssuer, j.tenantId, j.organizationId, j.subject, j.deviceId, j.deviceVersion, j.keyJkt)
    && j.iat - 5 <= now < j.exp
  }

  lemma PassesExactly(j: ManagementJob, b: JobBinding, now: int)
    ensures Refusal(j, b, now) == None <==> Passes(j, b, now)
  {
    RefusalExactly(j, b, now);
  }

  /** The key id is valid and the public key is the text of 32 bytes. */
  ghost predicate Trusted(t: JobTrust) {
    ValidId(t.kid) && exists key: seq<Byte> :: |key| == 32 && Base64Url.Encode(key) == t.publicKey
  }

  lemma TrustExactly(t: JobTrust)
    ensures TrustValid(t) <==> Trusted(t)
  {
    Base64Url.KeyTexts(t.publicKey);
    if Trusted(t) { var key: seq<Byte> :| |key| == 32 && Base64Url.Encode(key) == t.publicKey; }
  }

  /** Everything that makes a text acceptable, with nothing of how it is checked. */
  ghost predicate Acceptable(p: Primitives, c: string, t: JobTrust, b: JobBinding, now: int, v: VerifiedJob) {
    && Trusted(t) && SchemaValid(p, v.job) && Passes(v.job, b, now) && 0 <= now <= MAX_SAFE && v.verifiedAt == now && |c| <= 16384
    && InSubset(HeaderJson(t.kid)) && InSubset(JobJson(v.job)) && FramesJob(p, c, t, v.job, v.digest)
  }

  lemma VerifiedIsAcceptable(p: Primitives, c: string, t: JobTrust, b: JobBinding, now: int, v: VerifiedJob)
    requires Unforgeable(p) && Verify(p, c, t, b, now) == Ok(v)
    ensures Acceptable(p, c, t, b, now, v)
  {
    var hm, pm := CompactOfVerified(p, c, t, b, now);
    TrustExactly(t);
    PassesExactly(v.job, b, now);
    FramesCompact(p, c, t, hm, pm, v.job);
    assert Frames(p, c, t, hm, pm, v.job);
  }

  lemma AcceptableIsVerified(p: Primitives, c: string, t: JobTrust, b: JobBinding, now: int, v: VerifiedJob)
    requires SignsSoundly(p) && Acceptable(p, c, t, b, now, v)
    ensures Verify(p, c, t, b, now) == Ok(v)
  {
    var hm, pm :| Frames(p, c, t, hm, pm, v.job) && v.digest == p.sha256(Mark(pm, CanonicalOf(JobJson(v.job))));
    TrustExactly(t);
    PassesExactly(v.job, b, now);
    FramesCompact(p, c, t, hm, pm, v.job);
    VerifyOfCompact(p, t, hm, pm, v.job, b, now);
  }

  /**
   Verification accepts a text exactly when it frames, signed by the trusted key of 32 bytes, a schema-valid job that was
   approved at most 300 s before its issue and lives at most 300 s, for this very binding, from 5 s before its issue until
   it expires; the header and the payload may each carry one byte order mark.
   */
  lemma VerifyExactly(p: Primitives, c: string, t: JobTrust, b: JobBinding, now: int, v: VerifiedJob)
    requires SignsSoundly(p) && Unforgeable(p)
    ensures Verify(p, c, t, b, now) == Ok(v) <==> Acceptable(p, c, t, b, now, v)
  {
    if Verify(p, c, t, b, now) == Ok(v) { VerifiedIsAcceptable(p, c, t, b, now, v); }
    if Acceptable(p, c, t, b, now, v) { AcceptableIsVerified(p, c, t, b, now, v); }
  }
}
