/** Signing a result, verifying what was signed, and the committer's entry: from
    the supervisor's canonical payload to the stored projection. SHA-256, HMAC,
    UTF-8 and the JSON reader are parameters; a statement says what it needs of
    them. */
module ResultEnvelope {
  import opened Basics
  import opened Binary
  import opened Encodings
  import opened GuestOutput
  import opened GuestProjection
  import opened JsonKeys
  import opened CanonicalText
  import opened OutputReader
  import opened ScanProtocol
  import opened Tables
  import opened Transactions
  import opened Invariant
  import opened CommitProofs

  const MAX_LIFETIME_SECONDS := 300
  const MAX_CLOCK_SKEW_SECONDS := 30
  const MAX_ENVELOPE_BYTES := 33_554_432
  const MAC_BYTES := 32
  const MIN_KEY_LENGTH := 32
  const MAX_KEY_LENGTH := 64

  /** What the platform supplies. `decode` is strict UTF-8 without a byte order
      mark, `parse` the JSON parser. */
  datatype Platform = Platform(
    sha: Bytes -> Digest,
    hmac: (Bytes, Bytes) -> Bytes,
    decode: Bytes -> Option<Text>,
    encode: Text -> Bytes,
    parse: Text -> Option<Json>,
    scalars: Reads,
    canonicalHost: Host -> bool)

  /** Digests and MACs have their formats, canonical hosts are plain text, numbers and
      plain strings mean what they should, and what was encoded for a valid output is
      decoded to its text, which is parsed to what its syntax tree means. */
  ghost predicate PlatformOk(lib: Platform) {
    && (forall b :: ValidDigest(lib.sha(b)))
    && (forall k, m :: |lib.hmac(k, m)| == MAC_BYTES)
    && (forall h | lib.canonicalHost(h) :: PlainText(h))
    && ReadsOk(lib.scalars)
    && (forall o | OutputOk(o, lib.canonicalHost) :: TextComesBack(lib, Canonical(o)))
  }

  ghost predicate TextComesBack(lib: Platform, o: ScannerOutput) {
    && lib.decode(Stringify(lib, o)) == Some(Written(o))
    && (ValueOk(OutputTree(o).value) ==> lib.parse(Written(o)) == Some(Meaning(OutputTree(o).value)))
  }

  /** The canonical object as JSON text. */
  function Written(o: ScannerOutput): Text {
    ElementText(OutputTree(o))
  }

  function Stringify(lib: Platform, o: ScannerOutput): Bytes {
    lib.encode(Written(o))
  }

  /** Bytes are read only when no object repeats a key, and then as the exact records
      that an output consists of. */
  function Parse(lib: Platform, raw: Bytes): Option<ScannerOutput> {
    match lib.decode(raw)
    case None => None
    case Some(text) =>
      if !JsonKeys.Scan(text, [], OUTPUT_DEPTH) then None
      else
        match lib.parse(text)
        case None => None
        case Some(json) => ReadOutput(lib.scalars, json)
  }

  /** Every written canonical output passes the scan and is read back as it was. */
  lemma ParsedBack(lib: Platform, o: ScannerOutput)
    requires PlatformOk(lib) && OutputOk(o, lib.canonicalHost)
    ensures Parse(lib, Stringify(lib, Canonical(o))) == Some(Canonical(o))
  {
    hide JsonKeys.Scan, Canonical, OutputTree, ElementText, PlainText, FindingsOk, WarningsOk, ObservationsOk, CoverageOk,
         ValidDigest, ReadOutput, Meaning, ReadsOk, Redact, RedactAll;
    CanonicalFixpoint(o, lib.canonicalHost);
    CanonicalTextIsScanned(Canonical(o));
    CanonicalIsRedacted(o);
    OutputRead(lib.scalars, Canonical(o), lib.canonicalHost);
  }

  lemma CanonicalIsRedacted(o: ScannerOutput)
    ensures var v := Canonical(o).findings; forall i | 0 <= i < |v| :: v[i] == Redact(v[i])
  {
    hide Redact;
    RedactedAll(o.findings);
  }

  // ---- the canonical result -----------------------------------------------

  datatype Produced =
    | CanonicalResult(digest: Digest, size: int, projection: Projection, payload: Bytes)
    | InvalidOutputLimit
    | OutputOverLimit
    | InvalidScannerOutput

  function Produce(lib: Platform, raw: Bytes, max: int): Produced {
    if !(1 <= max <= MAX_OUTPUT_BYTES) then InvalidOutputLimit
    else if |raw| > max then OutputOverLimit
    else
      match Parse(lib, raw)
      case None => InvalidScannerOutput
      case Some(o) =>
        if !OutputOk(o, lib.canonicalHost) then InvalidScannerOutput
        else
          var payload := Stringify(lib, Canonical(o));
          if |payload| > max then OutputOverLimit
          else CanonicalResult(lib.sha(payload), |payload|, Projected(o), payload)
  }

  /** What was produced is produced again from its own payload: same bytes, same
      digest, same size, same projection, under any limit it fits. */
  lemma ProduceFixpoint(lib: Platform, raw: Bytes, max: int, max': int)
    requires PlatformOk(lib) && Produce(lib, raw, max).CanonicalResult?
    requires Produce(lib, raw, max).size <= max' <= MAX_OUTPUT_BYTES && 1 <= max'
    ensures Produce(lib, Produce(lib, raw, max).payload, max') == Produce(lib, raw, max)
  {
    hide Canonical, OutputOk, Projected, Parse, Stringify;
    CanonicalFixpoint(Parse(lib, raw).value, lib.canonicalHost);
    ParsedBack(lib, Parse(lib, raw).value);
  }

  /** Texts whose outputs have the same entries produce the same payload. */
  lemma ProduceNormalizes(lib: Platform, raw: Bytes, raw': Bytes, max: int)
    requires Produce(lib, raw, max).CanonicalResult? && Produce(lib, raw', max).CanonicalResult?
    requires SameEntries(Parse(lib, raw).value, Parse(lib, raw').value)
    ensures Produce(lib, raw', max) == Produce(lib, raw, max)
  {
    hide Canonical, OutputOk, Projected, SameEntries;
    OrderAndEvidenceIrrelevant(Parse(lib, raw).value, Parse(lib, raw').value, lib.canonicalHost);
  }

  /** What is produced, exactly when, and what it says of the output it was read from. */
  lemma ProduceAnswers(lib: Platform, raw: Bytes, max: int)
    ensures var r := Produce(lib, raw, max);
            && (r == InvalidOutputLimit <==> !(1 <= max <= 2_097_152))
            && (1 <= max <= 2_097_152 ==>
                  && (r == InvalidScannerOutput <==>
                        |raw| <= max && !(Parse(lib, raw).Some? && OutputOk(Parse(lib, raw).value, lib.canonicalHost)))
                  && (r.CanonicalResult? ==> |raw| <= max && r.size == |r.payload| <= max && r.digest == lib.sha(r.payload))
                  && (r == OutputOverLimit <==>
                        || |raw| > max
                        || (&& Parse(lib, raw).Some? && OutputOk(Parse(lib, raw).value, lib.canonicalHost)
                            && |lib.encode(Written(Canonical(Parse(lib, raw).value)))| > max)))
            && (r.CanonicalResult? ==>
                  && Parse(lib, raw).Some?
                  && r.payload == lib.encode(Written(Canonical(Parse(lib, raw).value)))
                  && IsCanonicalOf(Canonical(Parse(lib, raw).value), Parse(lib, raw).value)
                  && IsProjectionOf(r.projection, Parse(lib, raw).value))
  {
    hide Canonical, OutputOk, Projected, Parse, Written, IsCanonicalOf, IsProjectionOf;
    if Parse(lib, raw).Some? && OutputOk(Parse(lib, raw).value, lib.canonicalHost) {
      CanonicalMeans(Parse(lib, raw).value, lib.canonicalHost);
      ProjectionMeans(Parse(lib, raw).value, lib.canonicalHost);
    }
  }

  // ---- signing ------------------------------------------------------------

  datatype SigningInput = SigningInput(jobId: Id, attemptId: Id, fence: int, payload: Bytes)

  datatype SigningContext = SigningContext(
    now: int,
    lifetime: int,
    workload: string,
    audience: string,
    maxPayload: int,
    keyVersion: int,
    key: Bytes)

  /** An envelope with its authentication; `schema` is the header's version and
      `mac` the base64url text. */
  datatype Submission = Submission(schema: int, header: Header, payload: Bytes, keyVersion: int, mac: string)

  datatype SignResult = SignedResult(submission: Submission) | InvalidResultInput | InvalidSigningContext | PayloadOverLimit

  predicate ValidInput(i: SigningInput) {
    ValidId(i.jobId) && ValidId(i.attemptId) && PositiveSafe(i.fence)
  }

  predicate ValidSigningContext(c: SigningContext) {
    && PositiveSafe(c.now) && 0 < c.lifetime <= MAX_LIFETIME_SECONDS && c.now <= MAX_SAFE - c.lifetime
    && ValidPrincipal(c.workload) && ValidPrincipal(c.audience)
    && 0 < c.maxPayload <= MAX_ENVELOPE_BYTES
    && U32(c.keyVersion)
    && MIN_KEY_LENGTH <= |c.key| <= MAX_KEY_LENGTH
  }

  function HeaderFor(lib: Platform, i: SigningInput, c: SigningContext): Header {
    Header(i.jobId, i.attemptId, i.fence, c.workload, c.audience, c.now, c.now + c.lifetime, lib.sha(i.payload), |i.payload|)
  }

  function Sign(lib: Platform, i: SigningInput, c: SigningContext): SignResult
    requires ValidDigest(lib.sha(i.payload))
  {
    if !ValidInput(i) then InvalidResultInput
    else if !ValidSigningContext(c) then InvalidSigningContext
    else if |i.payload| > c.maxPayload then PayloadOverLimit
    else
      var header := HeaderFor(lib, i, c);
      SignedResult(Submission(SCHEMA_VERSION, header, i.payload, c.keyVersion,
                              EncodeBase64Url(lib.hmac(c.key, EnvelopeMessage(header, c.keyVersion)))))
  }

  /** When a result is signed, why it is not, and every field of the envelope. */
  lemma SignAnswers(lib: Platform, i: SigningInput, c: SigningContext)
    requires PlatformOk(lib)
    ensures var r := Sign(lib, i, c);
            && (r == InvalidResultInput <==> !(ValidId(i.jobId) && ValidId(i.attemptId) && 1 <= i.fence <= MAX_SAFE))
            && (r == InvalidSigningContext <==> ValidInput(i) && !ValidSigningContext(c))
            && (r == PayloadOverLimit <==> ValidInput(i) && ValidSigningContext(c) && |i.payload| > c.maxPayload)
            && (ValidSigningContext(c) ==>
                  1 <= c.lifetime <= 300 && 1 <= c.now && 1 <= c.maxPayload <= 33_554_432 && 32 <= |c.key| <= 64)
            && (r.SignedResult? ==>
                  var s := r.submission;
                  && s.schema == 1 && s.keyVersion == c.keyVersion && s.payload == i.payload
                  && s.header.jobId == i.jobId && s.header.attemptId == i.attemptId && s.header.fence == i.fence
                  && s.header.workload == c.workload && s.header.audience == c.audience
                  && s.header.issuedAt == c.now && s.header.expiresAt == c.now + c.lifetime
                  && s.header.digest == lib.sha(i.payload) && s.header.size == |i.payload| <= c.maxPayload
                  && ValidHeader(s.header) && U32(s.keyVersion)
                  && s.mac == EncodeBase64Url(lib.hmac(c.key, EnvelopeMessage(s.header, s.keyVersion))))
  {
    hide EncodeBase64Url, EnvelopeMessage, ValidId, ValidPrincipal;
  }

  // ---- verifying ----------------------------------------------------------

  datatype VerificationContext = VerificationContext(
    now: int,
    workload: string,
    audience: string,
    maxPayload: int,
    keyring: map<int, Bytes>)

  datatype VerifyResult =
    | Verified(header: Header, payload: Bytes)
    | InvalidVerificationContext
    | InvalidResultEnvelope
    | ResultPayloadTooLarge
    | AuthenticationFailed
    | PayloadMismatch

  predicate ValidVerificationContext(c: VerificationContext) {
    PositiveSafe(c.now) && ValidPrincipal(c.workload) && ValidPrincipal(c.audience) && 0 < c.maxPayload <= MAX_ENVELOPE_BYTES
  }

  /** The envelope is for this receiver and current. */
  predicate Admissible(h: Header, c: VerificationContext) {
    && h.workload == c.workload
    && h.audience == c.audience
    && h.issuedAt < h.expiresAt
    && h.expiresAt - h.issuedAt <= MAX_LIFETIME_SECONDS
    && h.issuedAt <= c.now + MAX_CLOCK_SKEW_SECONDS
    && c.now < h.expiresAt
  }

  function Verify(lib: Platform, s: Submission, c: VerificationContext): VerifyResult {
    if !ValidVerificationContext(c) then InvalidVerificationContext
    else if s.schema != SCHEMA_VERSION || !ValidHeader(s.header) || !U32(s.keyVersion) || |s.mac| != 43 then
      InvalidResultEnvelope
    else if s.header.size > c.maxPayload || |s.payload| > c.maxPayload then ResultPayloadTooLarge
    else if !Admissible(s.header, c) then AuthenticationFailed
    else
      var supplied := DecodeCanonicalBase64Url(s.mac);
      if supplied.None? || |supplied.value| != MAC_BYTES
         || s.keyVersion !in c.keyring || |c.keyring[s.keyVersion]| < MIN_KEY_LENGTH
      then AuthenticationFailed
      else if supplied.value != lib.hmac(c.keyring[s.keyVersion], EnvelopeMessage(s.header, s.keyVersion))
      then AuthenticationFailed
      else if |s.payload| != s.header.size || lib.sha(s.payload) != s.header.digest then PayloadMismatch
      else Verified(s.header, s.payload)
  }

  /** What verification establishes: the header was authenticated under the named
      key, is meant for this receiver now, and describes this payload. */
  lemma VerifyMeans(lib: Platform, s: Submission, c: VerificationContext)
    requires PlatformOk(lib) && ValidVerificationContext(c)
    ensures Verify(lib, s, c) == Verified(s.header, s.payload) <==>
              && s.schema == SCHEMA_VERSION && ValidHeader(s.header) && U32(s.keyVersion)
              && Admissible(s.header, c)
              && s.keyVersion in c.keyring && |c.keyring[s.keyVersion]| >= MIN_KEY_LENGTH
              && s.mac == EncodeBase64Url(lib.hmac(c.keyring[s.keyVersion], EnvelopeMessage(s.header, s.keyVersion)))
              && |s.payload| == s.header.size <= c.maxPayload
              && lib.sha(s.payload) == s.header.digest
  {
    hide ValidHeader, Admissible, EnvelopeMessage, EncodeBase64Url, DecodeCanonicalBase64Url;
    if ValidHeader(s.header) && U32(s.keyVersion) && s.keyVersion in c.keyring {
      var mac := lib.hmac(c.keyring[s.keyVersion], EnvelopeMessage(s.header, s.keyVersion));
      CanonicalBase64Url(s.mac, mac);
      EncodedLength(mac);
      if DecodeCanonicalBase64Url(s.mac).Some? {
        CanonicalBase64Url(s.mac, DecodeCanonicalBase64Url(s.mac).value);
      }
    }
  }

  /** The MAC is the text that the named key gives for this header. */
  ghost predicate MacMatches(lib: Platform, s: Submission, c: VerificationContext)
    requires ValidHeader(s.header) && U32(s.keyVersion)
  {
    && s.keyVersion in c.keyring && |c.keyring[s.keyVersion]| >= 32
    && s.mac == EncodeBase64Url(lib.hmac(c.keyring[s.keyVersion], EnvelopeMessage(s.header, s.keyVersion)))
  }

  /** Every refusal of verification, in the order in which the reasons are tried. */
  lemma VerifyAnswers(lib: Platform, s: Submission, c: VerificationContext)
    requires PlatformOk(lib)
    ensures var r := Verify(lib, s, c);
            && (r == InvalidVerificationContext <==> !ValidVerificationContext(c))
            && (ValidVerificationContext(c) ==>
                  && (r == InvalidResultEnvelope <==>
                        !(s.schema == 1 && ValidHeader(s.header) && U32(s.keyVersion) && |s.mac| == 43))
                  && (s.schema == 1 && ValidHeader(s.header) && U32(s.keyVersion) && |s.mac| == 43 ==>
                        var tooLarge := s.header.size > c.maxPayload || |s.payload| > c.maxPayload;
                        var current := && s.header.workload == c.workload && s.header.audience == c.audience
                                       && s.header.issuedAt < s.header.expiresAt <= s.header.issuedAt + 300
                                       && s.header.issuedAt - 30 <= c.now < s.header.expiresAt;
                        var matches := |s.payload| == s.header.size && lib.sha(s.payload) == s.header.digest;
                        && (r == ResultPayloadTooLarge <==> tooLarge)
                        && (r == AuthenticationFailed <==> !tooLarge && !(current && MacMatches(lib, s, c)))
                        && (r == PayloadMismatch <==> !tooLarge && current && MacMatches(lib, s, c) && !matches)
                        && (r.Verified? <==> !tooLarge && current && MacMatches(lib, s, c) && matches)))
            && (r.Verified? ==> r == Verified(s.header, s.payload))
  {
    hide ValidHeader, EnvelopeMessage, EncodeBase64Url, DecodeCanonicalBase64Url;
    if ValidHeader(s.header) && U32(s.keyVersion) && s.keyVersion in c.keyring {
      var mac := lib.hmac(c.keyring[s.keyVersion], EnvelopeMessage(s.header, s.keyVersion));
      CanonicalBase64Url(s.mac, mac);
      if DecodeCanonicalBase64Url(s.mac).Some? {
        CanonicalBase64Url(s.mac, DecodeCanonicalBase64Url(s.mac).value);
      }
    }
  }

  /** Every signed result verifies, for a receiver with the same key, names and a
      sufficient limit, from thirty seconds before it was issued until it expires,
      and at no other time. */
  lemma SignedVerifies(lib: Platform, i: SigningInput, sc: SigningContext, vc: VerificationContext)
    requires PlatformOk(lib) && Sign(lib, i, sc).SignedResult? && ValidVerificationContext(vc)
    requires vc.workload == sc.workload && vc.audience == sc.audience && vc.maxPayload >= |i.payload|
    requires sc.keyVersion in vc.keyring && vc.keyring[sc.keyVersion] == sc.key
    ensures var s := Sign(lib, i, sc).submission;
            Verify(lib, s, vc) == Verified(HeaderFor(lib, i, sc), i.payload)
            <==> sc.now - MAX_CLOCK_SKEW_SECONDS <= vc.now < sc.now + sc.lifetime
  {
    var s := Sign(lib, i, sc).submission;
    VerifyMeans(lib, s, vc);
    assert ValidHeader(s.header);
    hide Verify, EnvelopeMessage, EncodeBase64Url, ValidHeader;
  }

  /** Two accepted submissions with the same MAC and key version are one and the
      same, or else two messages with one MAC under that key, or two payloads with
      one digest, have been found. */
  lemma MacBindsSubmission(lib: Platform, s: Submission, t: Submission, c: VerificationContext)
    requires PlatformOk(lib)
    requires Verify(lib, s, c).Verified? && Verify(lib, t, c).Verified?
    requires s.mac == t.mac && s.keyVersion == t.keyVersion
    ensures s.keyVersion in c.keyring
    ensures var key := c.keyring[s.keyVersion];
            var m, n := EnvelopeMessage(s.header, s.keyVersion), EnvelopeMessage(t.header, t.keyVersion);
            || s == t
            || (m != n && lib.hmac(key, m) == lib.hmac(key, n))
            || (s.payload != t.payload && lib.sha(s.payload) == lib.sha(t.payload))
  {
    hide ValidHeader, Admissible, EnvelopeMessage, EncodeBase64Url, PlatformOk;
    VerifyMeans(lib, s, c);
    VerifyMeans(lib, t, c);
    var key := c.keyring[s.keyVersion];
    var m, n := EnvelopeMessage(s.header, s.keyVersion), EnvelopeMessage(t.header, t.keyVersion);
    MacLengths(lib, key, m, n);
    MacText(lib.hmac(key, m), lib.hmac(key, n));
    if m == n {
      EnvelopeInjective(s.header, s.keyVersion, t.header, t.keyVersion);
    }
  }

  lemma MacLengths(lib: Platform, key: Bytes, m: Bytes, n: Bytes)
    requires PlatformOk(lib)
    ensures |lib.hmac(key, m)| == |lib.hmac(key, n)| == MAC_BYTES
  {
  }

  lemma MacText(a: Bytes, b: Bytes)
    requires |a| == |b| == MAC_BYTES && EncodeBase64Url(a) == EncodeBase64Url(b)
    ensures a == b
  {
    CanonicalBase64Url(EncodeBase64Url(a), a);
    CanonicalBase64Url(EncodeBase64Url(b), b);
  }

  // ---- committing a submission --------------------------------------------

  /** The committer: verify the envelope, canonicalise its payload again, compare
      with the signed digest and size, and only then open the transaction. */
  function CommitSubmission(
    lib: Platform, db: Db, s: Submission, c: VerificationContext, databaseNow: int): (Db, CommitResult)
  {
    match Verify(lib, s, c)
    case Verified(header, payload) =>
      (match Produce(lib, payload, c.maxPayload)
       case CanonicalResult(digest, size, projection, _) =>
         if digest != header.digest || size != header.size then (db, SubmissionRejected)
         else CommitStep(db, header.jobId, Identity(header.attemptId, header.fence, header.digest), projection, databaseNow)
       case _ => (db, SubmissionRejected))
    case _ => (db, SubmissionRejected)
  }

  /** What the committer checks before its transaction. */
  ghost predicate Passes(lib: Platform, s: Submission, c: VerificationContext) {
    && Verify(lib, s, c) == Verified(s.header, s.payload)
    && var r := Produce(lib, s.payload, c.maxPayload);
       r.CanonicalResult? && r.digest == s.header.digest && r.size == s.header.size
  }

  /** Exactly what was signed, is canonical and has the signed digest and size reaches
      the transaction, with the identity and the projection of the signed payload. */
  lemma RejectedOrCanonical(lib: Platform, db: Db, s: Submission, c: VerificationContext, databaseNow: int)
    requires PlatformOk(lib)
    ensures !Passes(lib, s, c) ==> CommitSubmission(lib, db, s, c, databaseNow) == (db, SubmissionRejected)
    ensures Passes(lib, s, c) ==>
              CommitSubmission(lib, db, s, c, databaseNow)
              == CommitStep(db, s.header.jobId, Identity(s.header.attemptId, s.header.fence, s.header.digest),
                            Produce(lib, s.payload, c.maxPayload).projection, databaseNow)
  {
    hide CommitStep, Produce, EnvelopeMessage, DecodeCanonicalBase64Url, Admissible, ValidHeader;
  }

  /** The supervisor produced `payload` from `raw` and signed it for a committer
      that shares the key and the names, allows its size, and looks at it within
      the envelope's life. */
  ghost predicate Delivered(
    lib: Platform, raw: Bytes, max: int, i: SigningInput, sc: SigningContext, vc: VerificationContext)
  {
    && PlatformOk(lib)
    && Produce(lib, raw, max).CanonicalResult?
    && i.payload == Produce(lib, raw, max).payload
    && Sign(lib, i, sc).SignedResult?
    && ValidVerificationContext(vc)
    && vc.workload == sc.workload && vc.audience == sc.audience
    && |i.payload| <= vc.maxPayload <= MAX_OUTPUT_BYTES
    && sc.keyVersion in vc.keyring && vc.keyring[sc.keyVersion] == sc.key
    && sc.now - MAX_CLOCK_SKEW_SECONDS <= vc.now < sc.now + sc.lifetime
  }

  /** The supervisor's result goes through: what it produced and signed is
      accepted by the committer's checks at any time within the envelope's life,
      and enters the transaction with the same digest and projection. */
  lemma PipelineAgrees(lib: Platform, raw: Bytes, max: int, i: SigningInput, sc: SigningContext, db: Db,
                       vc: VerificationContext, databaseNow: int)
    requires Delivered(lib, raw, max, i, sc, vc)
    ensures CommitSubmission(lib, db, Sign(lib, i, sc).submission, vc, databaseNow)
            == CommitStep(db, i.jobId, Identity(i.attemptId, i.fence, Produce(lib, raw, max).digest),
                          Produce(lib, raw, max).projection, databaseNow)
  {
    hide CommitStep, Verify, ValidSigningContext, ValidPrincipal, Canonical, OutputOk, Projected;
    SignedVerifies(lib, i, sc, vc);
    ProduceFixpoint(lib, raw, max, vc.maxPayload);
  }

  /** The parts of a delivery that the stored result is made of. */
  lemma DeliveredParts(lib: Platform, raw: Bytes, max: int, i: SigningInput, sc: SigningContext,
                       vc: VerificationContext)
    requires Delivered(lib, raw, max, i, sc, vc)
    ensures Parse(lib, raw).Some?
    ensures Produce(lib, raw, max).digest == lib.sha(i.payload)
    ensures Produce(lib, raw, max).projection == Projected(Parse(lib, raw).value)
    ensures ValidIdentity(Identity(i.attemptId, i.fence, lib.sha(i.payload)))
  {
    hide Canonical, OutputOk, Projected;
    SignedIdentity(lib, i, sc);
  }

  /** End to end: delivered while its attempt is the running one, within its
      lease and for its target, the result is stored with exactly the projection of
      the scanner's output. */
  lemma ResultIsStored(lib: Platform, raw: Bytes, max: int, i: SigningInput, sc: SigningContext, db: Db,
                       vc: VerificationContext, databaseNow: int)
    requires Inv(db) && i.jobId in db.groups && PositiveSafe(databaseNow)
    requires Delivered(lib, raw, max, i, sc, vc)
    requires Acceptable(db.groups[i.jobId], Identity(i.attemptId, i.fence, lib.sha(i.payload)), databaseNow)
    requires db.groups[i.jobId].scan.updated <= databaseNow
    requires db.groups[i.jobId].attempts[i.attemptId].updated <= databaseNow
    requires Parse(lib, raw).Some? ==> Parse(lib, raw).value.host == db.groups[i.jobId].scan.target
    ensures Parse(lib, raw).Some?
    ensures var (after, answer) := CommitSubmission(lib, db, Sign(lib, i, sc).submission, vc, databaseNow);
            && answer == Committed
            && i.jobId in after.groups
            && after.groups[i.jobId].result
               == Some(ResultRow(i.attemptId, i.fence, lib.sha(i.payload), databaseNow, Projected(Parse(lib, raw).value)))
            && IsProjectionOf(after.groups[i.jobId].result.value.projection, Parse(lib, raw).value)
  {
    hide Inv, CommitSubmission, Produce, Acceptable, CommitStep, Sign, ValidIdentity;
    DeliveredParts(lib, raw, max, i, sc, vc);
    PipelineAgrees(lib, raw, max, i, sc, db, vc, databaseNow);
    var submitted := Identity(i.attemptId, i.fence, lib.sha(i.payload));
    AcceptableIsCommitted(db, i.jobId, submitted, Projected(Parse(lib, raw).value), databaseNow);
    ProducedIsValid(lib, raw, max);
    ProjectionMeans(Parse(lib, raw).value, lib.canonicalHost);
  }

  lemma ProducedIsValid(lib: Platform, raw: Bytes, max: int)
    requires Produce(lib, raw, max).CanonicalResult?
    ensures Parse(lib, raw).Some? && OutputOk(Parse(lib, raw).value, lib.canonicalHost)
  {
    hide Canonical, OutputOk, Projected, Parse;
  }

  lemma SignedIdentity(lib: Platform, i: SigningInput, sc: SigningContext)
    requires PlatformOk(lib) && Sign(lib, i, sc).SignedResult?
    ensures ValidIdentity(Identity(i.attemptId, i.fence, lib.sha(i.payload)))
  {
  }

  lemma AcceptableIsCommitted(db: Db, id: Id, submitted: Identity, projection: Projection, now: int)
    requires Inv(db) && id in db.groups && PositiveSafe(now) && ValidIdentity(submitted)
    requires Acceptable(db.groups[id], submitted, now)
    requires db.groups[id].scan.updated <= now && db.groups[id].attempts[submitted.attempt].updated <= now
    requires projection.host == db.groups[id].scan.target
    ensures CommitStep(db, id, submitted, projection, now).1 == Committed
    ensures id in CommitStep(db, id, submitted, projection, now).0.groups
    ensures CommitStep(db, id, submitted, projection, now).0.groups[id].result
            == Some(ResultOf(submitted, projection, now))
  {
    hide Inv, ValidIdentity, ValidId, ValidDigest, StoreResult;
    LockedFacts(db, id, now);
    StoreEffect(db, id, submitted, projection, now);
  }
}
