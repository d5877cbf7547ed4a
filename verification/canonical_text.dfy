/** The canonical output as JSON text: the names on the wire, the order they are
    sorted in, and that the text always passes the duplicate-key scan. */
module CanonicalText {
  import opened Basics
  import opened GuestOutput
  import opened GuestProjection
  import opened Sorting
  import opened JsonKeys
  import opened AddressText

  // ---- names --------------------------------------------------------------

  function CheckName(c: Check): string {
    match c
    case DnsAaaaPresent => "DNS_AAAA_PRESENT"
    case DnsDnssec => "DNS_DNSSEC"
    case DnsCaa => "DNS_CAA"
    case MailSpf => "MAIL_SPF"
    case MailDmarc => "MAIL_DMARC"
    case MailMtaSts => "MAIL_MTA_STS"
    case MailTlsRpt => "MAIL_TLS_RPT"
    case TlsCertificate => "TLS_CERTIFICATE"
    case HttpHsts => "HTTP_HSTS"
    case HttpCsp => "HTTP_CSP"
    case HttpXContentTypeOptions => "HTTP_X_CONTENT_TYPE_OPTIONS"
    case HttpFrameProtection => "HTTP_FRAME_PROTECTION"
    case HttpReferrerPolicy => "HTTP_REFERRER_POLICY"
    case HttpPermissionsPolicy => "HTTP_PERMISSIONS_POLICY"
    case HttpProtocol => "HTTP_PROTOCOL"
    case InfraRpki => "INFRA_RPKI"
    case SecurityTxt => "SECURITY_TXT"
  }

  function GroupName(g: Group): string {
    match g
    case TargetResolution => "TARGET_RESOLUTION"
    case DnsDomainPosture => "DNS_DOMAIN_POSTURE"
    case TlsCertificatePosture => "TLS_CERTIFICATE_POSTURE"
    case HttpSecurityPosture => "HTTP_SECURITY_POSTURE"
    case MailSecurityPosture => "MAIL_SECURITY_POSTURE"
    case PublicInfrastructure => "PUBLIC_INFRASTRUCTURE"
    case RdapEnrichment => "RDAP_ENRICHMENT"
    case CtEnrichment => "CT_ENRICHMENT"
  }

  function SeverityName(s: Severity): string {
    match s
    case Info => "INFO"
    case Low => "LOW"
    case Medium => "MEDIUM"
    case High => "HIGH"
    case Critical => "CRITICAL"
  }

  function OutcomeName(o: Outcome): string {
    match o
    case Pass => "PASS"
    case Attention => "ATTENTION"
    case OutcomeUnknown => "UNKNOWN"
    case OutcomeNotApplicable => "NOT_APPLICABLE"
  }

  function ExecutionName(e: Execution): string {
    match e
    case ExecSuccess => "SUCCESS"
    case ExecFailed => "FAILED"
    case ExecTimedOut => "TIMED_OUT"
    case ExecCancelled => "CANCELLED"
    case ExecSuperseded => "SUPERSEDED"
  }

  function CompletenessName(c: Completeness): string {
    match c
    case Complete => "COMPLETE"
    case Partial => "PARTIAL"
    case NotApplicable => "NOT_APPLICABLE"
    case Unknown => "UNKNOWN"
  }

  // ---- the ranks are the order of the names --------------------------------

  predicate StrictlyBefore(a: string, b: string) {
    LeqText(a, b) && !LeqText(b, a)
  }

  lemma {:induction false} FirstDifference(a: string, b: string, k: nat)
    requires k < |a| && k < |b| && a[..k] == b[..k] && a[k] < b[k]
    ensures StrictlyBefore(a, b)
  {
    if k > 0 {
      assert a[0] == a[..k][0] == b[..k][0] == b[0];
      assert a[1..][..k - 1] == a[..k][1..] && b[1..][..k - 1] == b[..k][1..];
      FirstDifference(a[1..], b[1..], k - 1);
    }
  }

  /** The k-th name in order. */
  const CHECKS_IN_ORDER: seq<Check> := [
    DnsAaaaPresent, DnsCaa, DnsDnssec, HttpCsp, HttpFrameProtection, HttpHsts, HttpPermissionsPolicy, HttpProtocol,
    HttpReferrerPolicy, HttpXContentTypeOptions, InfraRpki, MailDmarc, MailMtaSts, MailSpf, MailTlsRpt, SecurityTxt,
    TlsCertificate]

  const GROUPS_IN_ORDER: seq<Group> := [
    CtEnrichment, DnsDomainPosture, HttpSecurityPosture, MailSecurityPosture, PublicInfrastructure, RdapEnrichment,
    TargetResolution, TlsCertificatePosture]

  /** Where two neighbouring names first differ. */
  const CHECK_DIFFERENCES: seq<nat> := [4, 4, 0, 5, 5, 5, 6, 5, 5, 0, 0, 5, 5, 5, 0, 0]

  lemma FirstNeighbours(i: nat)
    requires i < 6
    ensures StrictlyBefore(CheckName(CHECKS_IN_ORDER[i]), CheckName(CHECKS_IN_ORDER[i + 1]))
  {
    hide StrictlyBefore;
    FirstDifference(CheckName(CHECKS_IN_ORDER[i]), CheckName(CHECKS_IN_ORDER[i + 1]), CHECK_DIFFERENCES[i]);
  }

  lemma LastNeighbours(i: nat)
    requires 6 <= i < 16
    ensures StrictlyBefore(CheckName(CHECKS_IN_ORDER[i]), CheckName(CHECKS_IN_ORDER[i + 1]))
  {
    hide StrictlyBefore;
    FirstDifference(CheckName(CHECKS_IN_ORDER[i]), CheckName(CHECKS_IN_ORDER[i + 1]), CHECK_DIFFERENCES[i]);
  }

  lemma NeighbourChecks(i: nat)
    requires i < 16
    ensures StrictlyBefore(CheckName(CHECKS_IN_ORDER[i]), CheckName(CHECKS_IN_ORDER[i + 1]))
  {
    hide StrictlyBefore, CheckName;
    if i < 6 {
      FirstNeighbours(i);
    } else {
      LastNeighbours(i);
    }
  }

  lemma NeighbourGroups(i: nat)
    requires i < 7
    ensures StrictlyBefore(GroupName(GROUPS_IN_ORDER[i]), GroupName(GROUPS_IN_ORDER[i + 1]))
  {
    FirstDifference(GroupName(GROUPS_IN_ORDER[i]), GroupName(GROUPS_IN_ORDER[i + 1]), if i == 6 then 1 else 0);
  }

  lemma StrictlyTransitive(a: string, b: string, c: string)
    requires StrictlyBefore(a, b) && StrictlyBefore(b, c)
    ensures StrictlyBefore(a, c)
  {
    TextTransitive(a, b, c);
    if LeqText(c, a) {
      TextTransitive(c, a, b);
    }
  }

  lemma {:induction false} ChecksAscend(i: nat, j: nat)
    requires i < j < 17
    ensures StrictlyBefore(CheckName(CHECKS_IN_ORDER[i]), CheckName(CHECKS_IN_ORDER[j]))
    decreases j
  {
    hide CheckName, StrictlyBefore;
    NeighbourChecks(j - 1);
    if i < j - 1 {
      ChecksAscend(i, j - 1);
      StrictlyTransitive(CheckName(CHECKS_IN_ORDER[i]), CheckName(CHECKS_IN_ORDER[j - 1]), CheckName(CHECKS_IN_ORDER[j]));
    }
  }

  lemma {:induction false} GroupsAscend(i: nat, j: nat)
    requires i < j < 8
    ensures StrictlyBefore(GroupName(GROUPS_IN_ORDER[i]), GroupName(GROUPS_IN_ORDER[j]))
    decreases j
  {
    hide GroupName, StrictlyBefore;
    NeighbourGroups(j - 1);
    if i < j - 1 {
      GroupsAscend(i, j - 1);
      StrictlyTransitive(GroupName(GROUPS_IN_ORDER[i]), GroupName(GROUPS_IN_ORDER[j - 1]), GroupName(GROUPS_IN_ORDER[j]));
    }
  }

  lemma RanksListed(c: Check, g: Group)
    ensures CheckRank(c) < 17 && CHECKS_IN_ORDER[CheckRank(c)] == c
    ensures GroupRank(g) < 8 && GROUPS_IN_ORDER[GroupRank(g)] == g
  {
  }

  /** Sorting by rank is sorting by name. */
  lemma RanksAreNameOrder(a: Check, b: Check, g: Group, h: Group)
    ensures CheckRank(a) <= CheckRank(b) <==> LeqText(CheckName(a), CheckName(b))
    ensures GroupRank(g) <= GroupRank(h) <==> LeqText(GroupName(g), GroupName(h))
  {
    hide CheckName, GroupName, LeqText;
    RanksListed(a, g);
    RanksListed(b, h);
    TextTotal(CheckName(a), CheckName(a));
    TextTotal(GroupName(g), GroupName(g));
    if CheckRank(a) < CheckRank(b) {
      ChecksAscend(CheckRank(a), CheckRank(b));
    } else if CheckRank(b) < CheckRank(a) {
      ChecksAscend(CheckRank(b), CheckRank(a));
    }
    if GroupRank(g) < GroupRank(h) {
      GroupsAscend(GroupRank(g), GroupRank(h));
    } else if GroupRank(h) < GroupRank(g) {
      GroupsAscend(GroupRank(h), GroupRank(g));
    }
  }

  /** Severities are ordered by name as well. */
  lemma SeverityRankIsNameOrder(s: Severity, t: Severity)
    ensures SeverityRank(s) < SeverityRank(t) <==> StrictlyBefore(SeverityName(s), SeverityName(t))
  {
    hide StrictlyBefore;
    BeforeIsStrict(SeverityName(s), SeverityName(t));
    if SeverityRank(s) < SeverityRank(t) {
      NamesDiffer(s, t);
    } else if SeverityRank(t) < SeverityRank(s) {
      NamesDiffer(t, s);
    }
  }

  lemma BeforeIsStrict(a: string, b: string)
    ensures !(StrictlyBefore(a, b) && StrictlyBefore(b, a)) && !StrictlyBefore(a, a)
  {
  }

  lemma NamesDiffer(s: Severity, t: Severity)
    requires SeverityRank(s) < SeverityRank(t)
    ensures StrictlyBefore(SeverityName(s), SeverityName(t))
  {
    FirstDifference(SeverityName(s), SeverityName(t), 0);
  }

  // ---- trees --------------------------------------------------------------

  /** Text that is written between quotes as it is. */
  predicate PlainText(s: string) {
    forall i | 0 <= i < |s| :: 0x20 <= s[i] as int < 0x7f && s[i] != '"' && s[i] != '\\'
  }

  function Pieces(s: string): seq<Piece> {
    seq(|s|, i requires 0 <= i < |s| => Plain(s[i] as int))
  }

  function Units(s: string): Text {
    seq(|s|, i requires 0 <= i < |s| => s[i] as int)
  }

  function StrOf(s: string): Value {
    Str(Pieces(s))
  }

  function NumberOf(n: nat): Value {
    Literal(Units(Numeral(n, 10)))
  }

  function Bare(v: Value): Element {
    Element([], v, [])
  }

  function ElementsFrom(vs: seq<Value>): Elements
    requires vs != []
  {
    if |vs| == 1 then OneElement(Bare(vs[0])) else MoreElements(Bare(vs[0]), ElementsFrom(vs[1..]))
  }

  function ArrayOf(vs: seq<Value>): Value {
    if vs == [] then EmptyArray([]) else Array(ElementsFrom(vs))
  }

  datatype Field = Field(name: string, value: Value)

  function MemberFrom(f: Field): Member {
    Member([], Pieces(f.name), [], Bare(f.value))
  }

  function MembersFrom(fs: seq<Field>): Members
    requires fs != []
  {
    if |fs| == 1 then OneMember(MemberFrom(fs[0])) else MoreMembers(MemberFrom(fs[0]), MembersFrom(fs[1..]))
  }

  function ObjectOf(fs: seq<Field>): Value
    requires fs != []
  {
    Object(MembersFrom(fs))
  }

  /** Well formed, with distinct keys everywhere, and nested no deeper than `d`. */
  ghost predicate Good(v: Value, d: nat) {
    ValueOk(v) && UniqueKeys(v) && Depth(v) <= d
  }

  lemma PlainPieces(s: string)
    requires PlainText(s)
    ensures PiecesOk(Pieces(s)) && Decoded(Pieces(s)) == Units(s)
  {
  }

  lemma UnitsInjective(s: string, t: string)
    requires Units(s) == Units(t)
    ensures s == t
  {
    forall i | 0 <= i < |s|
      ensures s[i] == t[i]
    {
      assert Units(s)[i] == Units(t)[i];
    }
  }

  lemma GoodString(s: string)
    requires PlainText(s)
    ensures Good(StrOf(s), 0)
  {
    PlainPieces(s);
  }

  lemma {:induction false} DecimalDigits(n: nat)
    ensures forall i | 0 <= i < |Numeral(n, 10)| :: '0' <= Numeral(n, 10)[i] <= '9'
  {
    if n >= 10 {
      DecimalDigits(n / 10);
    }
  }

  lemma GoodNumber(n: nat)
    ensures Good(NumberOf(n), 0)
  {
    DecimalDigits(n);
  }

  lemma {:induction false} GoodElements(vs: seq<Value>, d: nat)
    requires vs != [] && forall i | 0 <= i < |vs| :: Good(vs[i], d)
    ensures ElementsOk(ElementsFrom(vs)) && ElementsUnique(ElementsFrom(vs)) && ElementsDepth(ElementsFrom(vs)) <= d
  {
    if |vs| > 1 {
      GoodElements(vs[1..], d);
    }
    assert Good(vs[0], d);
  }

  lemma GoodArray(vs: seq<Value>, d: nat)
    requires forall i | 0 <= i < |vs| :: Good(vs[i], d)
    ensures Good(ArrayOf(vs), d + 1)
  {
    if vs != [] {
      GoodElements(vs, d);
    }
  }

  predicate DistinctNames(fs: seq<Field>) {
    forall i, j | 0 <= i < j < |fs| :: fs[i].name != fs[j].name
  }

  function NameUnits(fs: seq<Field>): (r: seq<Text>)
    ensures |r| == |fs| && forall i | 0 <= i < |fs| :: r[i] == Units(fs[i].name)
  {
    seq(|fs|, i requires 0 <= i < |fs| => Units(fs[i].name))
  }

  ghost predicate FieldOk(f: Field, d: nat) {
    PlainText(f.name) && Good(f.value, d)
  }

  lemma {:induction false} GoodMembers(fs: seq<Field>, d: nat)
    requires fs != [] && forall i | 0 <= i < |fs| :: FieldOk(fs[i], d)
    ensures MembersOk(MembersFrom(fs)) && MembersUnique(MembersFrom(fs)) && MembersDepth(MembersFrom(fs)) <= d
    ensures KeysOf(MembersFrom(fs)) == NameUnits(fs)
  {
    assert FieldOk(fs[0], d);
    PlainPieces(fs[0].name);
    if |fs| > 1 {
      GoodMembers(fs[1..], d);
      assert NameUnits(fs) == [Units(fs[0].name)] + NameUnits(fs[1..]);
    } else {
      assert NameUnits(fs) == [Units(fs[0].name)];
    }
  }

  lemma GoodObject(fs: seq<Field>, d: nat)
    requires fs != [] && DistinctNames(fs) && forall i | 0 <= i < |fs| :: FieldOk(fs[i], d)
    ensures Good(ObjectOf(fs), d + 1)
  {
    hide MembersOk, MembersUnique, MembersDepth, MembersFrom, FieldOk;
    GoodMembers(fs, d);
    forall i, j | 0 <= i < j < |fs|
      ensures NameUnits(fs)[i] != NameUnits(fs)[j]
    {
      if NameUnits(fs)[i] == NameUnits(fs)[j] {
        UnitsInjective(fs[i].name, fs[j].name);
      }
    }
    ObjectIsGood(MembersFrom(fs), d);
  }

  lemma ObjectIsGood(ms: Members, d: nat)
    requires MembersOk(ms) && MembersUnique(ms) && MembersDepth(ms) <= d && Distinct(KeysOf(ms))
    ensures Good(Object(ms), d + 1)
  {
  }

  // ---- the canonical text -------------------------------------------------

  function ObservationValue(o: Observation): Value {
    ObjectOf([Field("check_id", StrOf(CheckName(o.check))), Field("outcome", StrOf(OutcomeName(o.outcome)))])
  }

  function FindingValue(f: Finding): Value {
    ObjectOf([Field("fingerprint", StrOf(f.fingerprint)), Field("severity", StrOf(SeverityName(f.severity))),
              Field("confidence", NumberOf(if f.confidence >= 0 then f.confidence else 0)),
              Field("evidence", StrOf(REDACTION_TEXT))])
  }

  function CoverageValue(c: Coverage): Value {
    ObjectOf([Field("detector_group", StrOf(GroupName(c.group))),
              Field("execution_status", StrOf(ExecutionName(c.execution))),
              Field("completeness", StrOf(CompletenessName(c.completeness)))])
  }

  function WarningValue(code: string): Value {
    ObjectOf([Field("code", StrOf(code))])
  }

  function MetadataValue(o: ScannerOutput): Value {
    ObjectOf([Field("schema_version", NumberOf(1)), Field("profile", StrOf("GUEST_SAFE")),
              Field("canonical_host", StrOf(o.host)), Field("policy_id", StrOf("outscan-v1")),
              Field("policy_version", StrOf("1.0.0")),
              Field("duration_ms", NumberOf(if o.durationMs >= 0 then o.durationMs else 0)),
              Field("request_count", NumberOf(if o.requestCount >= 0 then o.requestCount else 0))])
  }

  function Values<T>(s: seq<T>, f: T -> Value): (r: seq<Value>)
    ensures |r| == |s| && forall i | 0 <= i < |s| :: r[i] == f(s[i])
  {
    seq(|s|, i requires 0 <= i < |s| => f(s[i]))
  }

  /** `JSON.stringify` of a canonical output, as a tree. */
  function OutputTree(o: ScannerOutput): Element {
    Bare(ObjectOf([Field("observations", ArrayOf(Values(o.observations, ObservationValue))),
                   Field("candidate_findings", ArrayOf(Values(o.findings, FindingValue))),
                   Field("coverage", ArrayOf(Values(o.coverage, CoverageValue))),
                   Field("execution_metadata", MetadataValue(o)),
                   Field("warnings", ArrayOf(Values(o.warnings, WarningValue)))]))
  }

  lemma DnsAndHttpNamesPlain(c: Check)
    requires CheckRank(c) < 6
    ensures PlainText(CheckName(c))
  {
  }

  lemma HttpNamesPlain(c: Check)
    requires 6 <= CheckRank(c) < 10
    ensures PlainText(CheckName(c))
  {
  }

  lemma OtherNamesPlain(c: Check)
    requires 10 <= CheckRank(c)
    ensures PlainText(CheckName(c))
  {
  }

  lemma CheckNamePlain(c: Check)
    ensures PlainText(CheckName(c))
  {
    hide PlainText, CheckName;
    if CheckRank(c) < 6 {
      DnsAndHttpNamesPlain(c);
    } else if CheckRank(c) < 10 {
      HttpNamesPlain(c);
    } else {
      OtherNamesPlain(c);
    }
  }

  lemma FirstGroupNamesPlain(g: Group)
    requires GroupRank(g) < 3
    ensures PlainText(GroupName(g))
  {
  }

  lemma MiddleGroupNamesPlain(g: Group)
    requires 3 <= GroupRank(g) < 6
    ensures PlainText(GroupName(g))
  {
  }

  lemma LastGroupNamesPlain(g: Group)
    requires 6 <= GroupRank(g)
    ensures PlainText(GroupName(g))
  {
  }

  lemma GroupNamePlain(g: Group)
    ensures PlainText(GroupName(g))
  {
    hide PlainText, GroupName;
    if GroupRank(g) < 3 {
      FirstGroupNamesPlain(g);
    } else if GroupRank(g) < 6 {
      MiddleGroupNamesPlain(g);
    } else {
      LastGroupNamesPlain(g);
    }
  }

  lemma OutcomeNamesPlain(o: Outcome, s: Severity)
    ensures PlainText(OutcomeName(o)) && PlainText(SeverityName(s))
  {
  }

  lemma StateNamesPlain(e: Execution, c: Completeness)
    ensures PlainText(ExecutionName(e)) && PlainText(CompletenessName(c))
  {
  }

  lemma RedactionPlain()
    ensures PlainText(REDACTION_TEXT)
  {
  }

  lemma GoodObservation(o: Observation)
    ensures Good(ObservationValue(o), 1)
  {
    hide Good, ObjectOf, StrOf, CheckName, OutcomeName, PlainText;
    CheckNamePlain(o.check);
    OutcomeNamesPlain(o.outcome, Info);
    GoodString(CheckName(o.check));
    GoodString(OutcomeName(o.outcome));
    EntryNamesPlain();
    GoodObject([Field("check_id", StrOf(CheckName(o.check))), Field("outcome", StrOf(OutcomeName(o.outcome)))], 0);
  }

  lemma EntryNamesPlain()
    ensures PlainText("check_id") && PlainText("outcome") && PlainText("fingerprint") && PlainText("severity")
    ensures PlainText("confidence") && PlainText("evidence")
  {
  }

  lemma CoverageNamesPlain()
    ensures PlainText("detector_group") && PlainText("execution_status") && PlainText("completeness") && PlainText("code")
  {
  }

  lemma MetadataNamesPlain()
    ensures PlainText("schema_version") && PlainText("profile") && PlainText("canonical_host") && PlainText("policy_id")
    ensures PlainText("policy_version") && PlainText("duration_ms") && PlainText("request_count")
  {
  }

  lemma TopNamesPlain()
    ensures PlainText("observations") && PlainText("candidate_findings") && PlainText("coverage")
    ensures PlainText("execution_metadata") && PlainText("warnings")
  {
  }

  lemma PolicyPlain()
    ensures PlainText("GUEST_SAFE") && PlainText("outscan-v1") && PlainText("1.0.0")
  {
  }

  lemma DigestIsPlain(d: Digest)
    requires ValidDigest(d)
    ensures PlainText(d)
  {
    forall i | 0 <= i < |d|
      ensures 0x20 <= d[i] as int < 0x7f && d[i] != '"' && d[i] != '\\'
    {
      if i < 7 {
        assert d[i] == d[..7][i];
      }
    }
  }

  lemma GoodFinding(f: Finding)
    requires ValidDigest(f.fingerprint)
    ensures Good(FindingValue(f), 1)
  {
    hide Good, ObjectOf, StrOf, NumberOf, SeverityName, PlainText, ValidDigest;
    OutcomeNamesPlain(Pass, f.severity);
    RedactionPlain();
    DigestIsPlain(f.fingerprint);
    GoodString(f.fingerprint);
    GoodString(SeverityName(f.severity));
    GoodString(REDACTION_TEXT);
    var n: nat := if f.confidence >= 0 then f.confidence else 0;
    GoodNumber(n);
    EntryNamesPlain();
    GoodObject([Field("fingerprint", StrOf(f.fingerprint)), Field("severity", StrOf(SeverityName(f.severity))),
                Field("confidence", NumberOf(n)), Field("evidence", StrOf(REDACTION_TEXT))], 0);
  }

  lemma GoodCoverage(c: Coverage)
    ensures Good(CoverageValue(c), 1)
  {
    hide Good, ObjectOf, StrOf, GroupName, ExecutionName, CompletenessName, PlainText;
    GroupNamePlain(c.group);
    StateNamesPlain(c.execution, c.completeness);
    GoodString(GroupName(c.group));
    GoodString(ExecutionName(c.execution));
    GoodString(CompletenessName(c.completeness));
    CoverageNamesPlain();
    GoodObject([Field("detector_group", StrOf(GroupName(c.group))),
                Field("execution_status", StrOf(ExecutionName(c.execution))),
                Field("completeness", StrOf(CompletenessName(c.completeness)))], 0);
  }

  lemma GoodWarning(code: string)
    requires MachineCode(code)
    ensures Good(WarningValue(code), 1)
  {
    assert PlainText(code);
    hide Good, ObjectOf, StrOf, PlainText, MachineCode;
    GoodString(code);
    CoverageNamesPlain();
    GoodObject([Field("code", StrOf(code))], 0);
  }

  lemma GoodMetadata(o: ScannerOutput)
    requires PlainText(o.host)
    ensures Good(MetadataValue(o), 1)
  {
    hide Good, ObjectOf, StrOf, NumberOf, PlainText;
    MetadataNamesPlain();
    PolicyPlain();
    GoodString("GUEST_SAFE");
    GoodString("outscan-v1");
    GoodString("1.0.0");
    GoodString(o.host);
    var duration: nat := if o.durationMs >= 0 then o.durationMs else 0;
    var requests: nat := if o.requestCount >= 0 then o.requestCount else 0;
    GoodNumber(1);
    GoodNumber(duration);
    GoodNumber(requests);
    GoodObject([Field("schema_version", NumberOf(1)), Field("profile", StrOf("GUEST_SAFE")),
                Field("canonical_host", StrOf(o.host)), Field("policy_id", StrOf("outscan-v1")),
                Field("policy_version", StrOf("1.0.0")), Field("duration_ms", NumberOf(duration)),
                Field("request_count", NumberOf(requests))], 0);
  }

  lemma DeeperIsGood(v: Value, d: nat, e: nat)
    requires Good(v, d) && d <= e
    ensures Good(v, e)
  {
  }

  lemma GoodLists(o: ScannerOutput)
    requires FindingsOk(o.findings) && WarningsOk(o.warnings)
    ensures Good(ArrayOf(Values(o.observations, ObservationValue)), 2)
    ensures Good(ArrayOf(Values(o.findings, FindingValue)), 2)
    ensures Good(ArrayOf(Values(o.coverage, CoverageValue)), 2)
    ensures Good(ArrayOf(Values(o.warnings, WarningValue)), 2)
  {
    hide Good, ArrayOf, ObservationValue, FindingValue, CoverageValue, WarningValue;
    forall i | 0 <= i < |o.observations|
      ensures Good(Values(o.observations, ObservationValue)[i], 1)
    {
      GoodObservation(o.observations[i]);
    }
    forall i | 0 <= i < |o.findings|
      ensures Good(Values(o.findings, FindingValue)[i], 1)
    {
      GoodFinding(o.findings[i]);
    }
    forall i | 0 <= i < |o.coverage|
      ensures Good(Values(o.coverage, CoverageValue)[i], 1)
    {
      GoodCoverage(o.coverage[i]);
    }
    forall i | 0 <= i < |o.warnings|
      ensures Good(Values(o.warnings, WarningValue)[i], 1)
    {
      GoodWarning(o.warnings[i]);
    }
    GoodArray(Values(o.observations, ObservationValue), 1);
    GoodArray(Values(o.findings, FindingValue), 1);
    GoodArray(Values(o.coverage, CoverageValue), 1);
    GoodArray(Values(o.warnings, WarningValue), 1);
  }

  /** The text written for a valid output, in particular for its canonical form,
      always passes the scan that is made before it is parsed again: brackets and
      colons inside its strings do not mislead it. */
  lemma CanonicalTextIsScanned(o: ScannerOutput)
    requires FindingsOk(o.findings) && WarningsOk(o.warnings) && PlainText(o.host)
    ensures ElementOk(OutputTree(o))
    ensures Scan(ElementText(OutputTree(o)), [], OUTPUT_DEPTH)
  {
    hide ObservationValue, FindingValue, CoverageValue, WarningValue, MetadataValue, ArrayOf, ObjectOf, PlainText, Scan;
    GoodLists(o);
    GoodMetadata(o);
    TopNamesPlain();
    assert OutputTreeGood(o) by {
      hide Good;
      DeeperIsGood(MetadataValue(o), 1, 2);
      GoodObject([Field("observations", ArrayOf(Values(o.observations, ObservationValue))),
                  Field("candidate_findings", ArrayOf(Values(o.findings, FindingValue))),
                  Field("coverage", ArrayOf(Values(o.coverage, CoverageValue))),
                  Field("execution_metadata", MetadataValue(o)),
                  Field("warnings", ArrayOf(Values(o.warnings, WarningValue)))], 2);
    }
    GoodIsScanned(OutputTree(o).value, 3);
  }

  ghost predicate OutputTreeGood(o: ScannerOutput) {
    Good(OutputTree(o).value, 3)
  }

  lemma GoodIsScanned(v: Value, d: nat)
    requires Good(v, d) && d <= OUTPUT_DEPTH
    ensures ElementOk(Bare(v)) && Scan(ElementText(Bare(v)), [], OUTPUT_DEPTH)
  {
    ScanIsExact(Bare(v), OUTPUT_DEPTH);
  }
}
