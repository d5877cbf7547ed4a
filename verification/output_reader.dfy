/** Reading a scanner's output from parsed JSON: exact objects, the names on the
    wire and the fixed metadata; and that what is written in canonical form is read
    back, field by field. */
module OutputReader {
  import opened Basics
  import opened Binary
  import opened GuestOutput
  import opened GuestProjection
  import opened JsonKeys
  import opened AddressText
  import opened CanonicalText

  // ---- parsed JSON --------------------------------------------------------

  /** What parsing gives: numbers and words by their text, strings by their units. */
  datatype Json = Scalar(literal: Text) | Characters(units: Text) | List(items: seq<Json>) | Record(entries: seq<Entry>)

  datatype Entry = Entry(key: Text, value: Json)

  function Meaning(v: Value): Json
    requires ValueOk(v)
  {
    match v
    case Literal(t) => Scalar(t)
    case Str(ps) => Characters(Decoded(ps))
    case EmptyArray(_) => List([])
    case Array(es) => List(ItemsOf(es))
    case EmptyObject(_) => Record([])
    case Object(ms) => Record(EntriesOf(ms))
  }

  function ItemsOf(es: Elements): seq<Json>
    requires ElementsOk(es)
  {
    match es
    case OneElement(e) => [Meaning(e.value)]
    case MoreElements(e, rest) => [Meaning(e.value)] + ItemsOf(rest)
  }

  function EntriesOf(ms: Members): seq<Entry>
    requires MembersOk(ms)
  {
    match ms
    case OneMember(m) => [Entry(Decoded(m.key), Meaning(m.element.value))]
    case MoreMembers(m, rest) => [Entry(Decoded(m.key), Meaning(m.element.value))] + EntriesOf(rest)
  }

  // ---- reading ------------------------------------------------------------

  /** The value of a field; keys do not repeat. */
  function Get(entries: seq<Entry>, name: string): Option<Json> {
    if entries == [] then None
    else if entries[0].key == Units(name) then Some(entries[0].value)
    else Get(entries[1..], name)
  }

  function GetAll(entries: seq<Entry>, names: seq<string>): Option<seq<Json>> {
    if names == [] then Some([])
    else
      var first, rest := Get(entries, names[0]), GetAll(entries, names[1..]);
      if first.Some? && rest.Some? then Some([first.value] + rest.value) else None
  }

  /** `exactObject`: these fields and no other; their values in the order asked for. */
  function ExactRecord(j: Json, names: seq<string>): (r: Option<seq<Json>>)
    ensures r.Some? ==> |r.value| == |names|
  {
    if !j.Record? || |j.entries| != |names| then None
    else
      var values := GetAll(j.entries, names);
      if values.Some? && |values.value| == |names| then values else None
  }

  /** Text of ASCII characters; no other text is a name, a digest or a canonical host. */
  function ReadText(j: Json): Option<string> {
    if j.Characters? && forall i | 0 <= i < |j.units| :: 0 <= j.units[i] < 128
    then Some(seq(|j.units|, i requires 0 <= i < |j.units| => j.units[i] as char)) else None
  }

  function CheckNamed(s: string): Option<Check> {
    if s == "DNS_AAAA_PRESENT" then Some(DnsAaaaPresent)
    else if s == "DNS_DNSSEC" then Some(DnsDnssec)
    else if s == "DNS_CAA" then Some(DnsCaa)
    else if s == "MAIL_SPF" then Some(MailSpf)
    else if s == "MAIL_DMARC" then Some(MailDmarc)
    else if s == "MAIL_MTA_STS" then Some(MailMtaSts)
    else if s == "MAIL_TLS_RPT" then Some(MailTlsRpt)
    else if s == "TLS_CERTIFICATE" then Some(TlsCertificate)
    else if s == "HTTP_HSTS" then Some(HttpHsts)
    else if s == "HTTP_CSP" then Some(HttpCsp)
    else if s == "HTTP_X_CONTENT_TYPE_OPTIONS" then Some(HttpXContentTypeOptions)
    else if s == "HTTP_FRAME_PROTECTION" then Some(HttpFrameProtection)
    else if s == "HTTP_REFERRER_POLICY" then Some(HttpReferrerPolicy)
    else if s == "HTTP_PERMISSIONS_POLICY" then Some(HttpPermissionsPolicy)
    else if s == "HTTP_PROTOCOL" then Some(HttpProtocol)
    else if s == "INFRA_RPKI" then Some(InfraRpki)
    else if s == "SECURITY_TXT" then Some(SecurityTxt)
    else None
  }

  function GroupNamed(s: string): Option<Group> {
    if s == "TARGET_RESOLUTION" then Some(TargetResolution)
    else if s == "DNS_DOMAIN_POSTURE" then Some(DnsDomainPosture)
    else if s == "TLS_CERTIFICATE_POSTURE" then Some(TlsCertificatePosture)
    else if s == "HTTP_SECURITY_POSTURE" then Some(HttpSecurityPosture)
    else if s == "MAIL_SECURITY_POSTURE" then Some(MailSecurityPosture)
    else if s == "PUBLIC_INFRASTRUCTURE" then Some(PublicInfrastructure)
    else if s == "RDAP_ENRICHMENT" then Some(RdapEnrichment)
    else if s == "CT_ENRICHMENT" then Some(CtEnrichment)
    else None
  }

  function SeverityNamed(s: string): Option<Severity> {
    if s == "INFO" then Some(Info)
    else if s == "LOW" then Some(Low)
    else if s == "MEDIUM" then Some(Medium)
    else if s == "HIGH" then Some(High)
    else if s == "CRITICAL" then Some(Critical)
    else None
  }

  function OutcomeNamed(s: string): Option<Outcome> {
    if s == "PASS" then Some(Pass)
    else if s == "ATTENTION" then Some(Attention)
    else if s == "UNKNOWN" then Some(OutcomeUnknown)
    else if s == "NOT_APPLICABLE" then Some(OutcomeNotApplicable)
    else None
  }

  function ExecutionNamed(s: string): Option<Execution> {
    if s == "SUCCESS" then Some(ExecSuccess)
    else if s == "FAILED" then Some(ExecFailed)
    else if s == "TIMED_OUT" then Some(ExecTimedOut)
    else if s == "CANCELLED" then Some(ExecCancelled)
    else if s == "SUPERSEDED" then Some(ExecSuperseded)
    else None
  }

  function CompletenessNamed(s: string): Option<Completeness> {
    if s == "COMPLETE" then Some(Complete)
    else if s == "PARTIAL" then Some(Partial)
    else if s == "NOT_APPLICABLE" then Some(NotApplicable)
    else if s == "UNKNOWN" then Some(Unknown)
    else None
  }

  lemma ChecksRead(c: Check)
    ensures CheckNamed(CheckName(c)) == Some(c)
  {
  }

  lemma GroupsRead(g: Group)
    ensures GroupNamed(GroupName(g)) == Some(g)
  {
  }

  lemma OthersRead(s: Severity, o: Outcome, e: Execution, c: Completeness)
    ensures SeverityNamed(SeverityName(s)) == Some(s) && OutcomeNamed(OutcomeName(o)) == Some(o)
    ensures ExecutionNamed(ExecutionName(e)) == Some(e) && CompletenessNamed(CompletenessName(c)) == Some(c)
  {
  }

  /** What the reader needs of the platform: the integer that a number denotes, and
      the UTF-8 form of a string. */
  datatype Reads = Reads(number: Text -> Option<int>, utf8: Text -> Bytes)

  function ReadNumber(lib: Reads, j: Json): Option<int> {
    if j.Scalar? then lib.number(j.literal) else None
  }

  function ReadObservation(j: Json): Option<Observation> {
    match ExactRecord(j, ["check_id", "outcome"])
    case None => None
    case Some(v) =>
      var check, outcome := ReadText(v[0]), ReadText(v[1]);
      if check.None? || outcome.None? then None
      else
        var c, o := CheckNamed(check.value), OutcomeNamed(outcome.value);
        if c.Some? && o.Some? then Some(Observation(c.value, o.value)) else None
  }

  function ReadFinding(lib: Reads, j: Json): Option<Finding> {
    match ExactRecord(j, ["fingerprint", "severity", "confidence", "evidence"])
    case None => None
    case Some(v) =>
      var fingerprint, severity, confidence := ReadText(v[0]), ReadText(v[1]), ReadNumber(lib, v[2]);
      if fingerprint.None? || severity.None? || confidence.None? || !v[3].Characters? then None
      else
        var s := SeverityNamed(severity.value);
        if s.Some? then Some(Finding(fingerprint.value, s.value, confidence.value, lib.utf8(v[3].units))) else None
  }

  function ReadCoverage(j: Json): Option<Coverage> {
    match ExactRecord(j, ["detector_group", "execution_status", "completeness"])
    case None => None
    case Some(v) =>
      var group, execution, completeness := ReadText(v[0]), ReadText(v[1]), ReadText(v[2]);
      if group.None? || execution.None? || completeness.None? then None
      else
        var g, e, c := GroupNamed(group.value), ExecutionNamed(execution.value), CompletenessNamed(completeness.value);
        if g.Some? && e.Some? && c.Some? then Some(Coverage(g.value, e.value, c.value)) else None
  }

  function ReadWarning(j: Json): Option<string> {
    match ExactRecord(j, ["code"])
    case None => None
    case Some(v) => ReadText(v[0])
  }

  function ReadEach<T>(items: seq<Json>, read: Json -> Option<T>): Option<seq<T>> {
    if items == [] then Some([])
    else
      var first, rest := read(items[0]), ReadEach(items[1..], read);
      if first.Some? && rest.Some? then Some([first.value] + rest.value) else None
  }

  function ReadList<T>(j: Json, read: Json -> Option<T>): Option<seq<T>> {
    if j.List? then ReadEach(j.items, read) else None
  }

  datatype Metadata = Metadata(host: Host, durationMs: int, requestCount: int)

  /** The fixed fields hold their one accepted value. */
  function ReadMetadata(lib: Reads, j: Json): Option<Metadata> {
    match ExactRecord(j, ["schema_version", "profile", "canonical_host", "policy_id", "policy_version", "duration_ms",
                          "request_count"])
    case None => None
    case Some(v) =>
      var host, duration, requests := ReadText(v[2]), ReadNumber(lib, v[5]), ReadNumber(lib, v[6]);
      if ReadNumber(lib, v[0]) != Some(1) || ReadText(v[1]) != Some("GUEST_SAFE")
         || ReadText(v[3]) != Some("outscan-v1") || ReadText(v[4]) != Some("1.0.0")
         || host.None? || duration.None? || requests.None?
      then None
      else Some(Metadata(host.value, duration.value, requests.value))
  }

  function ReadOutput(lib: Reads, j: Json): Option<ScannerOutput> {
    match ExactRecord(j, ["observations", "candidate_findings", "coverage", "execution_metadata", "warnings"])
    case None => None
    case Some(v) =>
      var observations := ReadList(v[0], ReadObservation);
      var findings := ReadList(v[1], x => ReadFinding(lib, x));
      var coverage := ReadList(v[2], ReadCoverage);
      var metadata := ReadMetadata(lib, v[3]);
      var warnings := ReadList(v[4], ReadWarning);
      if observations.None? || findings.None? || coverage.None? || metadata.None? || warnings.None? then None
      else Some(ScannerOutput(observations.value, findings.value, coverage.value, metadata.value.host,
                              metadata.value.durationMs, metadata.value.requestCount, warnings.value))
  }

  // ---- what was written is read back ---------------------------------------

  ghost predicate ReadsOk(lib: Reads) {
    && (forall n: nat {:trigger lib.number(Units(Numeral(n, 10)))} :: lib.number(Units(Numeral(n, 10))) == Some(n))
    && (forall s: string {:trigger lib.utf8(Units(s))} | AllAscii(s) :: lib.utf8(Units(s)) == Ascii(s))
  }

  predicate Writable(f: Field) {
    PlainText(f.name) && ValueOk(f.value)
  }

  function NamesOf(fs: seq<Field>): (names: seq<string>)
    ensures |names| == |fs| && forall i | 0 <= i < |fs| :: names[i] == fs[i].name
  {
    seq(|fs|, i requires 0 <= i < |fs| => fs[i].name)
  }

  ghost predicate AllWritable(fs: seq<Field>) {
    forall i | 0 <= i < |fs| :: Writable(fs[i])
  }

  ghost function EntriesFrom(fs: seq<Field>): (entries: seq<Entry>)
    requires AllWritable(fs)
    ensures |entries| == |fs|
    ensures forall i | 0 <= i < |fs| :: entries[i] == Entry(Units(fs[i].name), Meaning(fs[i].value))
  {
    seq(|fs|, i requires 0 <= i < |fs| => assert Writable(fs[i]); Entry(Units(fs[i].name), Meaning(fs[i].value)))
  }

  ghost function MeaningsFrom(fs: seq<Field>): (values: seq<Json>)
    requires AllWritable(fs)
    ensures |values| == |fs|
    ensures forall i | 0 <= i < |fs| :: values[i] == Meaning(fs[i].value)
  {
    seq(|fs|, i requires 0 <= i < |fs| => assert Writable(fs[i]); Meaning(fs[i].value))
  }

  lemma MemberMeans(f: Field)
    requires Writable(f)
    ensures MemberOk(MemberFrom(f)) && Decoded(MemberFrom(f).key) == Units(f.name)
    ensures MemberFrom(f).element.value == f.value
  {
    PlainPieces(f.name);
  }

  lemma {:induction false} MembersMean(fs: seq<Field>)
    requires fs != [] && AllWritable(fs)
    ensures MembersOk(MembersFrom(fs)) && EntriesOf(MembersFrom(fs)) == EntriesFrom(fs)
  {
    assert Writable(fs[0]);
    MemberMeans(fs[0]);
    hide Meaning, MemberFrom, Writable, MemberOk;
    if |fs| > 1 {
      assert forall i | 0 <= i < |fs| - 1 :: fs[1..][i] == fs[i + 1];
      MembersMean(fs[1..]);
      assert EntriesFrom(fs) == [EntriesFrom(fs)[0]] + EntriesFrom(fs[1..]);
    }
  }

  lemma {:induction false} Found(fs: seq<Field>, i: nat)
    requires AllWritable(fs) && DistinctNames(fs) && i < |fs|
    ensures Get(EntriesFrom(fs), fs[i].name) == Some(Meaning(fs[i].value))
  {
    hide Meaning, Units;
    assert forall k | 0 <= k < |fs| - 1 :: fs[1..][k] == fs[k + 1];
    if i > 0 {
      if Units(fs[0].name) == Units(fs[i].name) {
        UnitsInjective(fs[0].name, fs[i].name);
      }
      Found(fs[1..], i - 1);
      assert EntriesFrom(fs)[1..] == EntriesFrom(fs[1..]);
    }
  }

  lemma {:induction false} AllFound(fs: seq<Field>, n: nat)
    requires AllWritable(fs) && DistinctNames(fs) && n <= |fs|
    ensures GetAll(EntriesFrom(fs), NamesOf(fs)[n..]) == Some(MeaningsFrom(fs)[n..])
    decreases |fs| - n
  {
    hide Meaning, Get;
    if n < |fs| {
      Found(fs, n);
      AllFound(fs, n + 1);
      assert NamesOf(fs)[n..][0] == fs[n].name && NamesOf(fs)[n..][1..] == NamesOf(fs)[n + 1..];
      assert [Meaning(fs[n].value)] + MeaningsFrom(fs)[n + 1..] == MeaningsFrom(fs)[n..];
    } else {
      assert NamesOf(fs)[n..] == [] && MeaningsFrom(fs)[n..] == [];
    }
  }

  /** An object that was written is an exact record of its fields. */
  lemma RecordRead(fs: seq<Field>, names: seq<string>)
    requires fs != [] && AllWritable(fs) && DistinctNames(fs) && names == NamesOf(fs)
    ensures ValueOk(ObjectOf(fs)) && ExactRecord(Meaning(ObjectOf(fs)), names) == Some(MeaningsFrom(fs))
  {
    hide Meaning, GetAll, MembersFrom, EntriesOf, MembersOk;
    MembersMean(fs);
    MeaningOfObject(MembersFrom(fs));
    AllFound(fs, 0);
    assert NamesOf(fs)[0..] == NamesOf(fs) && MeaningsFrom(fs)[0..] == MeaningsFrom(fs);
  }

  lemma MeaningOfObject(ms: Members)
    requires MembersOk(ms)
    ensures ValueOk(Object(ms)) && Meaning(Object(ms)) == Record(EntriesOf(ms))
  {
  }

  lemma TextRead(s: string)
    requires PlainText(s)
    ensures ValueOk(StrOf(s)) && Meaning(StrOf(s)) == Characters(Units(s)) && ReadText(Meaning(StrOf(s))) == Some(s)
  {
    PlainPieces(s);
    var read := ReadText(Characters(Units(s)));
    assert read.Some? && read.value == s;
  }

  lemma NumberRead(lib: Reads, n: nat)
    requires ReadsOk(lib)
    ensures ValueOk(NumberOf(n)) && ReadNumber(lib, Meaning(NumberOf(n))) == Some(n)
  {
    DecimalDigits(n);
    hide Numeral;
  }

  lemma ObservationRead(o: Observation)
    ensures ValueOk(ObservationValue(o)) && ReadObservation(Meaning(ObservationValue(o))) == Some(o)
  {
    hide Meaning, ObjectOf, StrOf, PlainText, CheckName, OutcomeName, CheckNamed, OutcomeNamed, ExactRecord, ReadText;
    EntryNamesPlain();
    CheckNamePlain(o.check);
    OutcomeNamesPlain(o.outcome, Info);
    TextRead(CheckName(o.check));
    TextRead(OutcomeName(o.outcome));
    ChecksRead(o.check);
    OthersRead(Info, o.outcome, ExecSuccess, Complete);
    var fs := [Field("check_id", StrOf(CheckName(o.check))), Field("outcome", StrOf(OutcomeName(o.outcome)))];
    RecordRead(fs, ["check_id", "outcome"]);
  }

  lemma FindingRead(lib: Reads, f: Finding)
    requires ReadsOk(lib) && FindingOk(f) && f == Redact(f)
    ensures ValueOk(FindingValue(f)) && ReadFinding(lib, Meaning(FindingValue(f))) == Some(f)
  {
    hide Meaning, ObjectOf, StrOf, NumberOf, PlainText, SeverityName, SeverityNamed, ExactRecord, ReadText, ValidDigest, Ascii,
         AllAscii, ReadNumber;
    EntryNamesPlain();
    OutcomeNamesPlain(Pass, f.severity);
    RedactionPlain();
    DigestIsPlain(f.fingerprint);
    TextRead(f.fingerprint);
    TextRead(SeverityName(f.severity));
    TextRead(REDACTION_TEXT);
    NumberRead(lib, f.confidence);
    OthersRead(f.severity, Pass, ExecSuccess, Complete);
    var fs := [Field("fingerprint", StrOf(f.fingerprint)), Field("severity", StrOf(SeverityName(f.severity))),
               Field("confidence", NumberOf(f.confidence)), Field("evidence", StrOf(REDACTION_TEXT))];
    RecordRead(fs, ["fingerprint", "severity", "confidence", "evidence"]);
    RedactionAscii(lib);
  }

  lemma RedactionAscii(lib: Reads)
    requires ReadsOk(lib)
    ensures AllAscii(REDACTION_TEXT) && lib.utf8(Units(REDACTION_TEXT)) == Ascii(REDACTION_TEXT)
  {
  }

  lemma CoverageRead(c: Coverage)
    ensures ValueOk(CoverageValue(c)) && ReadCoverage(Meaning(CoverageValue(c))) == Some(c)
  {
    hide Meaning, ObjectOf, StrOf, PlainText, GroupName, ExecutionName, CompletenessName, GroupNamed, ExecutionNamed,
         CompletenessNamed, ExactRecord, ReadText;
    CoverageNamesPlain();
    GroupNamePlain(c.group);
    StateNamesPlain(c.execution, c.completeness);
    TextRead(GroupName(c.group));
    TextRead(ExecutionName(c.execution));
    TextRead(CompletenessName(c.completeness));
    GroupsRead(c.group);
    OthersRead(Info, Pass, c.execution, c.completeness);
    var fs := [Field("detector_group", StrOf(GroupName(c.group))), Field("execution_status", StrOf(ExecutionName(c.execution))),
               Field("completeness", StrOf(CompletenessName(c.completeness)))];
    RecordRead(fs, ["detector_group", "execution_status", "completeness"]);
  }

  lemma WarningRead(code: string)
    requires MachineCode(code)
    ensures ValueOk(WarningValue(code)) && ReadWarning(Meaning(WarningValue(code))) == Some(code)
  {
    assert PlainText(code);
    hide Meaning, ObjectOf, StrOf, PlainText, ExactRecord, ReadText, MachineCode;
    CoverageNamesPlain();
    TextRead(code);
    RecordRead([Field("code", StrOf(code))], ["code"]);
  }

  function MetadataFields(o: ScannerOutput): seq<Field>
    requires 0 <= o.durationMs && 0 <= o.requestCount
  {
    [Field("schema_version", NumberOf(1)), Field("profile", StrOf("GUEST_SAFE")), Field("canonical_host", StrOf(o.host)),
     Field("policy_id", StrOf("outscan-v1")), Field("policy_version", StrOf("1.0.0")),
     Field("duration_ms", NumberOf(o.durationMs)), Field("request_count", NumberOf(o.requestCount))]
  }

  lemma MetadataWritable(lib: Reads, o: ScannerOutput)
    requires ReadsOk(lib) && PlainText(o.host) && 0 <= o.durationMs && 0 <= o.requestCount
    ensures AllWritable(MetadataFields(o))
  {
    hide StrOf, NumberOf, PlainText, ReadNumber, ReadText, Meaning;
    MetadataNamesPlain();
    PolicyPlain();
    TextRead("GUEST_SAFE");
    TextRead("outscan-v1");
    TextRead("1.0.0");
    TextRead(o.host);
    NumberRead(lib, 1);
    NumberRead(lib, o.durationMs);
    NumberRead(lib, o.requestCount);
  }

  lemma MetadataNames(o: ScannerOutput)
    requires 0 <= o.durationMs && 0 <= o.requestCount
    ensures DistinctNames(MetadataFields(o))
    ensures NamesOf(MetadataFields(o))
            == ["schema_version", "profile", "canonical_host", "policy_id", "policy_version", "duration_ms", "request_count"]
  {
    hide StrOf, NumberOf;
  }

  lemma MetadataRead(lib: Reads, o: ScannerOutput)
    requires ReadsOk(lib) && PlainText(o.host) && 0 <= o.durationMs && 0 <= o.requestCount
    ensures ValueOk(MetadataValue(o))
    ensures ReadMetadata(lib, Meaning(MetadataValue(o))) == Some(Metadata(o.host, o.durationMs, o.requestCount))
  {
    hide Meaning, ObjectOf, StrOf, NumberOf, PlainText, ExactRecord, ReadText, ReadNumber, DistinctNames, AllWritable, NamesOf;
    PolicyPlain();
    TextRead("GUEST_SAFE");
    TextRead("outscan-v1");
    TextRead("1.0.0");
    TextRead(o.host);
    NumberRead(lib, 1);
    NumberRead(lib, o.durationMs);
    NumberRead(lib, o.requestCount);
    MetadataWritable(lib, o);
    MetadataNames(o);
    RecordRead(MetadataFields(o), ["schema_version", "profile", "canonical_host", "policy_id", "policy_version",
                                   "duration_ms", "request_count"]);
  }

  lemma {:induction false} ElementsMean(vs: seq<Value>)
    requires vs != [] && forall i | 0 <= i < |vs| :: ValueOk(vs[i])
    ensures ElementsOk(ElementsFrom(vs)) && |ItemsOf(ElementsFrom(vs))| == |vs|
    ensures forall i | 0 <= i < |vs| :: ItemsOf(ElementsFrom(vs))[i] == Meaning(vs[i])
  {
    hide Meaning;
    if |vs| > 1 {
      ElementsMean(vs[1..]);
    }
  }

  lemma {:induction false} EachRead<T>(items: seq<Json>, read: Json -> Option<T>, s: seq<T>)
    requires |items| == |s| && forall i | 0 <= i < |s| :: read(items[i]) == Some(s[i])
    ensures ReadEach(items, read) == Some(s)
  {
    if s != [] {
      EachRead(items[1..], read, s[1..]);
      assert [s[0]] + s[1..] == s;
    }
  }

  /** An array that was written is read back when each of its items is. */
  lemma ListRead<T>(s: seq<T>, write: T -> Value, read: Json -> Option<T>)
    requires forall i | 0 <= i < |s| :: ValueOk(write(s[i])) && read(Meaning(write(s[i]))) == Some(s[i])
    ensures ValueOk(ArrayOf(CanonicalText.Values(s, write))) && ReadList(Meaning(ArrayOf(CanonicalText.Values(s, write))), read) == Some(s)
  {
    var vs := CanonicalText.Values(s, write);
    if vs != [] {
      ElementsMean(vs);
      EachRead(ItemsOf(ElementsFrom(vs)), read, s);
    }
  }

  /** The five parts of a valid canonical output, written and read. */
  lemma PartsRead(lib: Reads, o: ScannerOutput, canonicalHost: Host -> bool)
    requires ReadsOk(lib) && OutputOk(o, canonicalHost) && PlainText(o.host)
    requires forall i | 0 <= i < |o.findings| :: o.findings[i] == Redact(o.findings[i])
    ensures var observations := ArrayOf(CanonicalText.Values(o.observations, ObservationValue));
            ValueOk(observations) && ReadList(Meaning(observations), ReadObservation) == Some(o.observations)
    ensures var findings := ArrayOf(CanonicalText.Values(o.findings, FindingValue));
            ValueOk(findings) && ReadList(Meaning(findings), x => ReadFinding(lib, x)) == Some(o.findings)
    ensures var coverage := ArrayOf(CanonicalText.Values(o.coverage, CoverageValue));
            ValueOk(coverage) && ReadList(Meaning(coverage), ReadCoverage) == Some(o.coverage)
    ensures var warnings := ArrayOf(CanonicalText.Values(o.warnings, WarningValue));
            ValueOk(warnings) && ReadList(Meaning(warnings), ReadWarning) == Some(o.warnings)
    ensures ValueOk(MetadataValue(o))
    ensures ReadMetadata(lib, Meaning(MetadataValue(o))) == Some(Metadata(o.host, o.durationMs, o.requestCount))
  {
    hide Meaning, ArrayOf, ReadList, ReadObservation, ReadFinding, ReadCoverage, ReadWarning, ReadMetadata, FindingOk,
         MachineCode, PlainText, Redact, ObservationValue, FindingValue, CoverageValue, WarningValue, MetadataValue, ReadsOk,
         DistinctBy;
    forall i | 0 <= i < |o.observations|
      ensures ValueOk(ObservationValue(o.observations[i]))
              && ReadObservation(Meaning(ObservationValue(o.observations[i]))) == Some(o.observations[i])
    {
      ObservationRead(o.observations[i]);
    }
    ListRead(o.observations, ObservationValue, ReadObservation);
    forall i | 0 <= i < |o.findings|
      ensures ValueOk(FindingValue(o.findings[i])) && ReadFinding(lib, Meaning(FindingValue(o.findings[i]))) == Some(o.findings[i])
    {
      FindingRead(lib, o.findings[i]);
    }
    ListRead(o.findings, FindingValue, x => ReadFinding(lib, x));
    forall i | 0 <= i < |o.coverage|
      ensures ValueOk(CoverageValue(o.coverage[i])) && ReadCoverage(Meaning(CoverageValue(o.coverage[i]))) == Some(o.coverage[i])
    {
      CoverageRead(o.coverage[i]);
    }
    ListRead(o.coverage, CoverageValue, ReadCoverage);
    forall i | 0 <= i < |o.warnings|
      ensures ValueOk(WarningValue(o.warnings[i])) && ReadWarning(Meaning(WarningValue(o.warnings[i]))) == Some(o.warnings[i])
    {
      WarningRead(o.warnings[i]);
    }
    ListRead(o.warnings, WarningValue, ReadWarning);
    MetadataRead(lib, o);
  }

  /** What is written for a valid output in canonical form is read back as it was. */
  lemma OutputRead(lib: Reads, o: ScannerOutput, canonicalHost: Host -> bool)
    requires ReadsOk(lib) && OutputOk(o, canonicalHost) && PlainText(o.host)
    requires forall i | 0 <= i < |o.findings| :: o.findings[i] == Redact(o.findings[i])
    ensures ValueOk(OutputTree(o).value) && ReadOutput(lib, Meaning(OutputTree(o).value)) == Some(o)
  {
    hide Meaning, ArrayOf, ReadList, ReadObservation, ReadFinding, ReadCoverage, ReadWarning, ReadMetadata, OutputOk, PlainText,
         Redact, ObservationValue, FindingValue, CoverageValue, WarningValue, MetadataValue, ReadsOk, ExactRecord, ObjectOf,
         CanonicalText.Values;
    PartsRead(lib, o, canonicalHost);
    TopNamesPlain();
    var fs := [Field("observations", ArrayOf(CanonicalText.Values(o.observations, ObservationValue))),
               Field("candidate_findings", ArrayOf(CanonicalText.Values(o.findings, FindingValue))),
               Field("coverage", ArrayOf(CanonicalText.Values(o.coverage, CoverageValue))),
               Field("execution_metadata", MetadataValue(o)),
               Field("warnings", ArrayOf(CanonicalText.Values(o.warnings, WarningValue)))];
    RecordRead(fs, ["observations", "candidate_findings", "coverage", "execution_metadata", "warnings"]);
  }

  // ---- what is accepted ---------------------------------------------------

  ghost predicate DifferentNames(names: seq<string>) {
    forall i, j | 0 <= i < j < |names| :: names[i] != names[j]
  }

  ghost function KeySet(entries: seq<Entry>): set<Text> {
    set e | e in entries :: e.key
  }

  ghost function NameSet(names: seq<string>): set<Text> {
    set n | n in names :: Units(n)
  }

  lemma {:induction false} FewKeys(entries: seq<Entry>)
    ensures |KeySet(entries)| <= |entries|
  {
    if entries == [] {
      assert KeySet(entries) == {};
    } else {
      var init := entries[..|entries| - 1];
      var last := entries[|entries| - 1];
      FewKeys(init);
      assert entries == init + [last];
      assert KeySet(entries) == KeySet(init) + {last.key};
    }
  }

  lemma {:induction false} ManyNames(names: seq<string>)
    requires DifferentNames(names)
    ensures |NameSet(names)| == |names|
  {
    hide Units;
    if names == [] {
      assert NameSet(names) == {};
    } else {
      var init := names[..|names| - 1];
      var last := names[|names| - 1];
      ManyNames(init);
      assert names == init + [last];
      assert NameSet(names) == NameSet(init) + {Units(last)};
      NameIsNew(init, last);
    }
  }

  lemma NameIsNew(init: seq<string>, last: string)
    requires forall i | 0 <= i < |init| :: init[i] != last
    ensures Units(last) !in NameSet(init)
  {
    forall n | n in init
      ensures Units(n) != Units(last)
    {
      if Units(n) == Units(last) {
        UnitsInjective(n, last);
      }
    }
  }

  lemma {:induction false} GetIsIn(entries: seq<Entry>, name: string)
    ensures Get(entries, name).Some? ==> Entry(Units(name), Get(entries, name).value) in entries
  {
    hide Units;
    if entries != [] && entries[0].key != Units(name) {
      GetIsIn(entries[1..], name);
    }
  }

  lemma {:induction false} AllAreIn(entries: seq<Entry>, names: seq<string>)
    requires GetAll(entries, names).Some?
    ensures |GetAll(entries, names).value| == |names|
    ensures forall i | 0 <= i < |names| :: Entry(Units(names[i]), GetAll(entries, names).value[i]) in entries
  {
    hide Units;
    if names != [] {
      GetIsIn(entries, names[0]);
      AllAreIn(entries, names[1..]);
    }
  }

  /** A record is exact when it holds each of the fields and no other: the values
      found are the fields', and every key is one of the names. */
  lemma ExactRecordMeans(j: Json, names: seq<string>)
    requires DifferentNames(names) && ExactRecord(j, names).Some?
    ensures j.Record? && |j.entries| == |names|
    ensures forall i | 0 <= i < |names| :: Entry(Units(names[i]), ExactRecord(j, names).value[i]) in j.entries
    ensures forall e | e in j.entries :: exists n | n in names :: Units(n) == e.key
  {
    hide Units, GetAll;
    AllAreIn(j.entries, names);
    FewKeys(j.entries);
    ManyNames(names);
    assert NameSet(names) <= KeySet(j.entries) by {
      forall n | n in names
        ensures Units(n) in KeySet(j.entries)
      {
        var i :| 0 <= i < |names| && names[i] == n;
        assert Entry(Units(names[i]), ExactRecord(j, names).value[i]) in j.entries;
      }
    }
    SameSize(NameSet(names), KeySet(j.entries));
    forall e | e in j.entries
      ensures exists n | n in names :: Units(n) == e.key
    {
      assert e.key in KeySet(j.entries);
    }
  }

  lemma SameSize(a: set<Text>, b: set<Text>)
    requires a <= b && |b| <= |a|
    ensures a == b
  {
    assert b == a + (b - a);
    assert |b| == |a| + |b - a|;
  }

  ghost predicate HasText(j: Json, name: string, s: string)
    requires j.Record?
  {
    exists v :: Entry(Units(name), v) in j.entries && ReadText(v) == Some(s)
  }

  ghost predicate HasNumber(lib: Reads, j: Json, name: string, n: int)
    requires j.Record?
  {
    exists v :: Entry(Units(name), v) in j.entries && ReadNumber(lib, v) == Some(n)
  }

  lemma FieldIs(lib: Reads, j: Json, names: seq<string>, i: nat)
    requires DifferentNames(names) && ExactRecord(j, names).Some? && i < |names|
    ensures j.Record?
    ensures var v := ExactRecord(j, names).value[i];
            && (ReadText(v).Some? ==> HasText(j, names[i], ReadText(v).value))
            && (ReadNumber(lib, v).Some? ==> HasNumber(lib, j, names[i], ReadNumber(lib, v).value))
  {
    hide ExactRecord, Units, ReadText, ReadNumber;
    ExactRecordMeans(j, names);
  }

  /** The metadata of an accepted output: the one version, profile and policy, and its
      own host, duration and number of requests. */
  lemma MetadataMeans(lib: Reads, j: Json, m: Metadata)
    requires ReadMetadata(lib, j) == Some(m)
    ensures j.Record? && |j.entries| == 7
    ensures HasNumber(lib, j, "schema_version", 1) && HasText(j, "profile", "GUEST_SAFE")
    ensures HasText(j, "canonical_host", m.host)
    ensures HasText(j, "policy_id", "outscan-v1") && HasText(j, "policy_version", "1.0.0")
    ensures HasNumber(lib, j, "duration_ms", m.durationMs) && HasNumber(lib, j, "request_count", m.requestCount)
  {
    hide ExactRecord, Units, ReadText, ReadNumber, HasText, HasNumber;
    var names := ["schema_version", "profile", "canonical_host", "policy_id", "policy_version", "duration_ms", "request_count"];
    ExactRecordMeans(j, names);
    FieldIs(lib, j, names, 0);
    FieldIs(lib, j, names, 1);
    FieldIs(lib, j, names, 2);
    FieldIs(lib, j, names, 3);
    FieldIs(lib, j, names, 4);
    FieldIs(lib, j, names, 5);
    FieldIs(lib, j, names, 6);
  }
}
