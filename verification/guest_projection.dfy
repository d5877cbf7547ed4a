/** From a scanner's parsed output to the sanitized projection, and to the
    canonical form whose bytes are digested and signed. */
module GuestProjection {
  import opened Basics
  import opened Binary
  import opened GuestOutput
  import opened Sorting

  const MAX_OUTPUT_BYTES := 2_097_152
  const MAX_OBSERVATIONS := 64
  const MAX_FINDINGS := 256
  const MAX_COVERAGE := 16
  const MAX_WARNINGS := 32
  const MAX_EVIDENCE_BYTES := 4_096
  const MAX_DURATION_MS := 30_000
  const MAX_REQUESTS := 40

  datatype Severity = Info | Low | Medium | High | Critical

  /** `evidence` is the UTF-8 form of the finding's evidence text. */
  datatype Finding = Finding(fingerprint: string, severity: Severity, confidence: int, evidence: Bytes)

  /** The parsed output, field by field of the right type; its fixed metadata
      fields (version, profile, policy) hold their only accepted values. */
  datatype ScannerOutput = ScannerOutput(
    observations: seq<Observation>,
    findings: seq<Finding>,
    coverage: seq<Coverage>,
    host: Host,
    durationMs: int,
    requestCount: int,
    warnings: seq<string>)

  // ---- orders -------------------------------------------------------------

  predicate LeqObservation(a: Observation, b: Observation) {
    CheckRank(a.check) <= CheckRank(b.check)
  }

  predicate LeqCoverage(a: Coverage, b: Coverage) {
    GroupRank(a.group) <= GroupRank(b.group)
  }

  /** Position of a severity's name in code-unit order ("CRITICAL" first). */
  function SeverityRank(s: Severity): nat {
    match s
    case Critical => 0
    case High => 1
    case Info => 2
    case Low => 3
    case Medium => 4
  }

  predicate LeqFinding(a: Finding, b: Finding) {
    if a.fingerprint != b.fingerprint then LeqText(a.fingerprint, b.fingerprint)
    else if a.severity != b.severity then SeverityRank(a.severity) <= SeverityRank(b.severity)
    else a.confidence <= b.confidence
  }

  lemma FindingOrder()
    ensures TotalPreorder(LeqFinding)
  {
    TextIsOrder();
    forall a, b, c | LeqFinding(a, b) && LeqFinding(b, c)
      ensures LeqFinding(a, c)
    {
      FindingTransitive(a, b, c);
    }
  }

  lemma FindingTransitive(a: Finding, b: Finding, c: Finding)
    requires LeqFinding(a, b) && LeqFinding(b, c)
    ensures LeqFinding(a, c)
  {
    hide LeqText;
    if a.fingerprint != b.fingerprint || b.fingerprint != c.fingerprint {
      FingerprintsOrdered(a, b);
      FingerprintsOrdered(b, c);
      TextTransitive(a.fingerprint, b.fingerprint, c.fingerprint);
      if a.fingerprint == c.fingerprint {
        TextAntisymmetric(a.fingerprint, b.fingerprint);
      }
    }
  }

  lemma FingerprintsOrdered(a: Finding, b: Finding)
    requires LeqFinding(a, b)
    ensures LeqText(a.fingerprint, b.fingerprint)
  {
    TextTotal(a.fingerprint, a.fingerprint);
  }

  // ---- the list parsers ---------------------------------------------------

  predicate DistinctBy<T, K(==)>(s: seq<T>, key: T -> K) {
    forall i, j | 0 <= i < j < |s| :: key(s[i]) != key(s[j])
  }

  function CheckOf(o: Observation): Check { o.check }

  function GroupOf(c: Coverage): Group { c.group }

  predicate ObservationsOk(v: seq<Observation>) {
    |v| <= MAX_OBSERVATIONS && DistinctBy(v, CheckOf)
  }

  predicate CoverageOk(v: seq<Coverage>) {
    0 < |v| <= MAX_COVERAGE && DistinctBy(v, GroupOf)
  }

  predicate FindingOk(f: Finding) {
    ValidDigest(f.fingerprint) && 0 <= f.confidence <= 100 && |f.evidence| <= MAX_EVIDENCE_BYTES
  }

  predicate FindingsOk(v: seq<Finding>) {
    |v| <= MAX_FINDINGS && forall i | 0 <= i < |v| :: FindingOk(v[i])
  }

  predicate MachineCode(s: string) {
    && 1 <= |s| <= 64 && 'A' <= s[0] <= 'Z'
    && forall i | 0 <= i < |s| :: 'A' <= s[i] <= 'Z' || '0' <= s[i] <= '9' || s[i] == '_'
  }

  predicate WarningsOk(v: seq<string>) {
    |v| <= MAX_WARNINGS && (forall i | 0 <= i < |v| :: MachineCode(v[i])) && DistinctBy(v, x => x)
  }

  function Fingerprints(v: seq<Finding>): set<string> {
    set i | 0 <= i < |v| :: v[i].fingerprint
  }

  method ParseObservations(value: seq<Observation>) returns (r: Option<seq<Observation>>)
    ensures r == if ObservationsOk(value) then Some(SortBy(value, LeqObservation)) else None
  {
    if |value| > MAX_OBSERVATIONS {
      return None;
    }
    var seen: set<Check> := {};
    var output: seq<Observation> := [];
    for i := 0 to |value|
      invariant output == value[..i]
      invariant forall c :: c in seen <==> exists j | 0 <= j < i :: value[j].check == c
      invariant DistinctBy(value[..i], CheckOf)
    {
      if value[i].check in seen {
        var j :| 0 <= j < i && value[j].check == value[i].check;
        assert CheckOf(value[j]) == CheckOf(value[i]);
        return None;
      }
      seen := seen + {value[i].check};
      output := output + [value[i]];
    }
    assert value[..|value|] == value;
    return Some(SortBy(output, LeqObservation));
  }

  method ParseCoverage(value: seq<Coverage>) returns (r: Option<seq<Coverage>>)
    ensures r == if CoverageOk(value) then Some(SortBy(value, LeqCoverage)) else None
  {
    if |value| == 0 || |value| > MAX_COVERAGE {
      return None;
    }
    var seen: set<Group> := {};
    var output: seq<Coverage> := [];
    for i := 0 to |value|
      invariant output == value[..i]
      invariant forall c :: c in seen <==> exists j | 0 <= j < i :: value[j].group == c
      invariant DistinctBy(value[..i], GroupOf)
    {
      if value[i].group in seen {
        var j :| 0 <= j < i && value[j].group == value[i].group;
        assert GroupOf(value[j]) == GroupOf(value[i]);
        return None;
      }
      seen := seen + {value[i].group};
      output := output + [value[i]];
    }
    assert value[..|value|] == value;
    return Some(SortBy(output, LeqCoverage));
  }

  method FindingCount(value: seq<Finding>) returns (r: Option<int>)
    ensures r == if FindingsOk(value) then Some(|Fingerprints(value)|) else None
  {
    if |value| > MAX_FINDINGS {
      return None;
    }
    var fingerprints: set<string> := {};
    for i := 0 to |value|
      invariant fingerprints == Fingerprints(value[..i])
      invariant forall j | 0 <= j < i :: FindingOk(value[j])
    {
      if !FindingOk(value[i]) {
        return None;
      }
      assert Fingerprints(value[..i + 1]) == Fingerprints(value[..i]) + {value[i].fingerprint} by {
        OneMoreFingerprint(value, i);
      }
      fingerprints := fingerprints + {value[i].fingerprint};
    }
    assert value[..|value|] == value;
    return Some(|fingerprints|);
  }

  lemma OneMoreFingerprint(value: seq<Finding>, i: nat)
    requires i < |value|
    ensures Fingerprints(value[..i + 1]) == Fingerprints(value[..i]) + {value[i].fingerprint}
  {
    forall x | x in Fingerprints(value[..i])
      ensures x in Fingerprints(value[..i + 1])
    {
      var j :| 0 <= j < i && value[..i][j].fingerprint == x;
      assert value[..i + 1][j].fingerprint == x;
    }
    assert value[..i + 1][i] == value[i];
  }

  method WarningCount(value: seq<string>) returns (r: Option<int>)
    ensures r == if WarningsOk(value) then Some(|value|) else None
  {
    if |value| > MAX_WARNINGS {
      return None;
    }
    var seen: set<string> := {};
    for i := 0 to |value|
      invariant forall c :: c in seen <==> c in value[..i]
      invariant forall j | 0 <= j < i :: MachineCode(value[j])
      invariant DistinctBy(value[..i], x => x)
    {
      if !MachineCode(value[i]) || value[i] in seen {
        if MachineCode(value[i]) {
          var j :| 0 <= j < i && value[..i][j] == value[i];
          assert value[j] == value[i];
        }
        return None;
      }
      seen := seen + {value[i]};
      assert value[..i + 1] == value[..i] + [value[i]];
    }
    assert value[..|value|] == value;
    return Some(|value|);
  }

  // ---- the projection -----------------------------------------------------

  predicate OutputOk(o: ScannerOutput, canonicalHost: Host -> bool) {
    && ObservationsOk(o.observations) && FindingsOk(o.findings) && CoverageOk(o.coverage) && WarningsOk(o.warnings)
    && canonicalHost(o.host)
    && 0 <= o.durationMs <= MAX_DURATION_MS
    && 0 <= o.requestCount <= MAX_REQUESTS
  }

  function Projected(o: ScannerOutput): Projection {
    Projection(o.host, SortBy(o.observations, LeqObservation), |Fingerprints(o.findings)|,
               SortBy(o.coverage, LeqCoverage), |o.warnings|, o.durationMs, o.requestCount)
  }

  /** The projection shows the output's entries in the order of their names, counts
      different fingerprints and warnings, and copies the rest. */
  ghost predicate IsProjectionOf(p: Projection, o: ScannerOutput) {
    && p.host == o.host && p.durationMs == o.durationMs && p.requestCount == o.requestCount
    && multiset(p.posture) == multiset(o.observations)
    && (forall i, j | 0 <= i < j < |p.posture| :: CheckRank(p.posture[i].check) < CheckRank(p.posture[j].check))
    && multiset(p.coverage) == multiset(o.coverage)
    && (forall i, j | 0 <= i < j < |p.coverage| :: GroupRank(p.coverage[i].group) < GroupRank(p.coverage[j].group))
    && p.riskCount == |set f | f in o.findings :: f.fingerprint|
    && p.warningCount == |o.warnings|
  }

  lemma ObservationsAscend(v: seq<Observation>)
    requires DistinctBy(v, CheckOf)
    ensures var s := SortBy(v, LeqObservation);
            && multiset(s) == multiset(v)
            && forall i, j | 0 <= i < j < |s| :: CheckRank(s[i].check) < CheckRank(s[j].check)
  {
    var s := SortBy(v, LeqObservation);
    SortPermutes(v, LeqObservation);
    assert TotalPreorder(LeqObservation);
    SortSorts(v, LeqObservation);
    DistinctPermutes(v, s, CheckOf);
    forall i, j | 0 <= i < j < |s|
      ensures CheckRank(s[i].check) < CheckRank(s[j].check)
    {
      assert CheckOf(s[i]) != CheckOf(s[j]) && LeqObservation(s[i], s[j]);
      if CheckRank(s[i].check) == CheckRank(s[j].check) {
        SameRankSameCheck(s[i].check, s[j].check);
      }
    }
  }

  lemma CoverageAscends(v: seq<Coverage>)
    requires DistinctBy(v, GroupOf)
    ensures var s := SortBy(v, LeqCoverage);
            && multiset(s) == multiset(v)
            && forall i, j | 0 <= i < j < |s| :: GroupRank(s[i].group) < GroupRank(s[j].group)
  {
    var s := SortBy(v, LeqCoverage);
    SortPermutes(v, LeqCoverage);
    assert TotalPreorder(LeqCoverage);
    SortSorts(v, LeqCoverage);
    DistinctPermutes(v, s, GroupOf);
    forall i, j | 0 <= i < j < |s|
      ensures GroupRank(s[i].group) < GroupRank(s[j].group)
    {
      assert GroupOf(s[i]) != GroupOf(s[j]) && LeqCoverage(s[i], s[j]);
      if GroupRank(s[i].group) == GroupRank(s[j].group) {
        SameRankSameGroup(s[i].group, s[j].group);
      }
    }
  }

  /** The projection of a valid output says of it what it should. */
  lemma ProjectionMeans(o: ScannerOutput, canonicalHost: Host -> bool)
    requires OutputOk(o, canonicalHost)
    ensures IsProjectionOf(Projected(o), o)
  {
    hide SortBy, DistinctBy;
    ObservationsAscend(o.observations);
    CoverageAscends(o.coverage);
    assert Fingerprints(o.findings) == set f | f in o.findings :: f.fingerprint;
  }

  method ProjectOutput(o: ScannerOutput, canonicalHost: Host -> bool) returns (r: Option<Projection>)
    ensures r == if OutputOk(o, canonicalHost) then Some(Projected(o)) else None
    ensures r.Some? ==> IsProjectionOf(r.value, o)
  {
    if OutputOk(o, canonicalHost) {
      ProjectionMeans(o, canonicalHost);
    }
    hide IsProjectionOf;
    var observations := ParseObservations(o.observations);
    var risks := FindingCount(o.findings);
    var coverage := ParseCoverage(o.coverage);
    var warnings := WarningCount(o.warnings);
    if observations.None? || risks.None? || coverage.None? || warnings.None? {
      return None;
    }
    if !canonicalHost(o.host) || o.durationMs < 0 || o.durationMs > MAX_DURATION_MS
       || o.requestCount < 0 || o.requestCount > MAX_REQUESTS {
      return None;
    }
    return Some(Projection(o.host, observations.value, risks.value, coverage.value, warnings.value,
                           o.durationMs, o.requestCount));
  }

  // ---- the canonical form -------------------------------------------------

  const REDACTION_TEXT: string := "[REDACTED:UNTRUSTED_EVIDENCE]"

  function Redact(f: Finding): Finding {
    f.(evidence := Ascii(REDACTION_TEXT))
  }

  function RedactAll(v: seq<Finding>): (r: seq<Finding>)
    ensures |r| == |v| && forall i | 0 <= i < |v| :: r[i] == Redact(v[i])
  {
    if v == [] then [] else [Redact(v[0])] + RedactAll(v[1..])
  }

  function Canonical(o: ScannerOutput): ScannerOutput {
    o.(observations := SortBy(o.observations, LeqObservation),
       findings := SortBy(RedactAll(o.findings), LeqFinding),
       coverage := SortBy(o.coverage, LeqCoverage),
       warnings := SortBy(o.warnings, LeqText))
  }

  /** The same entries in any order, with any evidence, and the same metadata. */
  ghost predicate SameEntries(o: ScannerOutput, p: ScannerOutput) {
    && multiset(o.observations) == multiset(p.observations)
    && multiset(RedactAll(o.findings)) == multiset(RedactAll(p.findings))
    && multiset(o.coverage) == multiset(p.coverage)
    && multiset(o.warnings) == multiset(p.warnings)
    && o.host == p.host && o.durationMs == p.durationMs && o.requestCount == p.requestCount
  }

  lemma ObservationOrder(v: seq<Observation>)
    requires DistinctBy(v, CheckOf)
    ensures TotalPreorder(LeqObservation) && AntisymmetricOn(v, LeqObservation)
  {
    forall x, y | x in v && y in v && LeqObservation(x, y) && LeqObservation(y, x)
      ensures x == y
    {
      SameRankSameCheck(x.check, y.check);
      var i :| 0 <= i < |v| && v[i] == x;
      var j :| 0 <= j < |v| && v[j] == y;
      assert CheckOf(v[i]) == CheckOf(v[j]);
    }
  }

  lemma SameRankSameCheck(a: Check, b: Check)
    requires CheckRank(a) == CheckRank(b)
    ensures a == b
  {
  }

  lemma CoverageOrder(v: seq<Coverage>)
    requires DistinctBy(v, GroupOf)
    ensures TotalPreorder(LeqCoverage) && AntisymmetricOn(v, LeqCoverage)
  {
    forall x, y | x in v && y in v && LeqCoverage(x, y) && LeqCoverage(y, x)
      ensures x == y
    {
      SameRankSameGroup(x.group, y.group);
      var i :| 0 <= i < |v| && v[i] == x;
      var j :| 0 <= j < |v| && v[j] == y;
      assert GroupOf(v[i]) == GroupOf(v[j]);
    }
  }

  lemma SameRankSameGroup(a: Group, b: Group)
    requires GroupRank(a) == GroupRank(b)
    ensures a == b
  {
  }

  /** Redacted findings that compare equal are equal. */
  lemma RedactedOrder(v: seq<Finding>)
    ensures TotalPreorder(LeqFinding) && AntisymmetricOn(RedactAll(v), LeqFinding)
  {
    FindingOrder();
    var r := RedactAll(v);
    forall x, y | x in r && y in r && LeqFinding(x, y) && LeqFinding(y, x)
      ensures x == y
    {
      FingerprintsOrdered(x, y);
      FingerprintsOrdered(y, x);
      TextAntisymmetric(x.fingerprint, y.fingerprint);
    }
  }

  lemma RedactedFingerprints(v: seq<Finding>)
    ensures Fingerprints(RedactAll(v)) == Fingerprints(v)
  {
    forall x
      ensures x in Fingerprints(RedactAll(v)) <==> x in Fingerprints(v)
    {
      if x in Fingerprints(v) {
        var i :| 0 <= i < |v| && v[i].fingerprint == x;
        assert RedactAll(v)[i].fingerprint == x;
      }
    }
  }

  lemma SameFingerprints(v: seq<Finding>, w: seq<Finding>)
    requires multiset(v) == multiset(w)
    ensures Fingerprints(v) == Fingerprints(w)
  {
    SameElements(v, w);
    forall x
      ensures x in Fingerprints(v) <==> x in Fingerprints(w)
    {
      if x in Fingerprints(v) {
        var f :| f in v && f.fingerprint == x;
        var j :| 0 <= j < |w| && w[j] == f;
      }
      if x in Fingerprints(w) {
        var f :| f in w && f.fingerprint == x;
        var j :| 0 <= j < |v| && v[j] == f;
      }
    }
  }

  /** The canonical form forgets exactly the order of the entries and the
      evidence: two valid outputs have the same one if and only if they have the
      same entries. */
  lemma CanonicalIsNormalForm(o: ScannerOutput, p: ScannerOutput)
    requires ObservationsOk(o.observations) && CoverageOk(o.coverage)
    ensures Canonical(o) == Canonical(p) <==> SameEntries(o, p)
  {
    hide ObservationsOk, CoverageOk, LeqObservation, LeqCoverage, LeqFinding, LeqText, SortBy;
    DistinctEntries(o);
    ObservationOrder(o.observations);
    CoverageOrder(o.coverage);
    RedactedOrder(o.findings);
    TextIsOrder();
    TextOrderOn(o.warnings);
    SortIsNormalForm(o.observations, p.observations, LeqObservation);
    SortIsNormalForm(o.coverage, p.coverage, LeqCoverage);
    SortIsNormalForm(RedactAll(o.findings), RedactAll(p.findings), LeqFinding);
    SortIsNormalForm(o.warnings, p.warnings, LeqText);
  }

  lemma DistinctEntries(o: ScannerOutput)
    requires ObservationsOk(o.observations) && CoverageOk(o.coverage)
    ensures DistinctBy(o.observations, CheckOf) && DistinctBy(o.coverage, GroupOf)
  {
  }

  /** Outputs with the same entries have the same projection. */
  lemma SameEntriesSameProjection(o: ScannerOutput, p: ScannerOutput)
    requires ObservationsOk(o.observations) && CoverageOk(o.coverage) && SameEntries(o, p)
    ensures Projected(o) == Projected(p)
  {
    hide ObservationsOk, CoverageOk, LeqObservation, LeqCoverage, SortBy, RedactAll;
    DistinctEntries(o);
    ObservationOrder(o.observations);
    CoverageOrder(o.coverage);
    SortIsNormalForm(o.observations, p.observations, LeqObservation);
    SortIsNormalForm(o.coverage, p.coverage, LeqCoverage);
    RedactedFingerprints(o.findings);
    RedactedFingerprints(p.findings);
    SameFingerprints(RedactAll(o.findings), RedactAll(p.findings));
    SameElements(o.warnings, p.warnings);
  }

  // ---- the canonical form is valid and a fixpoint --------------------------

  lemma {:induction false} RedactTwice(v: seq<Finding>)
    requires forall i | 0 <= i < |v| :: v[i] == Redact(v[i])
    ensures RedactAll(v) == v
  {
  }

  lemma RedactedAll(v: seq<Finding>)
    ensures var s := SortBy(RedactAll(v), LeqFinding);
            (forall i | 0 <= i < |s| :: s[i] == Redact(s[i])) && RedactAll(s) == s
  {
    var r := RedactAll(v);
    var s := SortBy(r, LeqFinding);
    SortPermutes(r, LeqFinding);
    SameElements(s, r);
    forall i | 0 <= i < |s|
      ensures s[i] == Redact(s[i])
    {
      assert s[i] in r;
    }
    RedactTwice(s);
  }

  lemma CanonicalHasSameEntries(o: ScannerOutput)
    ensures SameEntries(Canonical(o), o)
  {
    hide LeqObservation, LeqCoverage, LeqFinding, LeqText, SortBy;
    SortPermutes(o.observations, LeqObservation);
    SortPermutes(RedactAll(o.findings), LeqFinding);
    SortPermutes(o.coverage, LeqCoverage);
    SortPermutes(o.warnings, LeqText);
    RedactedAll(o.findings);
  }

  /** Distinctness of keys does not depend on the order. */
  lemma DistinctPermutes<T, K>(s: seq<T>, t: seq<T>, key: T -> K)
    requires multiset(s) == multiset(t) && DistinctBy(s, key)
    ensures DistinctBy(t, key)
  {
    forall i, j | 0 <= i < j < |t|
      ensures key(t[i]) != key(t[j])
    {
      if key(t[i]) == key(t[j]) {
        TwoOf(t, i, j);
        var _, _ := TwoPlaces(s, t[i], t[j]);
      }
    }
  }

  lemma TwoOf<T>(t: seq<T>, i: nat, j: nat)
    requires i < j < |t|
    ensures multiset{t[i], t[j]} <= multiset(t)
  {
    assert t == t[..i] + [t[i]] + t[i + 1..j] + [t[j]] + t[j + 1..];
  }

  lemma RemoveAt<T>(s: seq<T>, i: nat)
    requires i < |s|
    ensures multiset(s) == multiset(s[..i] + s[i + 1..]) + multiset{s[i]}
  {
    assert s == s[..i] + [s[i]] + s[i + 1..];
  }

  /** Two entries of a multiset stand at two places of the sequence. */
  lemma TwoPlaces<T>(s: seq<T>, x: T, y: T) returns (i: nat, j: nat)
    requires multiset{x, y} <= multiset(s)
    ensures i < |s| && j < |s| && i != j && s[i] == x && s[j] == y
  {
    assert x in multiset{x, y};
    assert x in multiset(s);
    i :| 0 <= i < |s| && s[i] == x;
    var rest := s[..i] + s[i + 1..];
    RemoveAt(s, i);
    assert y in rest by {
      assert multiset{x, y}[y] == multiset{x}[y] + 1;
      assert multiset(s)[y] == multiset(rest)[y] + multiset{x}[y];
      assert multiset(rest)[y] > 0;
    }
    var k :| 0 <= k < |rest| && rest[k] == y;
    j := if k < i then k else k + 1;
  }

  lemma AllPermutes<T>(s: seq<T>, t: seq<T>, ok: T -> bool)
    requires multiset(s) == multiset(t) && forall i | 0 <= i < |s| :: ok(s[i])
    ensures forall i | 0 <= i < |t| :: ok(t[i])
  {
    SameElements(s, t);
    forall i | 0 <= i < |t|
      ensures ok(t[i])
    {
      assert t[i] in s;
    }
  }

  lemma CanonicalListsOk(o: ScannerOutput)
    requires ObservationsOk(o.observations) && CoverageOk(o.coverage) && WarningsOk(o.warnings)
    ensures ObservationsOk(Canonical(o).observations) && CoverageOk(Canonical(o).coverage)
    ensures WarningsOk(Canonical(o).warnings)
  {
    hide LeqObservation, LeqCoverage, LeqText, SortBy, MachineCode;
    SortPermutes(o.observations, LeqObservation);
    SortPermutes(o.coverage, LeqCoverage);
    SortPermutes(o.warnings, LeqText);
    DistinctPermutes(o.observations, Canonical(o).observations, CheckOf);
    DistinctPermutes(o.coverage, Canonical(o).coverage, GroupOf);
    DistinctPermutes(o.warnings, Canonical(o).warnings, x => x);
    AllPermutes(o.warnings, Canonical(o).warnings, MachineCode);
  }

  lemma CanonicalFindingsOk(v: seq<Finding>)
    requires FindingsOk(v)
    ensures FindingsOk(SortBy(RedactAll(v), LeqFinding))
  {
    hide LeqFinding, SortBy;
    SortPermutes(RedactAll(v), LeqFinding);
    AllPermutes(RedactAll(v), SortBy(RedactAll(v), LeqFinding), FindingOk);
  }

  /** A valid output's canonical form is valid, is its own canonical form, and
      has the same projection. */
  lemma CanonicalFixpoint(o: ScannerOutput, canonicalHost: Host -> bool)
    requires OutputOk(o, canonicalHost)
    ensures OutputOk(Canonical(o), canonicalHost)
    ensures Canonical(Canonical(o)) == Canonical(o)
    ensures Projected(Canonical(o)) == Projected(o)
  {
    CanonicalListsOk(o);
    CanonicalFindingsOk(o.findings);
    hide ObservationsOk, CoverageOk, WarningsOk, FindingsOk, SameEntries, Canonical, Projected;
    CanonicalHasSameEntries(o);
    CanonicalIsNormalForm(Canonical(o), o);
    SameEntriesSameProjection(Canonical(o), o);
    CanonicalMetadata(o);
  }

  lemma CanonicalMetadata(o: ScannerOutput)
    ensures Canonical(o).host == o.host && Canonical(o).durationMs == o.durationMs
    ensures Canonical(o).requestCount == o.requestCount
    ensures Canonical(o).findings == SortBy(RedactAll(o.findings), LeqFinding)
  {
  }

  /** Permuting the entries of any list, or changing evidence to any other valid
      text, changes neither the canonical form nor the projection. */
  lemma OrderAndEvidenceIrrelevant(o: ScannerOutput, p: ScannerOutput, canonicalHost: Host -> bool)
    requires OutputOk(o, canonicalHost) && OutputOk(p, canonicalHost) && SameEntries(o, p)
    ensures Canonical(o) == Canonical(p) && Projected(o) == Projected(p)
  {
    hide Canonical, Projected, SameEntries;
    CanonicalIsNormalForm(o, p);
    SameEntriesSameProjection(o, p);
  }

  /** The bytes that stand for any evidence. */
  function RedactedBytes(): Bytes {
    Ascii("[REDACTED:UNTRUSTED_EVIDENCE]")
  }

  /** What the canonical form keeps and what it replaces. */
  ghost predicate IsCanonicalOf(c: ScannerOutput, o: ScannerOutput) {
    && c.host == o.host && c.durationMs == o.durationMs && c.requestCount == o.requestCount
    && multiset(c.observations) == multiset(o.observations)
    && (forall i, j | 0 <= i < j < |c.observations| :: CheckRank(c.observations[i].check) < CheckRank(c.observations[j].check))
    && multiset(c.coverage) == multiset(o.coverage)
    && (forall i, j | 0 <= i < j < |c.coverage| :: GroupRank(c.coverage[i].group) < GroupRank(c.coverage[j].group))
    && multiset(c.warnings) == multiset(o.warnings) && SortedBy(c.warnings, LeqText)
    && (forall f | f in c.findings :: f.evidence == RedactedBytes())
    && (forall f, severity, confidence :: Reports(c.findings, f, severity, confidence) <==> Reports(o.findings, f, severity, confidence))
    && |c.findings| == |o.findings|
    && SortedBy(c.findings, LeqFinding)
  }

  ghost predicate Reports(v: seq<Finding>, fingerprint: string, severity: Severity, confidence: int) {
    exists f | f in v :: f.fingerprint == fingerprint && f.severity == severity && f.confidence == confidence
  }

  lemma RedactedReports(v: seq<Finding>, c: seq<Finding>, fingerprint: string, severity: Severity, confidence: int)
    requires multiset(c) == multiset(RedactAll(v))
    ensures Reports(c, fingerprint, severity, confidence) <==> Reports(v, fingerprint, severity, confidence)
  {
    var r := RedactAll(v);
    SameElements(c, r);
    if f :| f in c && f.fingerprint == fingerprint && f.severity == severity && f.confidence == confidence {
      var i :| 0 <= i < |r| && r[i] == f;
      assert v[i] in v;
    }
    if f :| f in v && f.fingerprint == fingerprint && f.severity == severity && f.confidence == confidence {
      var i :| 0 <= i < |v| && v[i] == f;
      assert r[i] in r;
    }
  }

  lemma CanonicalFindings(v: seq<Finding>)
    ensures var c := SortBy(RedactAll(v), LeqFinding);
            && (forall f | f in c :: f.evidence == RedactedBytes())
            && (forall f, severity, confidence :: Reports(c, f, severity, confidence) <==> Reports(v, f, severity, confidence))
            && |c| == |v| && SortedBy(c, LeqFinding)
  {
    hide SortBy, LeqFinding, SortedBy, Reports;
    var r := RedactAll(v);
    var c := SortBy(r, LeqFinding);
    SortPermutes(r, LeqFinding);
    FindingOrder();
    SortSorts(r, LeqFinding);
    SameElements(c, r);
    RedactedEvidence(v);
    forall f, severity, confidence
      ensures Reports(c, f, severity, confidence) <==> Reports(v, f, severity, confidence)
    {
      RedactedReports(v, c, f, severity, confidence);
    }
  }

  lemma RedactedEvidence(v: seq<Finding>)
    ensures forall f | f in RedactAll(v) :: f.evidence == RedactedBytes()
  {
  }

  /** The canonical form of a valid output holds its entries in the order of their
      names, with the evidence of every finding redacted. */
  lemma CanonicalMeans(o: ScannerOutput, canonicalHost: Host -> bool)
    requires OutputOk(o, canonicalHost)
    ensures IsCanonicalOf(Canonical(o), o)
  {
    hide SortBy, DistinctBy, LeqText, LeqFinding, FindingOk, MachineCode, SortedBy, Reports, RedactAll;
    ObservationsAscend(o.observations);
    CoverageAscends(o.coverage);
    SortPermutes(o.warnings, LeqText);
    TextIsOrder();
    SortSorts(o.warnings, LeqText);
    CanonicalFindings(o.findings);
  }
}
