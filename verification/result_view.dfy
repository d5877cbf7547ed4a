/** The public view of a result, and the rebuilder that lets no other value out:
    it reads a view back into a projection and accepts it only if building the
    view again gives the very same value. Times are whole seconds. */
module ResultView {
  import opened Basics
  import opened GuestOutput
  import opened GuestProjection

  const MAX_WINDOW_SECONDS := 1_800

  datatype SectionId = Infrastructure | Domain | Mail | Tls | Web

  datatype PublicState = StateComplete | StatePartial | StateNotApplicable | StateUnknown | Unavailable | Missing

  datatype Section = Section(id: SectionId, checks: seq<Observation>)

  datatype PublicGroup = PublicGroup(group: Group, state: PublicState)

  datatype OverallState = AllResolved | SomeUseful | Insufficient

  datatype View = View(
    scan: Id,
    host: Host,
    completed: int,
    expires: int,
    sections: seq<Section>,
    riskCount: int,
    warningCount: int,
    overall: OverallState,
    completeCount: int,
    totalCount: int,
    groups: seq<PublicGroup>)

  /** Access authorised for `remaining` more seconds. */
  datatype Access = Access(scan: Id, expires: int, remaining: int)

  const SECTIONS: seq<SectionId> := [Infrastructure, Domain, Mail, Tls, Web]

  function SectionChecks(id: SectionId): seq<Check> {
    match id
    case Infrastructure => [DnsAaaaPresent, InfraRpki]
    case Domain => [DnsDnssec, DnsCaa, SecurityTxt]
    case Mail => [MailSpf, MailDmarc, MailMtaSts, MailTlsRpt]
    case Tls => [TlsCertificate]
    case Web => [HttpHsts, HttpCsp, HttpXContentTypeOptions, HttpFrameProtection, HttpReferrerPolicy,
                 HttpPermissionsPolicy, HttpProtocol]
  }

  const ALL_GROUPS: seq<Group> := [
    TargetResolution, DnsDomainPosture, TlsCertificatePosture, HttpSecurityPosture,
    MailSecurityPosture, PublicInfrastructure, RdapEnrichment, CtEnrichment]

  const CHECK_COUNT := 17
  const GROUP_COUNT := 8

  // ---- the builder --------------------------------------------------------

  predicate AccessOk(a: Access) {
    ValidId(a.scan) && 1 <= a.expires <= MAX_UNIX_SECONDS && 1 <= a.remaining <= MAX_WINDOW_SECONDS
  }

  predicate ProjectionOk(p: Projection, canonicalHost: Host -> bool) {
    && canonicalHost(p.host)
    && |p.posture| <= CHECK_COUNT && DistinctBy(p.posture, CheckOf)
    && 1 <= |p.coverage| <= GROUP_COUNT && DistinctBy(p.coverage, GroupOf)
    && 0 <= p.riskCount <= MAX_FINDINGS && 0 <= p.warningCount <= MAX_WARNINGS
    && 0 <= p.durationMs <= MAX_DURATION_MS && 0 <= p.requestCount <= MAX_REQUESTS
  }

  method SnapshotProjection(p: Projection, canonicalHost: Host -> bool) returns (ok: bool)
    ensures ok == ProjectionOk(p, canonicalHost)
  {
    if !canonicalHost(p.host) || |p.posture| > CHECK_COUNT {
      return false;
    }
    var seenChecks: set<Check> := {};
    for i := 0 to |p.posture|
      invariant forall c :: c in seenChecks <==> exists j | 0 <= j < i :: p.posture[j].check == c
      invariant forall j, k | 0 <= j < k < i :: CheckOf(p.posture[j]) != CheckOf(p.posture[k])
    {
      if p.posture[i].check in seenChecks {
        var j :| 0 <= j < i && p.posture[j].check == p.posture[i].check;
        assert CheckOf(p.posture[j]) == CheckOf(p.posture[i]);
        return false;
      }
      seenChecks := seenChecks + {p.posture[i].check};
    }
    if |p.coverage| < 1 || |p.coverage| > GROUP_COUNT {
      return false;
    }
    var seenCoverage: set<Group> := {};
    for i := 0 to |p.coverage|
      invariant forall c :: c in seenCoverage <==> exists j | 0 <= j < i :: p.coverage[j].group == c
      invariant forall j, k | 0 <= j < k < i :: GroupOf(p.coverage[j]) != GroupOf(p.coverage[k])
    {
      if p.coverage[i].group in seenCoverage {
        var j :| 0 <= j < i && p.coverage[j].group == p.coverage[i].group;
        assert GroupOf(p.coverage[j]) == GroupOf(p.coverage[i]);
        return false;
      }
      seenCoverage := seenCoverage + {p.coverage[i].group};
    }
    return 0 <= p.riskCount <= MAX_FINDINGS && 0 <= p.warningCount <= MAX_WARNINGS
        && 0 <= p.durationMs <= MAX_DURATION_MS && 0 <= p.requestCount <= MAX_REQUESTS;
  }

  /** `new Map(...)` and `get`: the last entry for a check. */
  function FindCheck(posture: seq<Observation>, c: Check): Option<Observation> {
    if posture == [] then None
    else if posture[|posture| - 1].check == c then Some(posture[|posture| - 1])
    else FindCheck(posture[..|posture| - 1], c)
  }

  function FindGroup(coverage: seq<Coverage>, g: Group): Option<Coverage> {
    if coverage == [] then None
    else if coverage[|coverage| - 1].group == g then Some(coverage[|coverage| - 1])
    else FindGroup(coverage[..|coverage| - 1], g)
  }

  function Pick(checks: seq<Check>, posture: seq<Observation>): seq<Observation> {
    if checks == [] then []
    else
      var found := FindCheck(posture, checks[|checks| - 1]);
      Pick(checks[..|checks| - 1], posture) + (if found.Some? then [found.value] else [])
  }

  function SectionOf(id: SectionId, posture: seq<Observation>): Section {
    Section(id, Pick(SectionChecks(id), posture))
  }

  function SectionsOf(posture: seq<Observation>): seq<Section> {
    [SectionOf(Infrastructure, posture), SectionOf(Domain, posture), SectionOf(Mail, posture), SectionOf(Tls, posture),
     SectionOf(Web, posture)]
  }

  function PublicStateOf(execution: Execution, completeness: Completeness): PublicState {
    if completeness == NotApplicable then StateNotApplicable
    else if execution != ExecSuccess then Unavailable
    else
      match completeness
      case Complete => StateComplete
      case Partial => StatePartial
      case NotApplicable => StateNotApplicable
      case Unknown => StateUnknown
  }

  function GroupState(coverage: seq<Coverage>, g: Group): PublicState {
    var found := FindGroup(coverage, g);
    if found.Some? then PublicStateOf(found.value.execution, found.value.completeness) else Missing
  }

  function GroupsOf(coverage: seq<Coverage>, groups: seq<Group>): (r: seq<PublicGroup>)
    ensures |r| == |groups|
    ensures forall i | 0 <= i < |r| :: r[i] == PublicGroup(groups[i], GroupState(coverage, groups[i]))
  {
    if groups == [] then []
    else
      var g := groups[|groups| - 1];
      GroupsOf(coverage, groups[..|groups| - 1]) + [PublicGroup(g, GroupState(coverage, g))]
  }

  function CountStates(groups: seq<PublicGroup>, states: set<PublicState>): nat {
    if groups == [] then 0
    else CountStates(groups[..|groups| - 1], states) + (if groups[|groups| - 1].state in states then 1 else 0)
  }

  function Overall(groups: seq<PublicGroup>): OverallState {
    if CountStates(groups, {StateComplete, StateNotApplicable}) == |groups| then AllResolved
    else if CountStates(groups, {StateComplete, StatePartial}) > 0 then SomeUseful
    else Insufficient
  }

  function CreateView(a: Access, completed: int, p: Projection, canonicalHost: Host -> bool): Option<View> {
    if !AccessOk(a) || !ProjectionOk(p, canonicalHost) || !(0 <= completed <= MAX_UNIX_SECONDS) then None
    else if completed > a.expires - a.remaining then None
    else
      var groups := GroupsOf(p.coverage, ALL_GROUPS);
      Some(View(a.scan, p.host, completed, a.expires, SectionsOf(p.posture), p.riskCount, p.warningCount,
                Overall(groups), CountStates(groups, {StateComplete}), |groups|, groups))
  }

  // ---- the rebuilder ------------------------------------------------------

  function FlatChecks(sections: seq<Section>): seq<Observation> {
    if sections == [] then [] else FlatChecks(sections[..|sections| - 1]) + sections[|sections| - 1].checks
  }

  /** The coverage entry that a public state is read as. */
  function Reread(g: PublicGroup): seq<Coverage> {
    match g.state
    case Missing => []
    case Unavailable => [Coverage(g.group, ExecFailed, Unknown)]
    case StateComplete => [Coverage(g.group, ExecSuccess, Complete)]
    case StatePartial => [Coverage(g.group, ExecSuccess, Partial)]
    case StateNotApplicable => [Coverage(g.group, ExecSuccess, NotApplicable)]
    case StateUnknown => [Coverage(g.group, ExecSuccess, Unknown)]
  }

  function RereadAll(groups: seq<PublicGroup>): seq<Coverage> {
    if groups == [] then [] else RereadAll(groups[..|groups| - 1]) + Reread(groups[|groups| - 1])
  }

  /** The projection a view is read back into; execution metadata is private. */
  function ReadBack(v: View): Projection {
    Projection(v.host, FlatChecks(v.sections), v.riskCount, RereadAll(v.groups), v.warningCount, 0, 0)
  }

  function Rebuild(v: View, scan: Id, now: int, canonicalHost: Host -> bool): Option<View> {
    if v.expires <= now || v.expires - now > MAX_WINDOW_SECONDS || v.completed > now || v.completed < 0 then None
    else if |v.sections| != |SECTIONS| || |v.groups| != GROUP_COUNT
            || exists i | 0 <= i < |v.sections| :: |v.sections[i].checks| > CHECK_COUNT then None
    else
      var rebuilt := CreateView(Access(scan, v.expires, v.expires - now), v.completed, ReadBack(v), canonicalHost);
      if rebuilt == Some(v) then rebuilt else None
  }

  // ---- sections partition the checks --------------------------------------

  const ALL_CHECKS: seq<Check> :=
    SectionChecks(Infrastructure) + SectionChecks(Domain) + SectionChecks(Mail) + SectionChecks(Tls) + SectionChecks(Web)

  function Self(c: Check): Check { c }

  lemma SectionsPartition()
    ensures |ALL_CHECKS| == CHECK_COUNT && DistinctBy(ALL_CHECKS, Self)
    ensures forall c: Check :: c in ALL_CHECKS
  {
    forall c: Check
      ensures |ALL_CHECKS| == CHECK_COUNT && c in ALL_CHECKS
    {
      AllListed(c);
    }
    hide SectionChecks, Place;
    var size := |ALL_CHECKS|;
    AllListed(TlsCertificate);
    forall i, j | 0 <= i < j < size
      ensures Self(ALL_CHECKS[i]) != Self(ALL_CHECKS[j])
    {
      PlaceOf(i);
      PlaceOf(j);
    }
  }

  lemma PlaceOf(i: nat)
    requires i < 17
    ensures |ALL_CHECKS| == 17 && Place(ALL_CHECKS[i]) == i
  {
    var all := [DnsAaaaPresent, InfraRpki, DnsDnssec, DnsCaa, SecurityTxt, MailSpf, MailDmarc, MailMtaSts, MailTlsRpt,
                TlsCertificate, HttpHsts, HttpCsp, HttpXContentTypeOptions, HttpFrameProtection, HttpReferrerPolicy,
                HttpPermissionsPolicy, HttpProtocol];
    assert ALL_CHECKS == all;
  }

  /** Place of a check in the order of the sections. */
  function Place(c: Check): nat {
    match c
    case DnsAaaaPresent => 0
    case InfraRpki => 1
    case DnsDnssec => 2
    case DnsCaa => 3
    case SecurityTxt => 4
    case MailSpf => 5
    case MailDmarc => 6
    case MailMtaSts => 7
    case MailTlsRpt => 8
    case TlsCertificate => 9
    case HttpHsts => 10
    case HttpCsp => 11
    case HttpXContentTypeOptions => 12
    case HttpFrameProtection => 13
    case HttpReferrerPolicy => 14
    case HttpPermissionsPolicy => 15
    case HttpProtocol => 16
  }

  lemma AllListed(c: Check)
    ensures |ALL_CHECKS| == CHECK_COUNT && ALL_CHECKS[Place(c)] == c
  {
  }

  lemma {:induction false} PickAppend(a: seq<Check>, b: seq<Check>, posture: seq<Observation>)
    ensures Pick(a + b, posture) == Pick(a, posture) + Pick(b, posture)
  {
    if b == [] {
      assert a + b == a;
    } else {
      var init := b[..|b| - 1];
      PickAppend(a, init, posture);
      assert (a + b)[..|a + b| - 1] == a + init;
    }
  }

  /** The checks of the sections together are one pick of all checks. */
  lemma FlatIsPick(posture: seq<Observation>)
    ensures FlatChecks(SectionsOf(posture)) == Pick(ALL_CHECKS, posture)
  {
    hide Pick;
    var s := SectionsOf(posture);
    FlatFive(s);
    PickAppend(SectionChecks(Infrastructure), SectionChecks(Domain), posture);
    PickAppend(SectionChecks(Infrastructure) + SectionChecks(Domain), SectionChecks(Mail), posture);
    PickAppend(SectionChecks(Infrastructure) + SectionChecks(Domain) + SectionChecks(Mail), SectionChecks(Tls), posture);
    PickAppend(SectionChecks(Infrastructure) + SectionChecks(Domain) + SectionChecks(Mail) + SectionChecks(Tls),
               SectionChecks(Web), posture);
  }

  lemma FlatFive(s: seq<Section>)
    requires |s| == 5
    ensures FlatChecks(s) == s[0].checks + s[1].checks + s[2].checks + s[3].checks + s[4].checks
  {
    assert s[..4][..3] == s[..3] && s[..3][..2] == s[..2] && s[..2][..1] == s[..1] && s[..1][..0] == [];
    assert FlatChecks(s[..1]) == s[0].checks;
    assert FlatChecks(s[..2]) == s[0].checks + s[1].checks;
    assert FlatChecks(s[..3]) == s[0].checks + s[1].checks + s[2].checks;
    assert FlatChecks(s[..4]) == s[0].checks + s[1].checks + s[2].checks + s[3].checks;
  }

  lemma {:induction false} FoundIsOwn(posture: seq<Observation>, c: Check)
    ensures FindCheck(posture, c).Some? ==> FindCheck(posture, c).value.check == c
  {
    if posture != [] {
      FoundIsOwn(posture[..|posture| - 1], c);
    }
  }

  /** A pick finds what the posture held, for the checks it asked for. */
  lemma {:induction false} FindInPick(checks: seq<Check>, posture: seq<Observation>, c: Check)
    requires DistinctBy(checks, Self)
    ensures FindCheck(Pick(checks, posture), c) == if c in checks then FindCheck(posture, c) else None
    ensures |Pick(checks, posture)| <= |checks|
  {
    if checks != [] {
      var init := checks[..|checks| - 1];
      var last := checks[|checks| - 1];
      assert DistinctBy(init, Self);
      FindInPick(init, posture, c);
      FoundIsOwn(posture, last);
      LastIsNew(checks);
      assert checks == init + [last];
      var found := FindCheck(posture, last);
      if found.Some? {
        assert (Pick(init, posture) + [found.value])[..|Pick(init, posture)|] == Pick(init, posture);
      } else {
        assert Pick(checks, posture) == Pick(init, posture);
      }
    }
  }

  lemma LastIsNew(checks: seq<Check>)
    requires checks != [] && DistinctBy(checks, Self)
    ensures checks[|checks| - 1] !in checks[..|checks| - 1]
  {
    forall i | 0 <= i < |checks| - 1
      ensures checks[i] != checks[|checks| - 1]
    {
      assert Self(checks[i]) != Self(checks[|checks| - 1]);
    }
  }

  lemma {:induction false} PickDistinct(checks: seq<Check>, posture: seq<Observation>)
    requires DistinctBy(checks, Self)
    ensures DistinctBy(Pick(checks, posture), CheckOf)
    ensures forall i | 0 <= i < |Pick(checks, posture)| :: Pick(checks, posture)[i].check in checks
  {
    if checks != [] {
      var init := checks[..|checks| - 1];
      PickDistinct(init, posture);
      FoundIsOwn(posture, checks[|checks| - 1]);
      LastIsNew(checks);
    }
  }

  lemma {:induction false} SamePick(checks: seq<Check>, a: seq<Observation>, b: seq<Observation>)
    requires forall c :: FindCheck(a, c) == FindCheck(b, c)
    ensures Pick(checks, a) == Pick(checks, b)
  {
    if checks != [] {
      SamePick(checks[..|checks| - 1], a, b);
    }
  }

  /** Reading the sections back loses nothing that the sections show. */
  lemma PostureComesBack(posture: seq<Observation>)
    ensures var back := FlatChecks(SectionsOf(posture));
            SectionsOf(back) == SectionsOf(posture) && DistinctBy(back, CheckOf) && |back| <= CHECK_COUNT
  {
    hide Pick, FlatChecks, FindCheck, SectionChecks;
    SectionsPartition();
    FlatIsPick(posture);
    var back := Pick(ALL_CHECKS, posture);
    PickDistinct(ALL_CHECKS, posture);
    FindInPick(ALL_CHECKS, posture, TlsCertificate);
    forall c
      ensures FindCheck(back, c) == FindCheck(posture, c)
    {
      FindInPick(ALL_CHECKS, posture, c);
    }
    SamePick(SectionChecks(Infrastructure), back, posture);
    SamePick(SectionChecks(Domain), back, posture);
    SamePick(SectionChecks(Mail), back, posture);
    SamePick(SectionChecks(Tls), back, posture);
    SamePick(SectionChecks(Web), back, posture);
  }

  // ---- the coverage mapping is a retraction --------------------------------

  function SelfGroup(g: Group): Group { g }

  lemma GroupsListed(g: Group)
    ensures g in ALL_GROUPS && DistinctBy(ALL_GROUPS, SelfGroup)
  {
    assert ALL_GROUPS[0] == TargetResolution && ALL_GROUPS[1] == DnsDomainPosture && ALL_GROUPS[2] == TlsCertificatePosture;
    assert ALL_GROUPS[3] == HttpSecurityPosture && ALL_GROUPS[4] == MailSecurityPosture;
    assert ALL_GROUPS[5] == PublicInfrastructure && ALL_GROUPS[6] == RdapEnrichment && ALL_GROUPS[7] == CtEnrichment;
  }

  lemma RereadStates(g: PublicGroup)
    ensures g.state != Missing ==>
              |Reread(g)| == 1 && Reread(g)[0].group == g.group
              && PublicStateOf(Reread(g)[0].execution, Reread(g)[0].completeness) == g.state
  {
  }

  /** Reading one more group back. */
  lemma OneMoreGroup(coverage: seq<Coverage>, groups: seq<Group>)
    requires groups != []
    ensures var last := groups[|groups| - 1];
            RereadAll(GroupsOf(coverage, groups))
            == RereadAll(GroupsOf(coverage, groups[..|groups| - 1]))
               + Reread(PublicGroup(last, GroupState(coverage, last)))
  {
    hide Reread, GroupState;
    var shown := GroupsOf(coverage, groups);
    assert shown[..|shown| - 1] == GroupsOf(coverage, groups[..|groups| - 1]);
  }

  lemma RereadShape(g: PublicGroup)
    ensures |Reread(g)| <= 1 && (Reread(g) == [] <==> g.state == Missing)
    ensures forall i | 0 <= i < |Reread(g)| :: Reread(g)[i].group == g.group
  {
  }

  /** No entry of the coverage is for this group. */
  predicate Without(coverage: seq<Coverage>, g: Group) {
    forall i | 0 <= i < |coverage| :: coverage[i].group != g
  }

  lemma AppendDistinct(coverage: seq<Coverage>, more: seq<Coverage>, g: Group)
    requires DistinctBy(coverage, GroupOf) && |more| <= 1
    requires Without(coverage, g) && forall i | 0 <= i < |more| :: more[i].group == g
    ensures DistinctBy(coverage + more, GroupOf)
  {
  }

  /** Entries come back for the listed groups only. */
  lemma {:induction false} OthersStayAway(coverage: seq<Coverage>, groups: seq<Group>, g: Group)
    requires g !in groups
    ensures Without(RereadAll(GroupsOf(coverage, groups)), g)
    ensures |RereadAll(GroupsOf(coverage, groups))| <= |groups|
  {
    hide Reread, GroupState, RereadAll;
    if groups != [] {
      var last := groups[|groups| - 1];
      OthersStayAway(coverage, groups[..|groups| - 1], g);
      OneMoreGroup(coverage, groups);
      RereadShape(PublicGroup(last, GroupState(coverage, last)));
    } else {
      NothingReread();
    }
  }

  lemma NothingReread()
    ensures RereadAll([]) == []
  {
  }

  lemma {:induction false} GroupsStayDistinct(coverage: seq<Coverage>, groups: seq<Group>)
    requires DistinctBy(groups, SelfGroup)
    ensures DistinctBy(RereadAll(GroupsOf(coverage, groups)), GroupOf)
    ensures |RereadAll(GroupsOf(coverage, groups))| <= |groups|
  {
    hide Reread, GroupState, RereadAll, DistinctBy, Without, GroupsOf;
    NothingReread();
    NoGroups(coverage);
    if groups != [] {
      var init := groups[..|groups| - 1];
      var last := groups[|groups| - 1];
      LastGroupIsNew(groups);
      GroupsStayDistinct(coverage, init);
      OneMoreGroup(coverage, groups);
      OthersStayAway(coverage, init, last);
      RereadShape(PublicGroup(last, GroupState(coverage, last)));
      AppendDistinct(RereadAll(GroupsOf(coverage, init)), Reread(PublicGroup(last, GroupState(coverage, last))), last);
    }
  }

  lemma NoGroups(coverage: seq<Coverage>)
    ensures GroupsOf(coverage, []) == []
    ensures DistinctBy<Coverage, Group>([], GroupOf)
  {
  }

  /** Reading the groups back finds each shown group again, and nothing else. */
  lemma {:induction false} GroupsAreFound(coverage: seq<Coverage>, groups: seq<Group>, g: Group)
    requires DistinctBy(groups, SelfGroup)
    ensures FindGroup(RereadAll(GroupsOf(coverage, groups)), g)
            == (if g in groups && GroupState(coverage, g) != Missing
                then Some(Reread(PublicGroup(g, GroupState(coverage, g)))[0]) else None)
  {
    hide Reread, GroupState, RereadAll, DistinctBy, GroupsOf, FindGroup;
    NothingReread();
    NoGroups(coverage);
    NothingFound([], g);
    if groups != [] {
      var init := groups[..|groups| - 1];
      var last := groups[|groups| - 1];
      LastGroupIsNew(groups);
      GroupsAreFound(coverage, init, g);
      OneMoreGroup(coverage, groups);
      RereadShape(PublicGroup(last, GroupState(coverage, last)));
      AppendCoverage(RereadAll(GroupsOf(coverage, init)), Reread(PublicGroup(last, GroupState(coverage, last))), g);
      assert groups == init + [last];
    }
  }

  /** Each group is given the state it was shown with. */
  lemma GroupsComeBack(coverage: seq<Coverage>, g: Group)
    ensures GroupState(RereadAll(GroupsOf(coverage, ALL_GROUPS)), g) == GroupState(coverage, g)
  {
    hide RereadAll, FindGroup, GroupsOf;
    GroupsListed(g);
    GroupsAreFound(coverage, ALL_GROUPS, g);
    RereadStates(PublicGroup(g, GroupState(coverage, g)));
  }

  lemma AppendCoverage(coverage: seq<Coverage>, more: seq<Coverage>, g: Group)
    requires |more| <= 1
    ensures FindGroup(coverage + more, g)
            == if |more| == 1 && more[0].group == g then Some(more[0]) else FindGroup(coverage, g)
  {
    if |more| == 1 {
      assert (coverage + more)[..|coverage|] == coverage;
    } else {
      assert coverage + more == coverage;
    }
  }

  lemma LastGroupIsNew(groups: seq<Group>)
    requires groups != [] && DistinctBy(groups, SelfGroup)
    ensures groups[|groups| - 1] !in groups[..|groups| - 1]
    ensures DistinctBy(groups[..|groups| - 1], SelfGroup)
  {
    forall i | 0 <= i < |groups| - 1
      ensures groups[i] != groups[|groups| - 1]
    {
      assert SelfGroup(groups[i]) != SelfGroup(groups[|groups| - 1]);
    }
  }

  lemma CoverageComesBack(coverage: seq<Coverage>)
    requires coverage != []
    ensures var back := RereadAll(GroupsOf(coverage, ALL_GROUPS));
            && GroupsOf(back, ALL_GROUPS) == GroupsOf(coverage, ALL_GROUPS)
            && 1 <= |back| <= GROUP_COUNT && DistinctBy(back, GroupOf)
  {
    hide GroupState, RereadAll, FindGroup, DistinctBy;
    var back := RereadAll(GroupsOf(coverage, ALL_GROUPS));
    forall g: Group
      ensures GroupState(back, g) == GroupState(coverage, g)
    {
      GroupsComeBack(coverage, g);
    }
    var first := coverage[|coverage| - 1].group;
    GroupsListed(first);
    GroupsStayDistinct(coverage, ALL_GROUPS);
    LastIsFound(coverage);
    NothingFound(back, first);
  }

  lemma LastIsFound(coverage: seq<Coverage>)
    requires coverage != []
    ensures GroupState(coverage, coverage[|coverage| - 1].group) != Missing
  {
  }

  lemma NothingFound(coverage: seq<Coverage>, g: Group)
    ensures coverage == [] ==> FindGroup(coverage, g).None? && GroupState(coverage, g) == Missing
  {
  }

  // ---- what a view shows --------------------------------------------------

  /** The section in which a check is shown. */
  function SectionFor(c: Check): SectionId {
    match c
    case DnsAaaaPresent | InfraRpki => Infrastructure
    case DnsDnssec | DnsCaa | SecurityTxt => Domain
    case MailSpf | MailDmarc | MailMtaSts | MailTlsRpt => Mail
    case TlsCertificate => Tls
    case HttpHsts | HttpCsp | HttpXContentTypeOptions | HttpFrameProtection | HttpReferrerPolicy | HttpPermissionsPolicy
      | HttpProtocol => Web
  }

  /** A section shows each observation of its own checks once, and nothing else. */
  ghost predicate ShowsSection(s: Section, id: SectionId, posture: seq<Observation>) {
    && s.id == id
    && (forall o: Observation :: o in s.checks <==> o in posture && SectionFor(o.check) == id)
    && DistinctBy(s.checks, CheckOf)
  }

  /** What a group's entry in the coverage, if any, is shown as. */
  ghost predicate ShowsGroup(g: PublicGroup, coverage: seq<Coverage>) {
    && (g.state == Missing <==> forall c | c in coverage :: c.group != g.group)
    && forall c | c in coverage && c.group == g.group ::
         && (g.state == StateNotApplicable <==> c.completeness == NotApplicable)
         && (g.state == Unavailable <==> c.completeness != NotApplicable && c.execution != ExecSuccess)
         && (g.state == StateComplete <==> c.execution == ExecSuccess && c.completeness == Complete)
         && (g.state == StatePartial <==> c.execution == ExecSuccess && c.completeness == Partial)
         && (g.state == StateUnknown <==> c.execution == ExecSuccess && c.completeness == Unknown)
  }

  ghost function InState(groups: seq<PublicGroup>, states: set<PublicState>): set<nat> {
    set i: nat | i < |groups| && groups[i].state in states
  }

  /** The eight groups in their order, each with its state. */
  ghost predicate ShowsGroups(groups: seq<PublicGroup>, coverage: seq<Coverage>) {
    && |groups| == 8
    && groups[0].group == TargetResolution && groups[1].group == DnsDomainPosture
    && groups[2].group == TlsCertificatePosture && groups[3].group == HttpSecurityPosture
    && groups[4].group == MailSecurityPosture && groups[5].group == PublicInfrastructure
    && groups[6].group == RdapEnrichment && groups[7].group == CtEnrichment
    && forall i | 0 <= i < 8 :: ShowsGroup(groups[i], coverage)
  }

  /** All groups resolved, or some useful, or neither. */
  ghost predicate ShowsOverall(overall: OverallState, groups: seq<PublicGroup>) {
    && (overall == AllResolved <==> forall i | 0 <= i < |groups| :: groups[i].state in {StateComplete, StateNotApplicable})
    && (overall == SomeUseful <==>
          && (exists i | 0 <= i < |groups| :: groups[i].state in {StateComplete, StatePartial})
          && exists i | 0 <= i < |groups| :: groups[i].state !in {StateComplete, StateNotApplicable})
  }

  ghost predicate ShowsSections(sections: seq<Section>, posture: seq<Observation>) {
    && |sections| == 5
    && ShowsSection(sections[0], Infrastructure, posture) && ShowsSection(sections[1], Domain, posture)
    && ShowsSection(sections[2], Mail, posture) && ShowsSection(sections[3], Tls, posture)
    && ShowsSection(sections[4], Web, posture)
  }

  /** Every field of the view, in terms of the access, the time and the projection. */
  ghost predicate Shows(v: View, a: Access, completed: int, p: Projection) {
    && v.scan == a.scan && v.host == p.host && v.completed == completed && v.expires == a.expires
    && v.riskCount == p.riskCount && v.warningCount == p.warningCount
    && ShowsSections(v.sections, p.posture)
    && ShowsGroups(v.groups, p.coverage)
    && v.totalCount == 8 && v.completeCount == |InState(v.groups, {StateComplete})|
    && ShowsOverall(v.overall, v.groups)
  }

  lemma {:induction false} FoundCheck(posture: seq<Observation>, c: Check)
    requires DistinctBy(posture, CheckOf)
    ensures forall o: Observation :: FindCheck(posture, c) == Some(o) <==> o in posture && o.check == c
  {
    if posture != [] {
      var init := posture[..|posture| - 1];
      var last := posture[|posture| - 1];
      FoundCheck(init, c);
      forall o: Observation
        ensures o in posture <==> o in init || o == last
      {
        assert posture == init + [last];
      }
      forall o: Observation | o in init
        ensures o.check != last.check
      {
        var i :| 0 <= i < |init| && init[i] == o;
        assert CheckOf(posture[i]) != CheckOf(posture[|posture| - 1]);
      }
    }
  }

  lemma {:induction false} PickHolds(checks: seq<Check>, posture: seq<Observation>)
    requires DistinctBy(posture, CheckOf)
    ensures forall o: Observation :: o in Pick(checks, posture) <==> o in posture && o.check in checks
  {
    hide FindCheck, DistinctBy;
    if checks != [] {
      var last := checks[|checks| - 1];
      PickHolds(checks[..|checks| - 1], posture);
      FoundCheck(posture, last);
      assert checks == checks[..|checks| - 1] + [last];
    }
  }

  lemma ChecksOfSection(id: SectionId)
    ensures forall c: Check :: c in SectionChecks(id) <==> SectionFor(c) == id
    ensures DistinctBy(SectionChecks(id), Self)
  {
    var s := SectionChecks(id);
    forall c: Check
      ensures c in s <==> SectionFor(c) == id
    {
      if SectionFor(c) == id {
        match c {
          case DnsAaaaPresent | DnsDnssec | MailSpf | TlsCertificate | HttpHsts => assert s[0] == c;
          case InfraRpki | DnsCaa | MailDmarc | HttpCsp => assert s[1] == c;
          case SecurityTxt | MailMtaSts | HttpXContentTypeOptions => assert s[2] == c;
          case MailTlsRpt | HttpFrameProtection => assert s[3] == c;
          case HttpReferrerPolicy => assert s[4] == c;
          case HttpPermissionsPolicy => assert s[5] == c;
          case HttpProtocol => assert s[6] == c;
        }
      }
    }
  }

  lemma SectionShows(id: SectionId, posture: seq<Observation>)
    requires DistinctBy(posture, CheckOf)
    ensures ShowsSection(SectionOf(id, posture), id, posture)
  {
    hide Pick, SectionChecks, SectionFor;
    ChecksOfSection(id);
    PickHolds(SectionChecks(id), posture);
    PickDistinct(SectionChecks(id), posture);
  }

  lemma {:induction false} FoundGroup(coverage: seq<Coverage>, g: Group)
    requires DistinctBy(coverage, GroupOf)
    ensures forall c: Coverage :: FindGroup(coverage, g) == Some(c) <==> c in coverage && c.group == g
  {
    if coverage != [] {
      var init := coverage[..|coverage| - 1];
      var last := coverage[|coverage| - 1];
      FoundGroup(init, g);
      forall c: Coverage
        ensures c in coverage <==> c in init || c == last
      {
        assert coverage == init + [last];
      }
      forall c: Coverage | c in init
        ensures c.group != last.group
      {
        var i :| 0 <= i < |init| && init[i] == c;
        assert GroupOf(coverage[i]) != GroupOf(coverage[|coverage| - 1]);
      }
    }
  }

  lemma GroupShows(coverage: seq<Coverage>, g: Group)
    requires DistinctBy(coverage, GroupOf)
    ensures ShowsGroup(PublicGroup(g, GroupState(coverage, g)), coverage)
  {
    hide FindGroup, DistinctBy;
    FoundGroup(coverage, g);
  }

  lemma {:induction false} CountIsSize(groups: seq<PublicGroup>, states: set<PublicState>)
    ensures CountStates(groups, states) == |InState(groups, states)|
  {
    if groups == [] {
      assert InState(groups, states) == {};
    } else {
      var n := |groups| - 1;
      var init := groups[..n];
      CountIsSize(init, states);
      assert forall i: nat | i < n :: init[i] == groups[i];
      if groups[n].state in states {
        assert InState(groups, states) == InState(init, states) + {n};
      } else {
        assert InState(groups, states) == InState(init, states);
      }
    }
  }

  lemma {:induction false} CountAll(groups: seq<PublicGroup>, states: set<PublicState>)
    ensures CountStates(groups, states) <= |groups|
    ensures CountStates(groups, states) == |groups| <==> forall i | 0 <= i < |groups| :: groups[i].state in states
    ensures CountStates(groups, states) > 0 <==> exists i | 0 <= i < |groups| :: groups[i].state in states
  {
    if groups != [] {
      var init := groups[..|groups| - 1];
      CountAll(init, states);
      assert forall i | 0 <= i < |init| :: init[i] == groups[i];
    }
  }

  lemma GroupsShow(coverage: seq<Coverage>)
    requires DistinctBy(coverage, GroupOf)
    ensures ShowsGroups(GroupsOf(coverage, ALL_GROUPS), coverage)
  {
    hide GroupState, ShowsGroup, DistinctBy;
    forall i | 0 <= i < 8
      ensures ShowsGroup(GroupsOf(coverage, ALL_GROUPS)[i], coverage)
    {
      GroupShows(coverage, ALL_GROUPS[i]);
    }
  }

  lemma SectionsShow(posture: seq<Observation>)
    requires DistinctBy(posture, CheckOf)
    ensures ShowsSections(SectionsOf(posture), posture)
  {
    hide SectionOf, ShowsSection, DistinctBy;
    SectionShows(Infrastructure, posture);
    SectionShows(Domain, posture);
    SectionShows(Mail, posture);
    SectionShows(Tls, posture);
    SectionShows(Web, posture);
  }

  lemma OverallShows(groups: seq<PublicGroup>)
    requires groups != []
    ensures ShowsOverall(Overall(groups), groups)
  {
    hide CountStates;
    CountAll(groups, {StateComplete, StateNotApplicable});
    CountAll(groups, {StateComplete, StatePartial});
  }

  ghost predicate ChecksDiffer(v: seq<Observation>) {
    forall i, j | 0 <= i < j < |v| :: v[i].check != v[j].check
  }

  ghost predicate GroupsDiffer(v: seq<Coverage>) {
    forall i, j | 0 <= i < j < |v| :: v[i].group != v[j].group
  }

  /** A projection is good exactly with a canonical host, no check and no group
      twice, some coverage, and counts within the scanner's limits. */
  lemma ProjectionOkMeans(p: Projection, canonicalHost: Host -> bool)
    ensures ProjectionOk(p, canonicalHost) <==>
              && canonicalHost(p.host) && ChecksDiffer(p.posture) && GroupsDiffer(p.coverage) && |p.coverage| >= 1
              && 0 <= p.riskCount <= 256 && 0 <= p.warningCount <= 32
              && 0 <= p.durationMs <= 30_000 && 0 <= p.requestCount <= 40
  {
    if ChecksDiffer(p.posture) {
      FewChecks(p.posture);
    }
    if GroupsDiffer(p.coverage) {
      FewGroups(p.coverage);
    }
  }

  ghost function ChecksIn(v: seq<Observation>): set<Check> {
    set o | o in v :: o.check
  }

  ghost function GroupsIn(v: seq<Coverage>): set<Group> {
    set c | c in v :: c.group
  }

  lemma {:induction false} ChecksInSize(v: seq<Observation>)
    requires ChecksDiffer(v)
    ensures |ChecksIn(v)| == |v|
  {
    if v == [] {
      assert ChecksIn(v) == {};
    } else {
      var init, last := v[..|v| - 1], v[|v| - 1];
      ChecksInSize(init);
      assert v == init + [last];
      assert ChecksIn(v) == ChecksIn(init) + {last.check};
      assert last.check !in ChecksIn(init);
    }
  }

  lemma {:induction false} GroupsInSize(v: seq<Coverage>)
    requires GroupsDiffer(v)
    ensures |GroupsIn(v)| == |v|
  {
    if v == [] {
      assert GroupsIn(v) == {};
    } else {
      var init, last := v[..|v| - 1], v[|v| - 1];
      GroupsInSize(init);
      assert v == init + [last];
      assert GroupsIn(v) == GroupsIn(init) + {last.group};
      assert last.group !in GroupsIn(init);
    }
  }

  lemma {:induction false} ListedSize<T>(all: seq<T>, s: set<T>)
    requires forall x | x in s :: x in all
    ensures |s| <= |all|
  {
    if all == [] {
      assert s == {};
    } else {
      var init, last := all[..|all| - 1], all[|all| - 1];
      assert all == init + [last];
      ListedSize(init, s - {last});
    }
  }

  lemma FewChecks(v: seq<Observation>)
    requires ChecksDiffer(v)
    ensures |v| <= 17
  {
    ChecksInSize(v);
    forall c | c in ChecksIn(v)
      ensures c in ALL_CHECKS
    {
      AllListed(c);
    }
    SectionsPartition();
    ListedSize(ALL_CHECKS, ChecksIn(v));
  }

  lemma FewGroups(v: seq<Coverage>)
    requires GroupsDiffer(v)
    ensures |v| <= 8
  {
    GroupsInSize(v);
    forall g | g in GroupsIn(v)
      ensures g in ALL_GROUPS
    {
      GroupsListed(g);
    }
    ListedSize(ALL_GROUPS, GroupsIn(v));
  }

  /** Every stored result can be shown: the projection of a valid output is good. */
  lemma ProjectionIsViewable(o: ScannerOutput, canonicalHost: Host -> bool)
    requires OutputOk(o, canonicalHost)
    ensures ProjectionOk(Projected(o), canonicalHost)
  {
    hide SectionsOf, GroupsOf;
    ProjectionMeans(o, canonicalHost);
    var p := Projected(o);
    RanksDiffer(p);
    FingerprintCount(o.findings);
    LengthKept(o.coverage, p.coverage);
    ProjectionOkMeans(p, canonicalHost);
  }

  lemma RanksDiffer(p: Projection)
    requires forall i, j | 0 <= i < j < |p.posture| :: CheckRank(p.posture[i].check) < CheckRank(p.posture[j].check)
    requires forall i, j | 0 <= i < j < |p.coverage| :: GroupRank(p.coverage[i].group) < GroupRank(p.coverage[j].group)
    ensures ChecksDiffer(p.posture) && GroupsDiffer(p.coverage)
  {
  }

  lemma LengthKept<T>(s: seq<T>, t: seq<T>)
    requires multiset(s) == multiset(t)
    ensures |s| == |t|
  {
    assert |multiset(s)| == |s| && |multiset(t)| == |t|;
  }

  lemma {:induction false} FingerprintCount(v: seq<Finding>)
    ensures |Fingerprints(v)| <= |v|
  {
    if v == [] {
      assert Fingerprints(v) == {};
    } else {
      var n := |v| - 1;
      FingerprintCount(v[..n]);
      OneMoreFingerprint(v, n);
      assert v[..n + 1] == v;
    }
  }

  /** A view is built exactly for good access, a good projection, and a completion
      no later than the access was authorised; and then every field of it shows
      what it should. */
  lemma ViewMeans(a: Access, completed: int, p: Projection, canonicalHost: Host -> bool)
    ensures CreateView(a, completed, p, canonicalHost).Some? <==>
              && ValidId(a.scan) && 1 <= a.expires <= MAX_UNIX_SECONDS && 1 <= a.remaining <= 1_800
              && ProjectionOk(p, canonicalHost)
              && 0 <= completed <= a.expires - a.remaining
    ensures CreateView(a, completed, p, canonicalHost).Some? ==>
              Shows(CreateView(a, completed, p, canonicalHost).value, a, completed, p)
  {
    hide SectionsOf, GroupsOf, CountStates, DistinctBy, ShowsSections, ShowsGroups, ShowsOverall, Overall, ValidId, InState;
    if CreateView(a, completed, p, canonicalHost).Some? {
      SectionsShow(p.posture);
      GroupsShow(p.coverage);
      CountIsSize(GroupsOf(p.coverage, ALL_GROUPS), {StateComplete});
      OverallShows(GroupsOf(p.coverage, ALL_GROUPS));
    }
  }

  // ---- the two are inverse ------------------------------------------------

  /** Every view built for access authorised at `now` is accepted at `now`, as it is. */
  lemma BuiltIsAccepted(a: Access, completed: int, p: Projection, now: int, canonicalHost: Host -> bool)
    requires CreateView(a, completed, p, canonicalHost).Some? && a.expires - a.remaining == now
    ensures var v := CreateView(a, completed, p, canonicalHost).value;
            Rebuild(v, a.scan, now, canonicalHost) == Some(v)
  {
    hide SectionsOf, GroupsOf, FlatChecks, RereadAll, CountStates, Overall, DistinctBy;
    var v := CreateView(a, completed, p, canonicalHost).value;
    PostureComesBack(p.posture);
    CoverageComesBack(p.coverage);
    SectionSizes(p.posture);
  }

  lemma SectionSizes(posture: seq<Observation>)
    ensures |SectionsOf(posture)| == 5
    ensures forall i | 0 <= i < 5 :: |SectionsOf(posture)[i].checks| <= CHECK_COUNT
  {
    hide Pick;
    PickSize(SectionChecks(Infrastructure), posture);
    PickSize(SectionChecks(Domain), posture);
    PickSize(SectionChecks(Mail), posture);
    PickSize(SectionChecks(Tls), posture);
    PickSize(SectionChecks(Web), posture);
  }

  lemma {:induction false} PickSize(checks: seq<Check>, posture: seq<Observation>)
    ensures |Pick(checks, posture)| <= |checks|
  {
    if checks != [] {
      PickSize(checks[..|checks| - 1], posture);
    }
  }

  /** What the rebuilder lets out is the value it was given, and exactly the values
      that are views of some projection for this scan and time. */
  lemma AcceptsExactlyViews(v: View, scan: Id, now: int, canonicalHost: Host -> bool)
    ensures Rebuild(v, scan, now, canonicalHost).Some? ==> Rebuild(v, scan, now, canonicalHost) == Some(v)
    ensures Rebuild(v, scan, now, canonicalHost).Some? <==>
              exists remaining, p ::
                v.expires - remaining == now
                && CreateView(Access(scan, v.expires, remaining), v.completed, p, canonicalHost) == Some(v)
  {
    hide CreateView;
    if Rebuild(v, scan, now, canonicalHost).Some? {
      var remaining := v.expires - now;
      assert v.expires - remaining == now
             && CreateView(Access(scan, v.expires, remaining), v.completed, ReadBack(v), canonicalHost) == Some(v);
    }
    if remaining, p :|
      v.expires - remaining == now
      && CreateView(Access(scan, v.expires, remaining), v.completed, p, canonicalHost) == Some(v)
    {
      BuiltIsAccepted(Access(scan, v.expires, remaining), v.completed, p, now, canonicalHost);
    }
  }

  /** Whatever the rebuilder lets out for a scan and a time shows some valid
      projection, for access that then still has up to half an hour. */
  lemma RebuiltShows(v: View, scan: Id, now: int, canonicalHost: Host -> bool)
    requires Rebuild(v, scan, now, canonicalHost).Some?
    ensures v.scan == scan && 0 <= v.completed <= now < v.expires <= now + 1_800
    ensures exists p :: ProjectionOk(p, canonicalHost) && Shows(v, Access(scan, v.expires, v.expires - now), v.completed, p)
  {
    hide CreateView, Shows, ProjectionOk, ReadBack;
    ViewMeans(Access(scan, v.expires, v.expires - now), v.completed, ReadBack(v), canonicalHost);
    ShownScan(v, Access(scan, v.expires, v.expires - now), ReadBack(v));
  }

  lemma ShownScan(v: View, a: Access, p: Projection)
    requires Shows(v, a, v.completed, p)
    ensures v.scan == a.scan
  {
    hide ShowsSections, ShowsGroups, ShowsOverall, InState;
  }
}
