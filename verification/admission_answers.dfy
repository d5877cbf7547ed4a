/** What a create request is answered: a new scan exactly when no limit is reached,
    and otherwise the first limit that is, counted over the scans and windows
    themselves. */
module AdmissionAnswers {
  import opened Basics
  import opened ScanProtocol
  import opened Tables
  import opened Quota
  import opened Transactions
  import opened Invariant
  import opened LedgerProofs
  import opened StepProofs
  import opened CreateProofs
  import opened RunRates
  import opened RunReplay
  import opened RunRotation

  // ---- what is counted ----------------------------------------------------

  /** The scans that are there when the new one is admitted: all but the expired
      one it replaces. */
  ghost predicate Stays(db: Db, r: CreateRequest, x: Id) {
    x in db.groups && !Predecessor(db, r, x)
  }

  /** Live scans of the session, the replaced one aside. */
  ghost function LiveOfSession(db: Db, r: CreateRequest): set<Id> {
    set x | x in db.groups && Stays(db, r, x) && LiveJob(db.groups[x].scan.job) && db.groups[x].scan.session == r.session
  }

  /** Live scans charged to any digest of the request, the replaced one aside. */
  ghost function LiveOnNetwork(db: Db, r: CreateRequest): set<Id> {
    set x | x in db.groups && Stays(db, r, x) && LiveJob(db.groups[x].scan.job) && db.groups[x].reservation.Some?
            && db.groups[x].reservation.value.network in r.networks
  }

  /** The row counts at `now`. */
  predicate RunningOn(ws: Windows, k: WindowKey, now: int) {
    k in ws && now < ws[k].reset
  }

  /** Uses in the windows still running, over all the digests. */
  function UsesSoFar(ws: Windows, d: WindowDimension, digests: seq<Digest>, now: int): int {
    if digests == [] then 0
    else
      UsesSoFar(ws, d, digests[..|digests| - 1], now)
      + (var k := WindowKey(d, digests[|digests| - 1]); if RunningOn(ws, k, now) then ws[k].count else 0)
  }

  /** When the last of the windows ends; the active digest's counts from now when
      it has none running. */
  function LastEnd(ws: Windows, d: WindowDimension, digests: seq<Digest>, now: int): int
    requires digests != []
  {
    var k := WindowKey(d, digests[|digests| - 1]);
    if |digests| == 1 then if RunningOn(ws, k, now) then ws[k].reset else now + WindowSeconds(d)
    else
      var rest := LastEnd(ws, d, digests[..|digests| - 1], now);
      if RunningOn(ws, k, now) && ws[k].reset > rest then ws[k].reset else rest
  }

  /** The first limit reached, in the order in which they are tried. */
  ghost function FirstLimit(db: Db, r: CreateRequest): Option<Denial>
    requires r.networks != []
  {
    if db.paused then Some(ScanningPaused)
    else if |LiveOfSession(db, r)| >= 1 then Some(SessionConcurrencyLimit)
    else if UsesSoFar(db.windows, SessionBurst, [r.session], r.now) >= 3 then
      Some(WindowExhausted(SessionBurst, LastEnd(db.windows, SessionBurst, [r.session], r.now) - r.now))
    else if UsesSoFar(db.windows, SessionDaily, [r.session], r.now) >= 10 then
      Some(WindowExhausted(SessionDaily, LastEnd(db.windows, SessionDaily, [r.session], r.now) - r.now))
    else if |LiveOnNetwork(db, r)| >= 4 then Some(NetworkConcurrencyLimit)
    else if UsesSoFar(db.windows, NetworkBurst, r.networks, r.now) >= 20 then
      Some(WindowExhausted(NetworkBurst, LastEnd(db.windows, NetworkBurst, r.networks, r.now) - r.now))
    else if UsesSoFar(db.windows, NetworkDaily, r.networks, r.now) >= 100 then
      Some(WindowExhausted(NetworkDaily, LastEnd(db.windows, NetworkDaily, r.networks, r.now) - r.now))
    else None
  }

  // ---- what is loaded is what is counted ----------------------------------

  /** A refreshed row counts as before, or is empty. */
  lemma RefreshedCounts(ws: Windows, keys: seq<WindowKey>, k: WindowKey, now: int)
    ensures var fresh' := RefreshWindows(ws, keys, now);
            && (k in keys ==> LiveWindow(fresh', k, now)
                              && fresh'[k] == (if RunningOn(ws, k, now) then ws[k]
                                               else Window(0, now + WindowSeconds(k.dimension))))
            && (k !in keys ==> (LiveWindow(fresh', k, now) <==> RunningOn(ws, k, now)) && (k in ws ==> fresh'[k] == ws[k]))
  {
  }

  lemma {:induction false} LoadedIsCounted(ws: Windows, d: WindowDimension, digests: seq<Digest>, session: Digest,
                                           network: Digest, now: int)
    requires digests != [] && DistinctDigests(digests) && WindowKey(d, digests[0]) in WindowSpecs(session, network)
    requires forall i | 0 < i < |digests| :: WindowKey(d, digests[i]) !in WindowSpecs(session, network)
    ensures WindowUsage(RefreshWindows(ws, WindowSpecs(session, network), now), d, digests, now)
            == Some(Usage(UsesSoFar(ws, d, digests, now), LastEnd(ws, d, digests, now)))
  {
    hide RefreshWindows;
    var keys := WindowSpecs(session, network);
    RefreshedCounts(ws, keys, WindowKey(d, digests[|digests| - 1]), now);
    if |digests| == 1 {
      assert digests[..0] == [];
      assert WindowUsage(RefreshWindows(ws, keys, now), d, digests[..0], now) == None;
      assert UsesSoFar(ws, d, digests[..0], now) == 0;
    } else {
      LoadedIsCounted(ws, d, digests[..|digests| - 1], session, network, now);
    }
  }

  /** Each key of a request is refreshed for the first digest only. */
  lemma OnlyFirstRefreshed(d: WindowDimension, session: Digest, networks: seq<Digest>)
    requires networks != [] && DistinctDigests(networks)
    ensures var digests := DigestsOf(d, session, networks);
            && digests != [] && DistinctDigests(digests)
            && WindowKey(d, digests[0]) in WindowSpecs(session, networks[0])
            && forall i | 0 < i < |digests| :: WindowKey(d, digests[i]) !in WindowSpecs(session, networks[0])
  {
    var digests := DigestsOf(d, session, networks);
    var keys := WindowSpecs(session, networks[0]);
    assert WindowKey(d, digests[0]) in keys by {
      match d {
        case NetworkBurst => assert keys[0] == WindowKey(d, digests[0]);
        case NetworkDaily => assert keys[1] == WindowKey(d, digests[0]);
        case SessionBurst => assert keys[2] == WindowKey(d, digests[0]);
        case SessionDaily => assert keys[3] == WindowKey(d, digests[0]);
      }
    }
  }

  lemma ChargedToOneMore(groups: map<Id, ScanGroup>, init: seq<Digest>, last: Digest)
    requires last !in init
    ensures |ChargedTo(groups, init + [last])| == |ChargedTo(groups, init)| + |Holders(groups, NetworkActive(last))|
  {
    hide Unreleased;
    var a, b := ChargedTo(groups, init), Holders(groups, NetworkActive(last));
    forall x
      ensures x in ChargedTo(groups, init + [last]) <==> x in a || x in b
      ensures !(x in a && x in b)
    {
    }
    assert ChargedTo(groups, init + [last]) == a + b;
    assert a !! b;
  }

  lemma {:induction false} UsageIsScans(active: Active, groups: map<Id, ScanGroup>, digests: seq<Digest>)
    requires Balanced(active, groups) && DistinctDigests(digests)
    ensures NetworkUsage(active, digests) == |ChargedTo(groups, digests)|
  {
    hide Balanced, Holders, ChargedTo;
    if digests == [] {
      NobodyCharged(groups);
    } else {
      var init := digests[..|digests| - 1];
      var last := digests[|digests| - 1];
      UsageIsScans(active, groups, init);
      BalancedRow(active, groups, NetworkActive(last));
      ChargedToOneMore(groups, init, last);
      assert init + [last] == digests;
    }
  }

  lemma NobodyCharged(groups: map<Id, ScanGroup>)
    ensures |ChargedTo(groups, [])| == 0
  {
    assert ChargedTo(groups, []) == {};
  }

  // ---- the state a request is decided on ----------------------------------

  /** The predecessor is gone, the new scan is there without a charge. */
  lemma DecidedState(db: Db, r: CreateRequest, c: CreateInputs) returns (mid: Db)
    requires Inv(db) && ValidCreateRequest(r) && NeedsNewScan(db, r, c)
    requires !ReplacesTooLate(db, r) && !FreshIdTaken(db, r, c) && !WindowsAhead(db.windows, r.session, r.networks, r.now)
    ensures mid.windows == db.windows && mid.paused == db.paused
    ensures Balanced(mid.active, mid.groups) && WithinLimits(mid.active)
    ensures c.freshScan in mid.groups && mid.groups[c.freshScan].reservation.None?
    ensures forall x | x != c.freshScan :: x in mid.groups <==> Stays(db, r, x)
    ensures forall x | x in mid.groups && x != c.freshScan :: x in db.groups && mid.groups[x] == db.groups[x]
    ensures !Stays(db, r, c.freshScan)
    ensures AdmissionAt(mid, r.session, r.networks, r.now).Done?
    ensures match AdmissionAt(mid, r.session, r.networks, r.now).value
            case Admit => CreateStep(db, r, c).1.ScanCreated?
            case Refuse(denial) => CreateStep(db, r, c).1 == AbuseLimited(denial)
            case BadContext => false
  {
    hide Inv, ReleaseReplaced, ReplacesTooLate, WindowsAhead, ValidId, Existing, Balanced, WithinLimits, WindowsOk, LoadUsage,
         RefreshWindows, ZeroActive, DecideAdmission, AdmittedWindows, AdmittedActive, InsertScan, GroupOk, FreshIdTaken,
         Predecessor, RefreshedWindow, Admitted;
    CreateEffect(db, r, c);
    ClearedEffect(db, r, c);
    var cleared := ReleaseReplaced(db, Existing(db, r.session, r.key), r.now).value;
    InsertedEffect(cleared, r, c);
    mid := InsertScan(cleared, r, c).value;
    InsertedBalance(cleared, r, c);
    MidFacts(cleared, r, c);
    InvLedgerParts(cleared);
    LoadExactly(mid, r.session, r.networks, r.now);
    ValidIsDecided(mid.paused, LoadUsage(RefreshWindows(mid.windows, WindowSpecs(r.session, r.networks[0]), r.now),
                                         ZeroActive(mid.active, ActiveSpecs(r.session, r.networks[0])), r.session, r.networks,
                                         r.now).value, r.now);
    SpecOrStays(db, r, c);
    IsNotReplayed(db, r, c);
    AnsweredByAdmission(db, r, c, cleared, mid);
  }

  lemma IsNotReplayed(db: Db, r: CreateRequest, c: CreateInputs)
    requires Inv(db) && NeedsNewScan(db, r, c)
    ensures var decision := DecideIdempotency(Existing(db, r.session, r.key), r.requestHash, r.now, c.keyring);
            decision.DecideCreate? || decision.DecideReplace?
    ensures ValidId(c.freshScan) && |c.freshNonce| == TOKEN_NONCE_BYTES && UsableKey(c.keyring, c.activeKey)
  {
    hide Inv, Existing, ValidId;
    ExistingFacts(db, r.session, r.key);
  }

  /** The admission decision is the answer. */
  lemma AnsweredByAdmission(db: Db, r: CreateRequest, c: CreateInputs, cleared: Db, mid: Db)
    requires ValidCreateRequest(r)
    requires var decision := DecideIdempotency(Existing(db, r.session, r.key), r.requestHash, r.now, c.keyring);
             decision.DecideCreate? || decision.DecideReplace?
    requires ValidId(c.freshScan) && |c.freshNonce| == TOKEN_NONCE_BYTES && UsableKey(c.keyring, c.activeKey)
    requires ReleaseReplaced(db, Existing(db, r.session, r.key), r.now) == Done(cleared) && InsertScan(cleared, r, c) == Done(mid)
    requires c.freshScan in mid.groups && mid.groups[c.freshScan].reservation.None?
    requires AdmissionAt(mid, r.session, r.networks, r.now).Done?
    ensures match AdmissionAt(mid, r.session, r.networks, r.now).value
            case Admit => CreateStep(db, r, c).1.ScanCreated?
            case Refuse(denial) => CreateStep(db, r, c).1 == AbuseLimited(denial)
            case BadContext => true
  {
    hide Existing, ReleaseReplaced, InsertScan, LoadUsage, RefreshWindows, ZeroActive, DecideAdmission, AdmittedWindows,
         AdmittedActive, DecideIdempotency, ValidId;
  }

  lemma ValidIsDecided(paused: bool, u: UsageSnapshot, now: int)
    requires ValidUsageSnapshot(u, now)
    ensures !DecideAdmission(paused, u, now).BadContext?
  {
  }

  lemma MidFacts(db: Db, r: CreateRequest, c: CreateInputs)
    requires InsertScan(db, r, c).Done?
    ensures var mid := InsertScan(db, r, c).value;
            && mid.active == db.active && mid.windows == db.windows && mid.paused == db.paused
            && mid.groups == db.groups[c.freshScan := ScanGroup(NewScan(r, c), map[], None, None)]
  {
  }

  lemma SpecOrStays(db: Db, r: CreateRequest, c: CreateInputs)
    requires !FreshIdTaken(db, r, c)
    ensures !Stays(db, r, c.freshScan)
  {
  }

  // ---- the counts of that state -------------------------------------------

  lemma SessionCount(db: Db, r: CreateRequest, c: CreateInputs, mid: Db)
    requires Inv(db) && !Stays(db, r, c.freshScan)
    requires Balanced(mid.active, mid.groups)
    requires c.freshScan in mid.groups && mid.groups[c.freshScan].reservation.None?
    requires forall x | x != c.freshScan :: x in mid.groups <==> Stays(db, r, x)
    requires forall x | x in mid.groups && x != c.freshScan :: x in db.groups && mid.groups[x] == db.groups[x]
    ensures ActiveOf(mid.active, SessionActive(r.session)) == |LiveOfSession(db, r)|
  {
    hide Inv, Balanced, GroupOk, Stays;
    BalancedRow(mid.active, mid.groups, SessionActive(r.session));
    forall x
      ensures x in Holders(mid.groups, SessionActive(r.session)) <==> x in LiveOfSession(db, r)
    {
      if x in db.groups {
        InvGroup(db, x);
        ChargedAs(x, db.groups[x]);
      }
      StaysIn(db, r, x);
    }
    assert Holders(mid.groups, SessionActive(r.session)) == LiveOfSession(db, r);
  }

  lemma NetworkCount(db: Db, r: CreateRequest, c: CreateInputs, mid: Db)
    requires Inv(db) && !Stays(db, r, c.freshScan) && DistinctDigests(r.networks)
    requires Balanced(mid.active, mid.groups)
    requires c.freshScan in mid.groups && mid.groups[c.freshScan].reservation.None?
    requires forall x | x != c.freshScan :: x in mid.groups <==> Stays(db, r, x)
    requires forall x | x in mid.groups && x != c.freshScan :: x in db.groups && mid.groups[x] == db.groups[x]
    ensures NetworkUsage(mid.active, r.networks) == |LiveOnNetwork(db, r)|
  {
    hide Inv, Balanced, GroupOk, Stays, NetworkUsage;
    UsageIsScans(mid.active, mid.groups, r.networks);
    forall x
      ensures x in ChargedTo(mid.groups, r.networks) <==> x in LiveOnNetwork(db, r)
    {
      if x in db.groups {
        InvGroup(db, x);
        ChargedAs(x, db.groups[x]);
      }
      StaysIn(db, r, x);
    }
    assert ChargedTo(mid.groups, r.networks) == LiveOnNetwork(db, r);
  }

  lemma ChargedAs(id: Id, g: ScanGroup)
    requires GroupOk(id, g)
    ensures LiveJob(g.scan.job) <==> Unreleased(g)
    ensures g.reservation.Some? && g.reservation.value.session == g.scan.session
  {
    hide AttemptShape;
  }

  lemma StaysIn(db: Db, r: CreateRequest, x: Id)
    ensures Stays(db, r, x) ==> x in db.groups
  {
  }

  /** A create request that needs a new scan and is not rolled back is answered
      with one exactly when no limit is reached, and otherwise with the first one
      that is, and for a window with the wait until the last of them ends. */
  lemma CreateAnswers(db: Db, r: CreateRequest, c: CreateInputs)
    requires Inv(db) && ValidCreateRequest(r) && NeedsNewScan(db, r, c)
    requires !ReplacesTooLate(db, r) && !FreshIdTaken(db, r, c) && !WindowsAhead(db.windows, r.session, r.networks, r.now)
    ensures match FirstLimit(db, r)
            case None => CreateStep(db, r, c).1.ScanCreated?
            case Some(denial) => CreateStep(db, r, c).1 == AbuseLimited(denial)
  {
    hide Inv, CreateStep, NeedsNewScan, ReplacesTooLate, FreshIdTaken, WindowsAhead, Balanced, WithinLimits, AdmissionAt, Stays,
         LiveOfSession, LiveOnNetwork, UsesSoFar, LastEnd;
    var mid := DecidedState(db, r, c);
    SessionCount(db, r, c, mid);
    NetworkCount(db, r, c, mid);
    DecisionIsFirstLimit(db, r, mid);
  }

  lemma DecisionIsFirstLimit(db: Db, r: CreateRequest, mid: Db)
    requires ValidCreateRequest(r)
    requires mid.windows == db.windows && mid.paused == db.paused
    requires ActiveOf(mid.active, SessionActive(r.session)) == |LiveOfSession(db, r)|
    requires NetworkUsage(mid.active, r.networks) == |LiveOnNetwork(db, r)|
    requires AdmissionAt(mid, r.session, r.networks, r.now).Done?
    requires !AdmissionAt(mid, r.session, r.networks, r.now).value.BadContext?
    ensures AdmissionAt(mid, r.session, r.networks, r.now).value
            == match FirstLimit(db, r) case None => Admit case Some(denial) => Refuse(denial)
  {
    hide LiveOfSession, LiveOnNetwork, UsesSoFar, LastEnd, LoadUsage, WindowUsage, RefreshWindows, ZeroActive, NetworkUsage,
         ActiveOf, ValidUsageSnapshot, SaneRows, SaneActive;
    var ws := RefreshWindows(mid.windows, WindowSpecs(r.session, r.networks[0]), r.now);
    var active := ZeroActive(mid.active, ActiveSpecs(r.session, r.networks[0]));
    LoadedUsage(ws, active, r.session, r.networks, r.now);
    forall d
      ensures WindowUsage(ws, d, DigestsOf(d, r.session, r.networks), r.now)
              == Some(Usage(UsesSoFar(mid.windows, d, DigestsOf(d, r.session, r.networks), r.now),
                            LastEnd(mid.windows, d, DigestsOf(d, r.session, r.networks), r.now)))
    {
      OnlyFirstRefreshed(d, r.session, r.networks);
      LoadedIsCounted(mid.windows, d, DigestsOf(d, r.session, r.networks), r.session, r.networks[0], r.now);
    }
    assert DigestsOf(SessionBurst, r.session, r.networks) == [r.session];
    assert DigestsOf(SessionDaily, r.session, r.networks) == [r.session];
    assert DigestsOf(NetworkBurst, r.session, r.networks) == r.networks;
    assert DigestsOf(NetworkDaily, r.session, r.networks) == r.networks;
    ZeroActiveKeeps(mid.active, ActiveSpecs(r.session, r.networks[0]), SessionActive(r.session));
    forall k
      ensures ActiveOf(active, k) == ActiveOf(mid.active, k)
    {
      ZeroActiveKeeps(mid.active, ActiveSpecs(r.session, r.networks[0]), k);
    }
    SameUsage(mid.active, active, r.networks);
  }

  // ---- every answer -------------------------------------------------------

  /** A row of the session and key is inside its replay window. */
  ghost predicate Replayable(db: Db, r: CreateRequest) {
    exists id | id in db.groups ::
      && db.groups[id].scan.session == r.session && db.groups[id].scan.key == r.key
      && r.now < db.groups[id].scan.replayExpires
  }

  predicate UsableInputs(c: CreateInputs) {
    ValidId(c.freshScan) && |c.freshNonce| == 32 && c.activeKey in c.keyring && |c.keyring[c.activeKey]| >= 32
  }

  /** The other answers of a valid request: from the row inside its window, for
      inputs that cannot be used, and when the transaction is rolled back; a stored
      row is never an invalid record. */
  lemma OtherCreateAnswers(db: Db, r: CreateRequest, c: CreateInputs)
    requires Inv(db) && ValidCreateRequest(r)
    ensures Replayable(db, r) || !UsableInputs(c) <==> !NeedsNewScan(db, r, c)
    ensures !Replayable(db, r) && !UsableInputs(c) ==> CreateStep(db, r, c) == (db, TokenUnavailable)
    ensures CreateStep(db, r, c).1.CreateUnavailable? <==>
              && !Replayable(db, r) && UsableInputs(c)
              && (ReplacesTooLate(db, r) || FreshIdTaken(db, r, c) || WindowsAhead(db.windows, r.session, r.networks, r.now))
    ensures CreateStep(db, r, c).1 != CreateInvalidRecord && CreateStep(db, r, c).1 != CreateInvalidRequest
  {
    hide Inv, ReplacesTooLate, FreshIdTaken, WindowsAhead, ValidId, ReleaseReplaced, InsertScan, ReserveTx, Existing,
         AdmittedWindows, RefreshedWindow, Predecessor, CreateTx, Replayable;
    CreateEffect(db, r, c);
    ExistingFacts(db, r.session, r.key);
    ReplayableIsExisting(db, r);
    if Replayable(db, r) {
      var (id, scan) := Existing(db, r.session, r.key).value;
      AnsweredFromRow(db, id, r, c);
    } else if !UsableInputs(c) {
      UnusableAnswer(db, r, c);
    } else {
      NotDenied(db, r, c);
    }
  }

  lemma ReplayableIsExisting(db: Db, r: CreateRequest)
    requires Inv(db)
    ensures Replayable(db, r) <==>
              && Existing(db, r.session, r.key).Some?
              && r.now < Existing(db, r.session, r.key).value.1.replayExpires
  {
    hide Inv, Existing;
    ExistingFacts(db, r.session, r.key);
    if id :| id in db.groups && db.groups[id].scan.session == r.session && db.groups[id].scan.key == r.key
             && r.now < db.groups[id].scan.replayExpires {
      RowIsExisting(db, id, r);
    }
  }

  lemma UnusableAnswer(db: Db, r: CreateRequest, c: CreateInputs)
    requires ValidCreateRequest(r) && !UsableInputs(c)
    requires var decision := DecideIdempotency(Existing(db, r.session, r.key), r.requestHash, r.now, c.keyring);
             decision.DecideCreate? || decision.DecideReplace?
    ensures CreateStep(db, r, c) == (db, TokenUnavailable)
  {
    hide Existing, ValidId, DecideIdempotency, ReleaseReplaced, InsertScan, ReserveTx;
  }

  lemma NotDenied(db: Db, r: CreateRequest, c: CreateInputs)
    requires ValidCreateRequest(r)
    requires var decision := DecideIdempotency(Existing(db, r.session, r.key), r.requestHash, r.now, c.keyring);
             decision.DecideCreate? || decision.DecideReplace?
    ensures CreateTx(db, r, c).Done? ==>
              CreateTx(db, r, c).value.1 == TokenUnavailable || CreateTx(db, r, c).value.1.ScanCreated?
              || CreateTx(db, r, c).value.1.AbuseLimited?
  {
    hide Existing, ValidId, DecideIdempotency, ReleaseReplaced, InsertScan, ReserveTx;
  }

  /** What is answered with a new scan, and every field of the rows it left. */
  lemma CreatedSays(db: Db, r: CreateRequest, c: CreateInputs)
    requires Inv(db) && CreateStep(db, r, c).1.ScanCreated?
    ensures var (db', answer) := CreateStep(db, r, c);
            && r.networks != [] && UsableInputs(c)
            && answer == ScanCreated(c.freshScan,
                                     Token(c.freshScan, c.freshNonce, r.now + 1_800, c.keyring[c.activeKey]),
                                     r.now + 1_800, exists x :: Predecessor(db, r, x))
            && c.freshScan in db'.groups
            && db'.groups[c.freshScan]
               == ScanGroup(Scan(r.target, r.session, r.key, r.requestHash, r.now, r.now, r.now + 1_800, r.now + 1_800,
                                 r.now + 86_400, JobQueued, c.freshNonce, c.activeKey, None, None, 0, None),
                            map[], None,
                            Some(Reservation(r.session, r.networks[0], r.now, r.now + 86_400, None)))
  {
    hide Inv, ReplacesTooLate, FreshIdTaken, WindowsAhead, ValidId, ReleaseReplaced, InsertScan, ReserveTx, Existing,
         AdmittedWindows, RefreshedWindow, CreateTx;
    CreatedToken(db, r, c);
    CreateEffect(db, r, c);
    ReplacedFlag(db, r, c);
  }

  lemma ReplacedFlag(db: Db, r: CreateRequest, c: CreateInputs)
    requires CreateStep(db, r, c).1.ScanCreated?
    ensures CreateStep(db, r, c).1.replaced <==> exists x :: Predecessor(db, r, x)
    ensures UsableInputs(c)
  {
    hide ValidId, ReleaseReplaced, InsertScan, ReserveTx, Existing;
    if Existing(db, r.session, r.key).Some? {
      assert Predecessor(db, r, Existing(db, r.session, r.key).value.0);
    }
  }
}
