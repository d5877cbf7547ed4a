/** Which admission times one session can have: exactly the sorted lists of times
    that overfill none of its windows. So the rate bounds cannot be improved. */
module SerialRuns {
  import opened Basics
  import opened ScanProtocol
  import opened Tables
  import opened Quota
  import opened Transactions
  import opened Invariant
  import opened LedgerProofs
  import opened StepProofs
  import opened CreateProofs
  import opened Runs
  import opened RunFaults
  import opened RateWindows
  import opened RunRates
  import opened RunRotation

  /** A visitor who asks for one scan at a time and cancels it at once. */
  datatype Visitor = Visitor(session: Digest, network: Digest, target: Host, hash: Digest, nonce: string, tokenKey: seq<char>)

  predicate ValidVisitor(v: Visitor) {
    |v.nonce| == TOKEN_NONCE_BYTES && |v.tokenKey| >= MIN_KEY_BYTES
  }

  function RequestAt(v: Visitor, id: Id, t: int): CreateRequest {
    CreateRequest(v.session, id, v.hash, v.target, [v.network], t)
  }

  function InputsFor(v: Visitor, id: Id): CreateInputs {
    CreateInputs(map[0 := v.tokenKey], 0, id, v.nonce)
  }

  /** One scan at each of the times, cancelled before the next. */
  function Serial(v: Visitor, ids: seq<Id>, ts: seq<int>): seq<Event>
    requires |ts| <= |ids|
  {
    if ts == [] then []
    else
      var n := |ts| - 1;
      Serial(v, ids, ts[..n]) + [CreateEvent(RequestAt(v, ids[n], ts[n]), InputsFor(v, ids[n])), CancelEvent(ids[n], ts[n])]
  }

  ghost predicate FreshIds(ids: seq<Id>) {
    && (forall i | 0 <= i < |ids| :: ValidId(ids[i]))
    && (forall i, j | 0 <= i < j < |ids| :: ids[i] != ids[j])
  }

  /** Sorted times that a create request may carry. */
  ghost predicate GoodTimes(ts: seq<int>) {
    Sorted(ts) && forall i | 0 <= i < |ts| :: 0 <= ts[i] && ts[i] + RETENTION_SECONDS <= MAX_UNIX_SECONDS
  }

  ghost predicate FitsWindows(ts: seq<int>) {
    && Limited(ts, WindowSeconds(SessionBurst), WindowLimit(SessionBurst))
    && Limited(ts, WindowSeconds(SessionDaily), WindowLimit(SessionDaily))
  }

  // ---- one admission on an idle state -------------------------------------

  /** Every scan has ended and was asked for under its own id. */
  ghost predicate Idle(db: Db, ids: seq<Id>) {
    && Inv(db) && !db.paused
    && forall x | x in db.groups :: x in ids && db.groups[x].scan.key == x && !LiveJob(db.groups[x].scan.job)
  }

  /** There is room in the row, and it is not ahead of the clock. */
  ghost predicate Room(ws: Windows, k: WindowKey, t: int) {
    RefreshedWindow(ws, k, t).count < WindowLimit(k.dimension) && !AheadRow(ws, k, t)
  }

  /** The usage of one digest is read from its one, refreshed row. */
  lemma RowUsage(ws: Windows, d: WindowDimension, digest: Digest, session: Digest, network: Digest, now: int)
    requires WindowKey(d, digest) in WindowSpecs(session, network)
    ensures var row := RefreshedWindow(ws, WindowKey(d, digest), now);
            WindowUsage(RefreshWindows(ws, WindowSpecs(session, network), now), d, [digest], now)
            == Some(Usage(row.count, row.reset))
  {
    var k := WindowKey(d, digest);
    RefreshedIsLive(ws, WindowSpecs(session, network), k, now);
    var fresh' := RefreshWindows(ws, WindowSpecs(session, network), now);
    assert [digest][..0] == [];
    assert WindowUsage(fresh', d, [digest][..0], now) == None;
  }

  lemma NothingHeld(active: Active, groups: map<Id, ScanGroup>, k: ActiveKey)
    requires Balanced(active, groups) && forall x | x in groups :: !Unreleased(groups[x])
    ensures ActiveOf(active, k) == 0
  {
    assert Holders(groups, k) == {};
    assert LedgerRow(active, groups, k);
  }

  lemma OneUsage(active: Active, network: Digest)
    ensures NetworkUsage(active, [network]) == ActiveOf(active, NetworkActive(network))
  {
    assert [network][..0] == [];
  }

  lemma IdleAdmits(db: Db, session: Digest, network: Digest, t: int)
    requires Balanced(db.active, db.groups) && WithinLimits(db.active) && WindowsOk(db.windows) && !db.paused
    requires forall x | x in db.groups :: !Unreleased(db.groups[x])
    requires 0 <= t && t + RETENTION_SECONDS <= MAX_UNIX_SECONDS
    requires forall k | k in WindowSpecs(session, network) :: Room(db.windows, k, t)
    ensures Admitted(db, session, [network], t)
  {
    hide Balanced, WithinLimits, WindowsOk, RefreshWindows, ZeroActive, LoadUsage, WindowUsage, ValidUsageSnapshot, SaneRows,
         SaneActive, RefreshedWindow, NetworkUsage, Unreleased;
    var ws := RefreshWindows(db.windows, WindowSpecs(session, network), t);
    var active := ZeroActive(db.active, ActiveSpecs(session, network));
    var sb, sd := WindowKey(SessionBurst, session), WindowKey(SessionDaily, session);
    var nb, nd := WindowKey(NetworkBurst, network), WindowKey(NetworkDaily, network);
    assert Room(db.windows, sb, t) && Room(db.windows, sd, t) && Room(db.windows, nb, t) && Room(db.windows, nd, t);
    LoadExactly(db, session, [network], t);
    LoadedUsage(ws, active, session, [network], t);
    RowUsage(db.windows, SessionBurst, session, session, network, t);
    RowUsage(db.windows, SessionDaily, session, session, network, t);
    RowUsage(db.windows, NetworkBurst, network, session, network, t);
    RowUsage(db.windows, NetworkDaily, network, session, network, t);
    OneUsage(active, network);
    ZeroActiveKeeps(db.active, ActiveSpecs(session, network), SessionActive(session));
    ZeroActiveKeeps(db.active, ActiveSpecs(session, network), NetworkActive(network));
    NothingHeld(db.active, db.groups, SessionActive(session));
    NothingHeld(db.active, db.groups, NetworkActive(network));
  }

  lemma ReservedWhenAdmitted(db: Db, id: Id, session: Digest, networks: seq<Digest>, now: int)
    requires id in db.groups && db.groups[id].reservation.None? && Admitted(db, session, networks, now)
    ensures ReserveTx(db, id, session, networks, now).Done? && ReserveTx(db, id, session, networks, now).value.Reserved?
  {
    hide LoadUsage, DecideAdmission, RefreshWindows, ZeroActive, AdmittedWindows, AdmittedActive;
  }

  lemma EndedHoldsNothing(db: Db, ids: seq<Id>, x: Id)
    requires Idle(db, ids) && x in db.groups
    ensures !Unreleased(db.groups[x])
  {
    hide GroupShape;
    InvGroup(db, x);
  }

  /** No scan was asked for under an id that is still unused. */
  lemma KeyIsNew(db: Db, ids: seq<Id>, session: Digest, id: Id)
    requires Idle(db, ids) && id !in ids
    ensures id !in db.groups && (session, id) !in db.index
  {
    hide GroupOk, Balanced, WithinLimits, WindowsOk, AttemptsApart;
  }

  /** The scan just inserted is admitted. */
  lemma AdmittedWhenIdle(db: Db, ids: seq<Id>, v: Visitor, id: Id, t: int)
    requires Idle(db, ids) && ValidId(id) && id !in ids
    requires InsertScan(db, RequestAt(v, id, t), InputsFor(v, id)).Done?
    requires 0 <= t && t + RETENTION_SECONDS <= MAX_UNIX_SECONDS
    requires forall k | k in WindowSpecs(v.session, v.network) :: Room(db.windows, k, t)
    ensures Admitted(InsertScan(db, RequestAt(v, id, t), InputsFor(v, id)).value, v.session, [v.network], t)
  {
    hide Inv, InsertScan, Admitted, ValidId, Room, GroupOk, Balanced, WithinLimits, WindowsOk, Unreleased, NewScan;
    var r, c := RequestAt(v, id, t), InputsFor(v, id);
    InsertedBalance(db, r, c);
    InvLedgerParts(db);
    InsertedRest(db, r, c);
    var mid := InsertScan(db, r, c).value;
    forall x | x in mid.groups
      ensures !Unreleased(mid.groups[x])
    {
      if x == id {
        NoReservation(mid.groups[x]);
      } else {
        EndedHoldsNothing(db, ids, x);
      }
    }
    IdleAdmits(mid, v.session, v.network, t);
  }

  lemma CreatesWhenIdle(db: Db, ids: seq<Id>, v: Visitor, id: Id, t: int)
    requires Idle(db, ids) && ValidVisitor(v) && ValidId(id) && id !in ids
    requires 0 <= t && t + RETENTION_SECONDS <= MAX_UNIX_SECONDS
    requires forall k | k in WindowSpecs(v.session, v.network) :: Room(db.windows, k, t)
    ensures CreateStep(db, RequestAt(v, id, t), InputsFor(v, id)).1.ScanCreated?
  {
    hide Inv, Idle, ReserveTx, InsertScan, ReleaseReplaced, Admitted, ValidId, Existing, Room;
    var r, c := RequestAt(v, id, t), InputsFor(v, id);
    KeyIsNew(db, ids, v.session, id);
    NothingReplaced(db, t);
    IdleInv(db, ids);
    InsertsNew(db, r, c);
    AdmittedWhenIdle(db, ids, v, id, t);
    ReservedWhenAdmitted(InsertScan(db, r, c).value, id, v.session, r.networks, t);
  }

  lemma IdleInv(db: Db, ids: seq<Id>)
    requires Idle(db, ids)
    ensures Inv(db)
  {
  }

  lemma InsertsNew(db: Db, r: CreateRequest, c: CreateInputs)
    requires Inv(db) && ValidCreateRequest(r) && ValidId(c.freshScan)
    requires c.freshScan !in db.groups && (r.session, r.key) !in db.index
    ensures Existing(db, r.session, r.key).None? && InsertScan(db, r, c).Done?
    ensures var mid := InsertScan(db, r, c).value;
            c.freshScan in mid.groups && mid.groups[c.freshScan].reservation.None?
  {
    hide Inv, InsertScan, ReserveTx, WindowsAhead, Admitted;
    InsertedEffect(db, r, c);
    InsertedRest(db, r, c);
  }

  lemma NoReservation(g: ScanGroup)
    requires g.reservation.None?
    ensures !Unreleased(g)
  {
  }

  lemma InsertedRest(db: Db, r: CreateRequest, c: CreateInputs)
    requires InsertScan(db, r, c).Done?
    ensures var mid := InsertScan(db, r, c).value;
            && mid.active == db.active && mid.windows == db.windows && mid.paused == db.paused && c.freshScan in mid.groups
            && mid.groups[c.freshScan].reservation.None?
  {
  }

  /** What was just created is cancelled at once, and everything is idle again. */
  lemma CancelsAtOnce(db: Db, ids: seq<Id>, v: Visitor, id: Id, t: int)
    requires Idle(db, ids) && ValidId(id) && 0 <= t && t + RETENTION_SECONDS <= MAX_UNIX_SECONDS
    requires CreateStep(db, RequestAt(v, id, t), InputsFor(v, id)).1.ScanCreated?
    ensures Idle(CancelStep(CreateStep(db, RequestAt(v, id, t), InputsFor(v, id)).0, id, t).0, ids + [id])
  {
    hide Inv, CreateTx, CancelTx, NeedsNewScan, ReplacesTooLate, FreshIdTaken, Predecessor, AdmittedWindows, RefreshedWindow,
         RowsFinished, ValidId;
    var r, c := RequestAt(v, id, t), InputsFor(v, id);
    CreateEffect(db, r, c);
    CancelEffect(CreateStep(db, r, c).0, id, t);
  }

  // ---- the whole history --------------------------------------------------

  lemma RoomLeft(ws: Windows, k: WindowKey, ts: seq<int>, t: int)
    requires Tracks(ws, k, ts, t) && Sorted(ts + [t])
    requires Limited(ts + [t], WindowSeconds(k.dimension), WindowLimit(k.dimension))
    ensures Room(ws, k, t)
  {
    hide Limited, Sorted;
    var width, limit := WindowSeconds(k.dimension), WindowLimit(k.dimension);
    assert (ts + [t])[..|ts|] == ts;
    LimitedPrefix(ts + [t], width, limit);
    LastSegmentHolds(ts + [t], width, limit, 0, 0);
    if ts != [] {
      SortedPrefix(ts, t);
      LastSegmentHolds(ts, width, limit, 0, 0);
    }
  }

  lemma SortedPrefix(ts: seq<int>, t: int)
    requires Sorted(ts + [t])
    ensures Sorted(ts) && (ts != [] ==> ts[|ts| - 1] <= t)
  {
    assert forall i | 0 <= i < |ts| :: (ts + [t])[i] == ts[i];
    assert ts != [] ==> (ts + [t])[|ts| - 1] <= (ts + [t])[|ts|];
  }

  lemma LimitedWider(ts: seq<int>, width: int, limit: int, more: int)
    requires Limited(ts, width, limit) && limit <= more
    ensures Limited(ts, width, more)
  {
  }

  lemma FitsAll(ts: seq<int>, d: WindowDimension)
    requires FitsWindows(ts)
    ensures Limited(ts, WindowSeconds(d), WindowLimit(d))
  {
    hide Limited;
    LimitedWider(ts, WindowSeconds(SessionBurst), WindowLimit(SessionBurst), WindowLimit(NetworkBurst));
    LimitedWider(ts, WindowSeconds(SessionDaily), WindowLimit(SessionDaily), WindowLimit(NetworkDaily));
  }

  lemma FitsPrefix(ts: seq<int>)
    requires ts != [] && FitsWindows(ts) && GoodTimes(ts)
    ensures FitsWindows(ts[..|ts| - 1]) && GoodTimes(ts[..|ts| - 1])
  {
    hide Limited;
    LimitedPrefix(ts, WindowSeconds(SessionBurst), WindowLimit(SessionBurst));
    LimitedPrefix(ts, WindowSeconds(SessionDaily), WindowLimit(SessionDaily));
  }

  /** The times that the serial run admits scans at are the given ones. */
  ghost predicate Replays(v: Visitor, ids: seq<Id>, ts: seq<int>)
    requires |ts| <= |ids|
  {
    var es := Serial(v, ids, ts);
    && Monotone(es) && (ts != [] ==> es != [] && TimeOf(es[|es| - 1]) == ts[|ts| - 1]) && (ts == [] ==> es == [])
    && Idle(Run(EMPTY, es), ids[..|ts|])
    && forall k | k in WindowSpecs(v.session, v.network) :: AdmissionTimes(es, k) == ts
  }

  /** Every sorted list of times that overfills neither session window is the
      admission history of some monotone run. */
  lemma {:induction false} HistoriesAreRuns(v: Visitor, ids: seq<Id>, ts: seq<int>)
    requires ValidVisitor(v) && |ts| <= |ids| && FreshIds(ids) && GoodTimes(ts) && FitsWindows(ts)
    ensures Replays(v, ids, ts)
  {
    if ts == [] {
      NothingReplayed(v, ids);
    } else {
      FitsPrefix(ts);
      HistoriesAreRuns(v, ids, ts[..|ts| - 1]);
      ReplaysOneMore(v, ids, ts);
    }
  }

  lemma NothingReplayed(v: Visitor, ids: seq<Id>)
    ensures Replays(v, ids, [])
  {
    EmptyInv();
  }

  lemma MonotoneMore(es: seq<Event>, e: Event)
    requires Monotone(es) && (es != [] ==> TimeOf(es[|es| - 1]) <= TimeOf(e))
    ensures Monotone(es + [e])
  {
    hide TimeOf;
    var all := es + [e];
    forall i, j | 0 <= i <= j < |all|
      ensures TimeOf(all[i]) <= TimeOf(all[j])
    {
      if i < |es| {
        assert TimeOf(es[i]) <= TimeOf(es[|es| - 1]);
      }
    }
  }

  lemma RunMore(es: seq<Event>, e: Event)
    ensures Run(EMPTY, es + [e]) == Step(Run(EMPTY, es), e).0
  {
    hide Step;
    assert (es + [e])[..|es|] == es;
  }

  lemma TwoMore(es: seq<Event>, e: Event, f: Event)
    requires Monotone(es) && TimeOf(e) == TimeOf(f) && (es != [] ==> TimeOf(es[|es| - 1]) <= TimeOf(e))
    ensures Monotone(es + [e, f])
    ensures Run(EMPTY, es + [e, f]) == Step(Step(Run(EMPTY, es), e).0, f).0
  {
    hide Step, Run, TimeOf, Monotone;
    assert es + [e, f] == es + [e] + [f];
    MonotoneMore(es, e);
    MonotoneMore(es + [e], f);
    RunMore(es, e);
    RunMore(es + [e], f);
  }

  lemma TimesTwoMore(es: seq<Event>, e: Event, f: Event, k: WindowKey)
    requires Admits(Run(EMPTY, es), e, k) && !f.CreateEvent?
    ensures AdmissionTimes(es + [e, f], k) == AdmissionTimes(es, k) + [TimeOf(e)]
  {
    hide Run, CreateStep;
    var all := es + [e, f];
    assert all[..|all| - 1] == es + [e] && (es + [e])[..|es|] == es;
    assert AdmissionTimes(all, k) == AdmissionTimes(es + [e], k) + [];
  }

  lemma ReplaysOneMore(v: Visitor, ids: seq<Id>, ts: seq<int>)
    requires ValidVisitor(v) && |ts| <= |ids| && FreshIds(ids) && GoodTimes(ts) && FitsWindows(ts) && ts != []
    requires Replays(v, ids, ts[..|ts| - 1])
    ensures Replays(v, ids, ts)
  {
    hide Run, Step, Idle, Tracks, Limited, Room, CreateStep, CancelStep, Monotone, AdmissionTimes, ValidId;
    var n := |ts| - 1;
    var init, t, id := ts[..n], ts[n], ids[n];
    var es := Serial(v, ids, init);
    var e, f := CreateEvent(RequestAt(v, id, t), InputsFor(v, id)), CancelEvent(id, t);
    var db := Run(EMPTY, es);
    assert init + [t] == ts && ids[..n] + [id] == ids[..|ts|];
    forall k | k in WindowSpecs(v.session, v.network)
      ensures Room(db.windows, k, t)
    {
      RunTracks(es, k, t);
      FitsAll(ts, k.dimension);
      RoomLeft(db.windows, k, init, t);
    }
    CreatesWhenIdle(db, ids[..n], v, id, t);
    CancelsAtOnce(db, ids[..n], v, id, t);
    TwoMore(es, e, f);
    StepsAre(db, v, id, t);
    forall k | k in WindowSpecs(v.session, v.network)
      ensures AdmissionTimes(es + [e, f], k) == ts
    {
      TimesTwoMore(es, e, f, k);
    }
  }

  lemma StepsAre(db: Db, v: Visitor, id: Id, t: int)
    ensures Step(db, CreateEvent(RequestAt(v, id, t), InputsFor(v, id))).0 == CreateStep(db, RequestAt(v, id, t), InputsFor(v, id)).0
    ensures forall d :: Step(d, CancelEvent(id, t)).0 == CancelStep(d, id, t).0
  {
    hide CreateStep, CancelStep;
  }

  // ---- no other history is possible ---------------------------------------

  /** An admission counts in both windows of its session. */
  lemma {:induction false} SameTimes(es: seq<Event>, session: Digest)
    ensures AdmissionTimes(es, WindowKey(SessionBurst, session)) == AdmissionTimes(es, WindowKey(SessionDaily, session))
  {
    hide Run, CreateStep;
    if es != [] {
      SameTimes(es[..|es| - 1], session);
    }
  }

  /** The admission times of a session over any monotone run are sorted and
      overfill neither of its windows. */
  lemma RunsFitWindows(es: seq<Event>, session: Digest)
    requires Monotone(es)
    ensures Sorted(AdmissionTimes(es, WindowKey(SessionBurst, session)))
    ensures FitsWindows(AdmissionTimes(es, WindowKey(SessionBurst, session)))
  {
    hide Run, AdmissionTimes, Limited, Sorted, Tracks, Monotone;
    var now := if es == [] then 0 else TimeOf(es[|es| - 1]);
    TimesInOrder(es, WindowKey(SessionBurst, session));
    RunTracks(es, WindowKey(SessionBurst, session), now);
    RunTracks(es, WindowKey(SessionDaily, session), now);
    SameTimes(es, session);
  }

  // ---- the bound is attained ----------------------------------------------

  lemma {:induction false} SegmentIsPart(ts: seq<int>, width: int)
    ensures LastSegment(ts, width).count <= |ts|
  {
    if ts != [] {
      SegmentIsPart(ts[..|ts| - 1], width);
    }
  }

  const SIX_IDS: seq<Id> := ["a", "b", "c", "d", "e", "f"]

  /** Five scans of one session in ten minutes do happen: one at the start, two just
      before the window ends, three as soon as it has ended. */
  lemma FiveInTenMinutes(v: Visitor) returns (es: seq<Event>)
    requires ValidVisitor(v)
    ensures Monotone(es)
    ensures Within(AdmissionTimes(es, WindowKey(SessionBurst, v.session)), 1, 1 + WindowSeconds(SessionBurst)) == 5
  {
    hide LastSegment, Within, Run, AdmissionTimes, Idle;
    var width, limit := WindowSeconds(SessionBurst), WindowLimit(SessionBurst);
    var ts := Burst(width, limit - 1, limit);
    BoundIsAttained(width, limit);
    forall n | 0 <= n <= |ts|
      ensures LastSegment(ts[..n], WindowSeconds(SessionDaily)).count <= WindowLimit(SessionDaily)
    {
      SegmentIsPart(ts[..n], WindowSeconds(SessionDaily));
    }
    HistoriesAreRuns(v, SIX_IDS, ts);
    es := Serial(v, SIX_IDS, ts);
    assert WindowKey(SessionBurst, v.session) == WindowSpecs(v.session, v.network)[2];
  }
}
