/** The row checks the application makes when it reads rows back, written
    independently of the database constraints, and their agreement with both. */
module Snapshot {
  import opened Basics
  import opened ScanProtocol
  import opened GuestOutput
  import opened Tables
  import opened Quota
  import opened Transactions
  import opened Invariant
  import opened StepProofs
  import opened CommitProofs
  import opened CreateProofs
  import opened RetentionProofs
  import opened Runs

  predicate U64OrNull(n: Option<int>) {
    n.None? || U64(n.value)
  }

  // ---- the scan row -------------------------------------------------------

  /** Formats and ranges of the fields of a scan row that the lifecycle writes. */
  predicate ScanFields(id: Id, s: Scan) {
    && ValidId(id)
    && U64(s.created) && U64(s.updated) && U64(s.replayExpires) && U64(s.deletion)
    && (s.accepted.None? || ValidIdentity(s.accepted.value))
    && 0 <= s.fence <= MAX_SAFE
    && (s.current.None? || ValidId(s.current.value))
  }

  /** The relations among the fields, each as the reason to reject the row. */
  predicate ScanRejected(s: Scan) {
    var accessExpiry := s.created + ACCESS_SECONDS;
    var deletion := s.created + RETENTION_SECONDS;
    || accessExpiry > UINT64_MAX
    || deletion > UINT64_MAX
    || s.updated < s.created
    || s.updated > deletion
    || s.replayExpires != accessExpiry
    || s.accessExpires != accessExpiry
    || s.deletion != deletion
    || (s.revoked.Some? && (s.revoked.value < s.created || s.revoked.value > s.updated))
    || s.current.None? != (s.fence == 0)
    || (s.job == JobQueued && s.current.Some?)
    || (s.job == JobRunning && s.current.None?)
    || (s.job == JobSucceeded && s.accepted.None?)
    || (s.job != JobSucceeded && s.accepted.Some?)
    || (s.accepted.Some? && (Some(s.accepted.value.attempt) != s.current || s.accepted.value.fence != s.fence))
  }

  predicate SnapshotScan(id: Id, s: Scan) {
    ScanFields(id, s) && !ScanRejected(s)
  }

  /** The reader accepts exactly the rows the table's constraints accept. */
  lemma ScanChecksAgree(id: Id, s: Scan)
    requires ScanFields(id, s)
    ensures SnapshotScan(id, s) <==> ScanCheck(s)
  {
  }

  // ---- the attempt row ----------------------------------------------------

  predicate AttemptFields(scan: Id, id: Id, a: Attempt) {
    && ValidId(id) && ValidId(scan)
    && PositiveSafe(a.no) && PositiveSafe(a.fence) && 0 <= a.leaseVersion <= MAX_SAFE
    && U64(a.hardDeadline) && U64(a.created) && U64(a.updated)
    && U64OrNull(a.leaseExpires) && U64OrNull(a.started) && U64OrNull(a.finished)
  }

  predicate LeasedState(s: AttemptState) {
    s in {Leased, Running, Succeeded, Failed, TimedOut, Superseded}
  }

  predicate StartedState(s: AttemptState) {
    s in {Running, Succeeded, Failed, TimedOut}
  }

  predicate FinishedState(s: AttemptState) {
    s in {Succeeded, Failed, TimedOut, Cancelled, Superseded}
  }

  predicate AttemptRejected(a: Attempt) {
    || a.updated < a.created
    || a.hardDeadline <= a.created
    || (a.state == Created && (a.leaseVersion != 0 || a.leaseExpires.Some?))
    || (LeasedState(a.state) && (a.leaseVersion == 0 || a.leaseExpires.None?))
    || (a.leaseExpires.Some? && (a.leaseExpires.value <= a.created || a.leaseExpires.value > a.hardDeadline))
    || (StartedState(a.state) && a.started.None?)
    || (a.state in {Created, Leased} && a.started.Some?)
    || (a.started.Some? && (a.started.value < a.created || a.started.value > a.updated))
    || FinishedState(a.state) != a.finished.Some?
    || (a.finished.Some? && (a.finished.value < StartOrCreation(a) || a.finished.value > a.updated))
    || (a.state == Succeeded
        && (a.finished.None? || a.leaseExpires.None?
            || a.finished.value >= a.leaseExpires.value || a.finished.value >= a.hardDeadline))
  }

  predicate SnapshotAttempt(scan: Id, id: Id, a: Attempt) {
    AttemptFields(scan, id, a) && !AttemptRejected(a)
  }

  lemma AttemptChecksAgree(scan: Id, id: Id, a: Attempt)
    requires AttemptFields(scan, id, a)
    ensures SnapshotAttempt(scan, id, a) <==> AttemptCheck(a)
  {
  }

  // ---- the joined result --------------------------------------------------

  /** The join of a scan with its result, as the result reader maps it: nothing
      when there is no result row or a check rejects what was found. */
  function ReadResult(db: Db, id: Id): Option<(Scan, ResultRow)> {
    if !ValidId(id) || id !in db.groups || db.groups[id].result.None? then None
    else
      var s, r := db.groups[id].scan, db.groups[id].result.value;
      if !SnapshotScan(id, s) || s.job != JobSucceeded || s.accepted.None? then None
      else if !ValidId(r.attempt) || !PositiveSafe(r.fence) || !ValidDigest(r.digest) || !U64(r.completed) then None
      else if r.attempt != s.accepted.value.attempt || r.fence != s.accepted.value.fence
              || r.digest != s.accepted.value.digest
              || r.completed < s.created || r.completed > s.updated || r.completed >= s.deletion then None
      else Some((s, r))
  }

  /** A result is read exactly when the scan has succeeded with that identity and the
      completion lies within the scan's life, the fields being in range. */
  lemma ReadResultMeans(db: Db, id: Id)
    ensures ReadResult(db, id).Some? <==>
              && ValidId(id) && id in db.groups && db.groups[id].result.Some?
              && var s, r := db.groups[id].scan, db.groups[id].result.value;
                 && SnapshotScan(id, s) && s.job == JobSucceeded
                 && s.accepted == Some(Identity(r.attempt, r.fence, r.digest))
                 && ValidIdentity(Identity(r.attempt, r.fence, r.digest)) && U64(r.completed)
                 && s.created <= r.completed <= s.updated && r.completed < s.deletion
    ensures ReadResult(db, id).Some? ==>
              ReadResult(db, id).value == (db.groups[id].scan, db.groups[id].result.value)
  {
    hide SnapshotScan;
  }

  // ---- over every run -----------------------------------------------------

  /** No attempt carries a stamp past the deletion deadline of its scan. */
  ghost predicate Stamped(g: ScanGroup) {
    forall a | a in g.attempts :: g.attempts[a].updated <= g.scan.deletion
  }

  ghost predicate AllStamped(db: Db) {
    forall id | id in db.groups :: Stamped(db.groups[id])
  }

  lemma StampedGroup(db: Db, db': Db, id: Id)
    requires AllStamped(db) && OnlyGroup(db, db', id) && Stamped(db'.groups[id])
    ensures AllStamped(db')
  {
    hide Stamped;
  }

  /** Rows finished or leased together with a write of the scan row. */
  lemma StampedWithScan(g: ScanGroup, g': ScanGroup, now: int)
    requires Stamped(g) && g'.scan.deletion == g.scan.deletion && now <= g.scan.deletion
    requires forall a | a in g'.attempts ::
               (a in g.attempts && RowFinished(g.attempts[a], g'.attempts[a], now)) || g'.attempts[a].updated == now
    ensures Stamped(g')
  {
  }

  lemma OkIsInTime(id: Id, g: ScanGroup)
    requires GroupOk(id, g)
    ensures g.scan.updated <= g.scan.deletion
    ensures forall a | a in g.attempts :: g.attempts[a].hardDeadline <= g.scan.deletion
  {
    forall a | a in g.attempts
      ensures g.attempts[a].hardDeadline <= g.scan.deletion
    {
      assert AttemptShape(g, a);
    }
  }

  lemma AcquireStamped(db: Db, id: Id, now: int, a: Id)
    requires Inv(db) && AllStamped(db) && ReadableClock(now) && AcquireTx(db, id, now, a).Done?
    ensures AllStamped(AcquireTx(db, id, now, a).value.0)
  {
    hide Inv, AcquireTx, GroupOk, Stamped, AcquireBlocked, RowFinished;
    AcquireEffect(db, id, now, a);
    var db' := AcquireTx(db, id, now, a).value.0;
    if AcquireWrites(db, id, now) {
      InvGroup(db', id);
      OkIsInTime(id, db'.groups[id]);
      StampedWithScan(db.groups[id], db'.groups[id], now);
      StampedGroup(db, db', id);
    }
  }

  lemma HeartbeatStamped(db: Db, c: LeaseCommand, now: int)
    requires Inv(db) && AllStamped(db)
    ensures StartTx(db, c, now).Done? ==> AllStamped(StartTx(db, c, now).value.0)
    ensures RenewTx(db, c, now).Done? ==> AllStamped(RenewTx(db, c, now).value.0)
  {
    hide Inv, GroupOk, UpdateAttempt, ReadableAttempt;
    StartEffect(db, c, now);
    RenewEffect(db, c, now);
    if c.scan in db.groups {
      InvGroup(db, c.scan);
      OkIsInTime(c.scan, db.groups[c.scan]);
    }
  }

  lemma CommitStamped(db: Db, id: Id, submitted: Identity, projection: Projection, now: int)
    requires Inv(db) && AllStamped(db) && CommitTx(db, id, submitted, projection, now).Done?
    ensures AllStamped(CommitTx(db, id, submitted, projection, now).value.0)
  {
    hide Inv, CommitTx, GroupOk, ValidIdentity;
    CommitEffect(db, id, submitted, projection, now);
    var r := CommitTx(db, id, submitted, projection, now).value;
    if r.1 == Committed {
      InvGroup(r.0, id);
      OkIsInTime(id, r.0.groups[id]);
    }
  }

  lemma CancelStamped(db: Db, id: Id, now: int)
    requires Inv(db) && AllStamped(db) && CancelTx(db, id, now).Done?
    ensures AllStamped(CancelTx(db, id, now).value.0)
  {
    hide Inv, CancelTx, GroupOk, Stamped, TerminationClockOk, RowFinished;
    CancelEffect(db, id, now);
    var r := CancelTx(db, id, now).value;
    if r.1 == ScanCancelled {
      InvGroup(r.0, id);
      OkIsInTime(id, r.0.groups[id]);
      StampedWithScan(db.groups[id], r.0.groups[id], now);
      StampedGroup(db, r.0, id);
    }
  }

  lemma StepStamped(db: Db, e: Event)
    requires Inv(db) && AllStamped(db)
    ensures AllStamped(Step(db, e).0)
  {
    hide Inv, CreateTx, AcquireTx, StartTx, RenewTx, CommitTx, CancelTx, RetainTx, NeedsNewScan, FreshIdTaken,
         ReplacesTooLate, Predecessor;
    match e
    case CreateEvent(r, c) =>
      if ValidCreateRequest(r) {
        CreateEffect(db, r, c);
      }
    case AcquireEvent(id, now, a) =>
      if ReadableClock(now) && AcquireTx(db, id, now, a).Done? {
        AcquireStamped(db, id, now, a);
      }
    case StartEvent(c, now) => HeartbeatStamped(db, c, now);
    case RenewEvent(c, now) => HeartbeatStamped(db, c, now);
    case CommitEvent(id, i, p, now) =>
      if CommitTx(db, id, i, p, now).Done? {
        CommitStamped(db, id, i, p, now);
      }
    case CancelEvent(id, now) =>
      if CancelTx(db, id, now).Done? {
        CancelStamped(db, id, now);
      }
    case RetainEvent(now, n, vs, vw) =>
      if 1 <= n <= MAX_BATCH_SIZE {
        RetainEffect(db, now, n, vs, vw);
      }
    case ServiceEvent(_, _) =>
  }

  lemma {:induction false} RunStamped(es: seq<Event>)
    ensures Inv(Run(EMPTY, es)) && AllStamped(Run(EMPTY, es))
  {
    hide Inv, Step, Stamped;
    EmptyInv();
    RunKeepsInv(EMPTY, es);
    if es != [] {
      RunStamped(es[..|es| - 1]);
      StepStamped(Run(EMPTY, es[..|es| - 1]), es[|es| - 1]);
    }
  }

  lemma OkScanIsRead(id: Id, g: ScanGroup)
    requires GroupOk(id, g)
    ensures SnapshotScan(id, g.scan)
  {
    if g.scan.current.Some? {
      assert AttemptShape(g, g.scan.current.value);
    }
  }

  lemma OkAttemptIsRead(id: Id, g: ScanGroup, a: Id)
    requires GroupOk(id, g) && Stamped(g) && a in g.attempts
    ensures SnapshotAttempt(id, a, g.attempts[a])
  {
    assert AttemptShape(g, a);
  }

  /** After any run, with any clocks, every stored scan and attempt row passes
      the reader's checks. */
  lemma EveryRowReadsBack(es: seq<Event>, id: Id)
    requires id in Run(EMPTY, es).groups
    ensures SnapshotScan(id, Run(EMPTY, es).groups[id].scan)
    ensures forall a | a in Run(EMPTY, es).groups[id].attempts ::
              SnapshotAttempt(id, a, Run(EMPTY, es).groups[id].attempts[a])
  {
    hide Inv, Run, GroupOk, SnapshotScan, SnapshotAttempt, Stamped;
    RunStamped(es);
    var g := Run(EMPTY, es).groups[id];
    InvGroup(Run(EMPTY, es), id);
    OkScanIsRead(id, g);
    forall a | a in g.attempts
      ensures SnapshotAttempt(id, a, g.attempts[a])
    {
      OkAttemptIsRead(id, g, a);
    }
  }

  lemma ResultReadsBack(id: Id, g: ScanGroup, db: Db)
    requires GroupOk(id, g) && id in db.groups && db.groups[id] == g
    ensures g.scan.job == JobSucceeded ==> g.result.Some? && ReadResult(db, id) == Some((g.scan, g.result.value))
    ensures g.scan.job != JobSucceeded ==> ReadResult(db, id) == None
  {
    OkScanIsRead(id, g);
    hide AttemptShape, SnapshotScan;
  }

  /** The result reader finds a result exactly for the scans that succeeded, and
      then the stored one. */
  lemma ReadsExactlyResults(es: seq<Event>, id: Id)
    ensures var db := Run(EMPTY, es);
            && (ReadResult(db, id).Some? <==> id in db.groups && db.groups[id].scan.job == JobSucceeded)
            && (ReadResult(db, id).Some? ==>
                  && ReadResult(db, id).value.0 == db.groups[id].scan
                  && Some(ReadResult(db, id).value.1) == db.groups[id].result)
  {
    hide Run, Inv, GroupOk, SnapshotScan;
    EmptyInv();
    RunKeepsInv(EMPTY, es);
    var db := Run(EMPTY, es);
    if id in db.groups {
      InvGroup(db, id);
      ResultReadsBack(id, db.groups[id], db);
    }
  }
}
