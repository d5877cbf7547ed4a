/** The relational state: rows grouped by the scan they reference, the CHECK
    constraints and update triggers of the schema, and the two counter tables.
    Attempts, result and reservation reference a scan with ON DELETE CASCADE,
    so a group lives and dies with its scan row. */
module Tables {
  import opened Basics
  import opened ScanProtocol
  import opened GuestOutput

  // ---- rows ---------------------------------------------------------------

  datatype Scan = Scan(
    target: Host,
    session: Digest,
    key: string,
    requestHash: Digest,
    created: int,
    updated: int,
    replayExpires: int,
    accessExpires: int,
    deletion: int,
    job: JobState,
    tokenNonce: string,
    tokenKeyVersion: int,
    revoked: Option<int>,
    current: Option<Id>,
    fence: int,
    accepted: Option<Identity>)

  datatype Attempt = Attempt(
    no: int,
    fence: int,
    leaseVersion: int,
    leaseExpires: Option<int>,
    hardDeadline: int,
    state: AttemptState,
    created: int,
    updated: int,
    started: Option<int>,
    finished: Option<int>)

  datatype ResultRow = ResultRow(attempt: Id, fence: int, digest: Digest, completed: int, projection: Projection)

  datatype ReleaseReason = TerminalResult | ExpiredReplacement | CancelledRelease | FailedRelease | ExpiredRelease

  datatype Reservation = Reservation(
    session: Digest,
    network: Digest,
    reservedAt: int,
    deletion: int,
    released: Option<(int, ReleaseReason)>)

  datatype ScanGroup = ScanGroup(
    scan: Scan,
    attempts: map<Id, Attempt>,
    result: Option<ResultRow>,
    reservation: Option<Reservation>)

  datatype ActiveKey = SessionActive(digest: Digest) | NetworkActive(digest: Digest)

  datatype WindowDimension = SessionBurst | SessionDaily | NetworkBurst | NetworkDaily

  datatype WindowKey = WindowKey(dimension: WindowDimension, digest: Digest)

  datatype Window = Window(count: int, reset: int)

  /** `index` is the unique index on (session, operation, idempotency key). */
  datatype Db = Db(
    groups: map<Id, ScanGroup>,
    index: map<(Digest, string), Id>,
    active: map<ActiveKey, int>,
    windows: map<WindowKey, Window>,
    paused: bool)

  // ---- transactions -------------------------------------------------------

  /** Why a transaction is rolled back instead of committed. */
  datatype Fault =
    | AttemptStateFault
    | AttemptCas
    | AttemptIdFault
    | NoTime
    | LeaseCas
    | JobCas
    | JobTerminalCas
    | JobCancelCas
    | StartCas
    | RenewCas
    | CommitCas
    | AbuseRelease
    | AbuseState
    | InvalidAbuseContext
    | ReplaceCas
    | UniqueViolation
    | ConstraintViolation

  datatype Tx<+T> = Done(value: T) | Throw(fault: Fault) {
    predicate IsFailure() {
      Throw?
    }

    function PropagateFailure<U>(): Tx<U>
      requires Throw?
    {
      Throw(fault)
    }

    function Extract(): T
      requires Done?
    {
      value
    }
  }

  function Ensure(condition: bool, fault: Fault): (r: Tx<()>)
    ensures r.Done? <==> condition
    ensures !condition ==> r == Throw(fault)
  {
    if condition then Done(()) else Throw(fault)
  }

  // ---- constraints and triggers on guest_scans ----------------------------

  predicate ScanCheck(s: Scan) {
    && s.created <= s.updated <= s.deletion
    && s.replayExpires == s.created + ACCESS_SECONDS
    && s.accessExpires == s.replayExpires
    && s.deletion == s.created + RETENTION_SECONDS
    && (s.revoked.Some? ==> s.created <= s.revoked.value <= s.updated)
    && (if s.current.None? then s.fence == 0 else 0 < s.fence <= MAX_SAFE)
    && (s.job == JobQueued ==> s.current.None?)
    && (s.job == JobRunning ==> s.current.Some?)
    && (s.job == JobSucceeded <==> s.accepted.Some?)
    && (s.accepted.Some? ==> s.current == Some(s.accepted.value.attempt) && s.accepted.value.fence == s.fence)
  }

  predicate SameScanIdentity(a: Scan, b: Scan) {
    && a.target == b.target && a.session == b.session && a.key == b.key && a.requestHash == b.requestHash
    && a.created == b.created && a.replayExpires == b.replayExpires && a.deletion == b.deletion
    && a.accessExpires == b.accessExpires
    && a.tokenNonce == b.tokenNonce && a.tokenKeyVersion == b.tokenKeyVersion
  }

  predicate JobMayBecome(s: JobState, t: JobState) {
    || s == t
    || (s == JobQueued && t in {JobRunning, JobCancelled, JobExpired})
    || (s == JobRunning && t in {JobSucceeded, JobFailed, JobCancelled, JobExpired})
  }

  /** The BEFORE UPDATE trigger on guest_scans. */
  predicate ScanUpdateAllowed(before: Scan, after: Scan) {
    && SameScanIdentity(before, after)
    && before.updated <= after.updated
    && (before.revoked.Some? ==> after.revoked == before.revoked)
    && (before.current.Some? ==>
          && after.current.Some?
          && before.fence <= after.fence
          && (after.current == before.current <==> after.fence == before.fence))
    && (before.accepted.Some? ==> after.accepted == before.accepted)
    && JobMayBecome(before.job, after.job)
  }

  // ---- constraints and triggers on guest_scan_attempts --------------------

  predicate AttemptCheck(a: Attempt) {
    && 0 < a.no
    && 1 <= a.fence <= MAX_SAFE
    && 0 <= a.leaseVersion <= MAX_SAFE
    && a.created < a.hardDeadline
    && a.created <= a.updated
    && (a.leaseExpires.Some? ==> a.created < a.leaseExpires.value <= a.hardDeadline)
    && (a.started.Some? ==> a.created <= a.started.value <= a.updated)
    && (a.finished.Some? ==> StartOrCreation(a) <= a.finished.value <= a.updated)
    && (a.state == Created ==> a.leaseVersion == 0 && a.leaseExpires.None?)
    && (a.state !in {Created, Cancelled} ==> a.leaseVersion > 0 && a.leaseExpires.Some?)
    && (a.state in {Created, Leased} ==> a.started.None?)
    && (a.state in {Running, Succeeded, Failed, TimedOut} ==> a.started.Some?)
    && (TerminalAttempt(a.state) <==> a.finished.Some?)
    && (a.state == Succeeded ==> a.finished.value < a.leaseExpires.value && a.finished.value < a.hardDeadline)
  }

  function StartOrCreation(a: Attempt): int {
    if a.started.Some? then a.started.value else a.created
  }

  predicate AttemptMayBecome(s: AttemptState, t: AttemptState) {
    || s == t
    || (s == Created && t in {Leased, Cancelled})
    || (s == Leased && t in {Running, Superseded})
    || (s == Running && t in {Succeeded, Failed, TimedOut, Cancelled, Superseded})
  }

  /** The BEFORE UPDATE trigger on guest_scan_attempts. */
  predicate AttemptUpdateAllowed(before: Attempt, after: Attempt) {
    && before.no == after.no && before.fence == after.fence
    && before.created == after.created && before.hardDeadline == after.hardDeadline
    && before.updated <= after.updated
    && before.leaseVersion <= after.leaseVersion
    && (before.leaseExpires != after.leaseExpires ==> before.leaseVersion < after.leaseVersion)
    && (before.started.Some? ==> after.started == before.started)
    && (before.finished.Some? ==> after.finished == before.finished)
    && AttemptMayBecome(before.state, after.state)
  }

  // ---- constraints on guest_results and guest_abuse_reservations ----------

  predicate ResultInsertAllowed(g: ScanGroup, r: ResultRow) {
    && g.scan.job == JobSucceeded
    && g.scan.accepted == Some(Identity(r.attempt, r.fence, r.digest))
    && r.attempt in g.attempts
    && g.attempts[r.attempt].fence == r.fence
    && g.attempts[r.attempt].state == Succeeded
    && g.attempts[r.attempt].finished == Some(r.completed)
    && g.scan.created <= r.completed <= g.scan.updated
    && r.completed < g.scan.deletion
    && r.projection.host == g.scan.target
  }

  predicate ReservationCheck(r: Reservation) {
    && r.deletion == r.reservedAt + RETENTION_SECONDS
    && (r.released.Some? ==> r.reservedAt <= r.released.value.0 <= r.deletion)
  }

  // ---- statements on one group --------------------------------------------

  function UpdateScan(g: ScanGroup, row: Scan): (r: Tx<ScanGroup>)
    ensures r.Done? ==> r.value == g.(scan := row)
    ensures r.Done? <==> ScanCheck(row) && ScanUpdateAllowed(g.scan, row)
    ensures r.Throw? ==> r.fault == ConstraintViolation
  {
    if ScanCheck(row) && ScanUpdateAllowed(g.scan, row) then Done(g.(scan := row)) else Throw(ConstraintViolation)
  }

  function UpdateAttempt(g: ScanGroup, id: Id, row: Attempt): (r: Tx<ScanGroup>)
    requires id in g.attempts
    ensures r.Done? ==> r.value == g.(attempts := g.attempts[id := row])
    ensures r.Done? <==> AttemptCheck(row) && AttemptUpdateAllowed(g.attempts[id], row)
    ensures r.Throw? ==> r.fault == ConstraintViolation
  {
    if AttemptCheck(row) && AttemptUpdateAllowed(g.attempts[id], row)
    then Done(g.(attempts := g.attempts[id := row]))
    else Throw(ConstraintViolation)
  }

  /** Primary keys of attempts are unique over all scans. */
  predicate AttemptIdTaken(db: Db, id: Id) {
    exists s | s in db.groups :: id in db.groups[s].attempts
  }

  predicate AttemptNumberTaken(g: ScanGroup, no: int, fence: int) {
    exists a | a in g.attempts :: g.attempts[a].no == no || g.attempts[a].fence == fence
  }

  // ---- values a caller validates after reading ----------------------------

  /** `validScan`: the checks made on a loaded scan row. */
  predicate ReadableScan(id: Id, s: Scan) {
    && ValidId(id)
    && 0 <= s.fence <= MAX_SAFE
    && PositiveSafe(s.accessExpires)
    && PositiveSafe(s.deletion)
    && s.accessExpires < s.deletion
    && (if s.current.None? then s.fence == 0 else ValidId(s.current.value) && s.fence > 0)
  }

  /** `validAttempt`: the checks made on a loaded attempt row. */
  predicate ReadableAttempt(id: Id, a: Attempt) {
    && ValidId(id)
    && 0 < a.no <= MAX_SAFE
    && PositiveSafe(a.fence)
    && 0 <= a.leaseVersion <= MAX_SAFE
    && PositiveSafe(a.hardDeadline)
    && (a.leaseExpires.Some? ==> PositiveSafe(a.leaseExpires.value))
  }

  /** `nowValue`: a process clock reading that a transaction accepts. */
  predicate ReadableClock(now: int) {
    0 <= now <= MAX_SAFE
  }
}
