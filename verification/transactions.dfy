/** Each database transaction as a function from the state it reads to the
    state it commits. `Throw` is a rollback: the caller's state stays as it was. */
module Transactions {
  import opened Basics
  import opened ScanProtocol
  import opened GuestOutput
  import opened Tables
  import opened Quota

  // ---- leases -------------------------------------------------------------

  datatype Lease = Lease(
    scan: Id,
    attempt: Id,
    no: int,
    fence: int,
    version: int,
    target: Host,
    leaseExpires: int,
    hardDeadline: int)

  datatype AcquireResult =
    | LeaseGranted(lease: Lease)
    | JobTerminated(terminal: JobState)
    | NotAcquirable
    | LeaseHeld(retryAfter: int)
    | AcquireInvalid
    | AcquireUnavailable(cause: Option<Fault>)

  /** The live attempt of a running job leaves the live states. */
  function FinishAttempt(g: ScanGroup, id: Id, state: AttemptState, now: int): Tx<ScanGroup>
    requires id in g.attempts
  {
    UpdateAttempt(g, id, g.attempts[id].(state := state, finished := Some(now), updated := now))
  }

  function GrantLease(db: Db, id: Id, attempt: Id, no: int, fence: int, now: int): Tx<(Db, AcquireResult)>
    requires id in db.groups
  {
    var g := db.groups[id];
    var hard := Min(now + HARD_DEADLINE_SECONDS, g.scan.accessExpires);
    var lease := Min(now + LEASE_SECONDS, hard);
    var _ :- Ensure(ValidId(attempt), AttemptIdFault);
    var _ :- Ensure(lease > now && hard > now, NoTime);
    var _ :- Ensure(!AttemptIdTaken(db, attempt) && !AttemptNumberTaken(g, no, fence), UniqueViolation);
    var created := Attempt(no, fence, 0, None, hard, Created, now, now, None, None);
    var _ :- Ensure(AttemptCheck(created), ConstraintViolation);
    var g1 :- UpdateAttempt(g.(attempts := g.attempts[attempt := created]), attempt,
                            created.(state := Leased, leaseVersion := 1, leaseExpires := Some(lease)));
    var _ :- Ensure(LiveJob(g1.scan.job), JobCas);
    var g2 :- UpdateScan(g1, g1.scan.(job := JobRunning, current := Some(attempt), fence := fence, updated := now));
    Done((db.(groups := db.groups[id := g2]),
          LeaseGranted(Lease(id, attempt, no, fence, 1, g.scan.target, lease, hard))))
  }

  /** End a queued or running job, finish its live attempt and return its quota. */
  function TerminateJob(db: Db, id: Id, now: int, terminal: JobState): Tx<(Db, AcquireResult)>
    requires id in db.groups
    requires terminal in {JobFailed, JobExpired}
  {
    var g := db.groups[id];
    var g1 :-
      if g.scan.job == JobRunning && g.scan.current.Some? then
        var a := g.scan.current.value;
        if a !in g.attempts || !ReadableAttempt(a, g.attempts[a]) then Throw(AttemptStateFault)
        else if LiveAttempt(g.attempts[a].state) then
          FinishAttempt(g, a,
                        if g.attempts[a].state == Leased then Superseded
                        else if now >= g.attempts[a].hardDeadline then TimedOut
                        else Cancelled, now)
        else if g.attempts[a].state in {Failed, TimedOut, Cancelled, Superseded} then Done(g)
        else Throw(AttemptStateFault)
      else Done(g);
    var _ :- Ensure(LiveJob(g1.scan.job), JobTerminalCas);
    var g2 :- UpdateScan(g1, g1.scan.(job := terminal, updated := now));
    var reason := if terminal == JobFailed then FailedRelease else ExpiredRelease;
    match ReleaseTx(db.(groups := db.groups[id := g2]), id, now, reason)
    case None => Throw(AbuseRelease)
    case Some(released) => Done((released, JobTerminated(terminal)))
  }

  function AcquireTx(db: Db, id: Id, now: int, freshAttempt: Id): Tx<(Db, AcquireResult)> {
    if id !in db.groups || !ReadableScan(id, db.groups[id].scan) then Done((db, NotAcquirable))
    else
      var g := db.groups[id];
      if !LiveJob(g.scan.job) then Done((db, NotAcquirable))
      else if now >= g.scan.accessExpires then TerminateJob(db, id, now, JobExpired)
      else if g.scan.job == JobQueued then GrantLease(db, id, freshAttempt, 1, 1, now)
      else if g.scan.current.None? || g.scan.current.value !in g.attempts
              || !ReadableAttempt(g.scan.current.value, g.attempts[g.scan.current.value])
      then Throw(AttemptStateFault)
      else
        var a := g.attempts[g.scan.current.value];
        if !LiveAttempt(a.state) || a.leaseExpires.None? || a.fence != g.scan.fence then Throw(AttemptStateFault)
        else if now < a.leaseExpires.value && now < a.hardDeadline then
          Done((db, LeaseHeld(Min(a.leaseExpires.value, a.hardDeadline) - now)))
        else
          var retired :- FinishAttempt(g, g.scan.current.value,
                                       if a.state == Running && now >= a.hardDeadline then TimedOut else Superseded, now);
          var db1 := db.(groups := db.groups[id := retired]);
          if a.no >= MAX_ATTEMPTS then TerminateJob(db1, id, now, JobFailed)
          else GrantLease(db1, id, freshAttempt, a.no + 1, a.fence + 1, now)
  }

  function AcquireStep(db: Db, id: Id, now: int, freshAttempt: Id): (Db, AcquireResult) {
    if !ValidId(id) then (db, AcquireInvalid)
    else if !ReadableClock(now) then (db, AcquireUnavailable(None))
    else
      match AcquireTx(db, id, now, freshAttempt)
      case Done(r) => r
      case Throw(fault) => (db, AcquireUnavailable(Some(fault)))
  }

  datatype LeaseCommand = LeaseCommand(scan: Id, attempt: Id, fence: int, version: int)

  /** The command by which the holder of a lease starts or renews it. */
  function CommandOf(l: Lease): LeaseCommand {
    LeaseCommand(l.scan, l.attempt, l.fence, l.version)
  }

  predicate ValidCommand(c: LeaseCommand) {
    && ValidId(c.scan) && ValidId(c.attempt)
    && PositiveSafe(c.fence)
    && PositiveSafe(c.version)
  }

  datatype HeartbeatResult =
    | Started
    | AlreadyRunning
    | Renewed(version: int, leaseExpires: int)
    | StaleLease
    | LeaseRunOut
    | DeadlineRunOut
    | LeaseNotExtended
    | HeartbeatInvalid
    | HeartbeatUnavailable(cause: Option<Fault>)

  /** The command names the current attempt of a running job at its present version. */
  predicate CommandIsCurrent(db: Db, c: LeaseCommand) {
    && c.scan in db.groups
    && c.attempt in db.groups[c.scan].attempts
    && var g := db.groups[c.scan];
       var a := g.attempts[c.attempt];
       && ReadableAttempt(c.attempt, a)
       && g.scan.job == JobRunning
       && g.scan.current == Some(c.attempt)
       && g.scan.fence == c.fence
       && a.fence == c.fence
       && a.leaseVersion == c.version
       && a.leaseExpires.Some?
  }

  function StartTx(db: Db, c: LeaseCommand, now: int): Tx<(Db, HeartbeatResult)> {
    if !CommandIsCurrent(db, c) then Done((db, StaleLease))
    else
      var g := db.groups[c.scan];
      var a := g.attempts[c.attempt];
      if now >= a.hardDeadline then Done((db, DeadlineRunOut))
      else if now >= a.leaseExpires.value then Done((db, LeaseRunOut))
      else if a.state == Running then Done((db, AlreadyRunning))
      else if a.state != Leased then Done((db, StaleLease))
      else
        var g' :- UpdateAttempt(g, c.attempt, a.(state := Running, started := Some(now), updated := now));
        Done((db.(groups := db.groups[c.scan := g']), Started))
  }

  function StartStep(db: Db, c: LeaseCommand, now: int): (Db, HeartbeatResult) {
    if !ValidCommand(c) then (db, HeartbeatInvalid)
    else if !ReadableClock(now) then (db, HeartbeatUnavailable(None))
    else
      match StartTx(db, c, now)
      case Done(r) => r
      case Throw(fault) => (db, HeartbeatUnavailable(Some(fault)))
  }

  function RenewTx(db: Db, c: LeaseCommand, now: int): Tx<(Db, HeartbeatResult)> {
    if !CommandIsCurrent(db, c) || db.groups[c.scan].attempts[c.attempt].state != Running
    then Done((db, StaleLease))
    else
      var g := db.groups[c.scan];
      var a := g.attempts[c.attempt];
      var nextExpiry := Min(now + LEASE_SECONDS, a.hardDeadline);
      if now >= a.hardDeadline then Done((db, DeadlineRunOut))
      else if now >= a.leaseExpires.value then Done((db, LeaseRunOut))
      else if nextExpiry <= a.leaseExpires.value then Done((db, LeaseNotExtended))
      else
        var g' :- UpdateAttempt(g, c.attempt,
                                a.(leaseVersion := c.version + 1, leaseExpires := Some(nextExpiry), updated := now));
        Done((db.(groups := db.groups[c.scan := g']), Renewed(c.version + 1, nextExpiry)))
  }

  function RenewStep(db: Db, c: LeaseCommand, now: int): (Db, HeartbeatResult) {
    if !ValidCommand(c) then (db, HeartbeatInvalid)
    else if !ReadableClock(now) then (db, HeartbeatUnavailable(None))
    else
      match RenewTx(db, c, now)
      case Done(r) => r
      case Throw(fault) => (db, HeartbeatUnavailable(Some(fault)))
  }

  // ---- cancellation -------------------------------------------------------

  datatype CancelResult =
    | ScanCancelled
    | AlreadyCancelled
    | NotCancellable
    | CancelInvalid
    | CancelUnavailable(cause: Option<Fault>)

  function CancelAttempt(g: ScanGroup, now: int): Tx<ScanGroup> {
    if g.scan.current.None? then Done(g)
    else
      var a := g.scan.current.value;
      if a !in g.attempts || !ReadableAttempt(a, g.attempts[a]) then Throw(AttemptStateFault)
      else if g.attempts[a].state in {Running, Created} then FinishAttempt(g, a, Cancelled, now)
      else if g.attempts[a].state == Leased then FinishAttempt(g, a, Superseded, now)
      else Throw(AttemptStateFault)
  }

  function CancelTx(db: Db, id: Id, now: int): Tx<(Db, CancelResult)> {
    if id !in db.groups || !ReadableScan(id, db.groups[id].scan) then Done((db, NotCancellable))
    else
      var g := db.groups[id];
      if g.scan.job == JobCancelled then
        match ReleaseTx(db, id, now, CancelledRelease)
        case None => Throw(AbuseRelease)
        case Some(released) => Done((released, AlreadyCancelled))
      else if !LiveJob(g.scan.job) then Done((db, NotCancellable))
      else
        var g1 :- CancelAttempt(g, now);
        var g2 :- UpdateScan(g1, g1.scan.(job := JobCancelled, updated := now));
        match ReleaseTx(db.(groups := db.groups[id := g2]), id, now, CancelledRelease)
        case None => Throw(AbuseRelease)
        case Some(released) => Done((released, ScanCancelled))
  }

  function CancelStep(db: Db, id: Id, now: int): (Db, CancelResult) {
    if !ValidId(id) then (db, CancelInvalid)
    else if !ReadableClock(now) then (db, CancelUnavailable(None))
    else
      match CancelTx(db, id, now)
      case Done(r) => r
      case Throw(fault) => (db, CancelUnavailable(Some(fault)))
  }

  // ---- result commit ------------------------------------------------------

  datatype CommitResult =
    | Committed
    | CommitReplayed
    | CommitDenied(code: DenyCode, audit: bool)
    | SubmissionRejected
    | CommitUnavailable(cause: Fault)

  /** The joined row of a scan and its current attempt, or None when a field of
      it is missing or out of range. */
  function LockedState(db: Db, id: Id, now: int): Option<CommitSnapshot> {
    if id !in db.groups then None
    else
      var g := db.groups[id];
      if g.scan.current.None? || g.scan.current.value !in g.attempts then None
      else
        var a := g.attempts[g.scan.current.value];
        if a.fence != g.scan.fence || a.leaseExpires.None? || !PositiveSafe(now) || !PositiveSafe(g.scan.fence)
           || !PositiveSafe(a.leaseExpires.value) || !PositiveSafe(a.hardDeadline)
           || (g.scan.accepted.Some? && !(PositiveSafe(g.scan.accepted.value.fence)
                                          && ValidDigest(g.scan.accepted.value.digest)))
        then None
        else Some(CommitSnapshot(g.scan.job, g.scan.current.value, g.scan.fence, a.state,
                                 a.leaseExpires.value, a.hardDeadline, g.scan.accepted))
  }

  function StoreResult(db: Db, id: Id, submitted: Identity, projection: Projection, now: int): Tx<(Db, CommitResult)>
    requires id in db.groups
  {
    var g := db.groups[id];
    var _ :- Ensure(&& submitted.attempt in g.attempts
                   && var a := g.attempts[submitted.attempt];
                      && a.fence == submitted.fence && a.state == Running
                      && a.leaseExpires.Some? && a.leaseExpires.value > now && a.hardDeadline > now, CommitCas);
    var g1 :- FinishAttempt(g, submitted.attempt, Succeeded, now);
    var _ :- Ensure(&& g1.scan.job == JobRunning && g1.scan.current == Some(submitted.attempt)
                   && g1.scan.fence == submitted.fence && g1.scan.accepted.None?, CommitCas);
    var g2 :- UpdateScan(g1, g1.scan.(job := JobSucceeded, accepted := Some(submitted), updated := now));
    var row := ResultRow(submitted.attempt, submitted.fence, submitted.digest, now, projection);
    var _ :- Ensure(g2.result.None?, UniqueViolation);
    var _ :- Ensure(ResultInsertAllowed(g2, row), ConstraintViolation);
    match ReleaseTx(db.(groups := db.groups[id := g2.(result := Some(row))]), id, now, TerminalResult)
    case None => Throw(AbuseRelease)
    case Some(released) => Done((released, Committed))
  }

  function CommitTx(db: Db, id: Id, submitted: Identity, projection: Projection, now: int): Tx<(Db, CommitResult)> {
    match LockedState(db, id, now)
    case None => Done((db, CommitDenied(InvalidState, true)))
    case Some(snapshot) =>
      match DecideCommit(snapshot, submitted, now)
      case Deny(code, audit) => Done((db, CommitDenied(code, audit)))
      case AlreadyCommitted => Done((db, CommitReplayed))
      case PrimaryCommit =>
        if projection.host != db.groups[id].scan.target then Done((db, SubmissionRejected))
        else StoreResult(db, id, submitted, projection, now)
  }

  function CommitStep(db: Db, id: Id, submitted: Identity, projection: Projection, now: int): (Db, CommitResult) {
    match CommitTx(db, id, submitted, projection, now)
    case Done(r) => r
    case Throw(fault) => (db, CommitUnavailable(fault))
  }

  /** The security-audit flag the committer returns beside its code. */
  predicate EmitsAudit(r: CommitResult) {
    r.SubmissionRejected? || (r.CommitDenied? && r.audit)
  }

  /** Whether the rejection sink records the code as security relevant. */
  predicate SinkSecurityRelevant(r: CommitResult) {
    r.SubmissionRejected? || (r.CommitDenied? && r.code in {InvalidState, ResultDigestConflict})
  }

  // ---- create, replay or replace ------------------------------------------

  /** The fields authenticated by a result token; the MAC itself is taken to be
      determined by, and to determine, this tuple and the key. */
  datatype Token = Token(scan: Id, nonce: string, accessExpires: int, key: seq<char>)

  datatype CreateRequest = CreateRequest(
    session: Digest,
    key: string,
    requestHash: Digest,
    target: Host,
    networks: seq<Digest>,
    now: int)

  /** What the token keyring, the id source and the nonce source supply. */
  datatype CreateInputs = CreateInputs(
    keyring: map<int, seq<char>>,
    activeKey: int,
    freshScan: Id,
    freshNonce: string)

  datatype CreateResult =
    | ScanCreated(scan: Id, token: Token, accessExpires: int, replaced: bool)
    | ScanReplayed(scan: Id, token: Token, accessExpires: int, remaining: int)
    | CreateInvalidRequest
    | CreateInvalidRecord
    | KeyReused
    | AccessRevoked
    | TokenUnavailable
    | AbuseLimited(denial: Denial)
    | CreateUnavailable(cause: Fault)

  predicate DistinctDigests(ds: seq<Digest>) {
    forall i, j | 0 <= i < j < |ds| :: ds[i] != ds[j]
  }

  predicate ValidCreateRequest(r: CreateRequest) {
    && 1 <= |r.networks| <= 3
    && DistinctDigests(r.networks)
    && 0 <= r.now
    && r.now + RETENTION_SECONDS <= MAX_UNIX_SECONDS
  }

  const TOKEN_NONCE_BYTES: int := 32
  const MIN_KEY_BYTES: int := 32

  predicate UsableKey(keyring: map<int, seq<char>>, version: int) {
    version in keyring && |keyring[version]| >= MIN_KEY_BYTES
  }

  datatype ReplayDecision = DecideCreate | DecideReplace | DecideReplay(token: Token) | DecideDeny(result: CreateResult)

  /** Idempotency: what an existing row with the same session and key means. */
  function DecideIdempotency(
    existing: Option<(Id, Scan)>, requestHash: Digest, now: int, keyring: map<int, seq<char>>): ReplayDecision
  {
    if existing.None? then DecideCreate
    else
      var (id, row) := existing.value;
      if row.created + ACCESS_SECONDS != row.replayExpires || row.replayExpires > UINT64_MAX then
        DecideDeny(CreateInvalidRecord)
      else if now >= row.replayExpires then DecideReplace
      else if row.requestHash != requestHash then DecideDeny(KeyReused)
      else if row.revoked.Some? then DecideDeny(AccessRevoked)
      else if !UsableKey(keyring, row.tokenKeyVersion) then DecideDeny(TokenUnavailable)
      else DecideReplay(Token(id, row.tokenNonce, row.replayExpires, keyring[row.tokenKeyVersion]))
  }

  function Existing(db: Db, session: Digest, key: string): Option<(Id, Scan)> {
    if (session, key) in db.index && db.index[(session, key)] in db.groups
    then Some((db.index[(session, key)], db.groups[db.index[(session, key)]].scan))
    else None
  }

  /** DELETE FROM guest_scans with its cascades. */
  function DeleteScan(db: Db, id: Id): Db
    requires id in db.groups
  {
    db.(groups := db.groups - {id},
        index := db.index - {(db.groups[id].scan.session, db.groups[id].scan.key)})
  }

  function NewScan(r: CreateRequest, c: CreateInputs): Scan {
    Scan(r.target, r.session, r.key, r.requestHash, r.now, r.now,
         r.now + ACCESS_SECONDS, r.now + ACCESS_SECONDS, r.now + RETENTION_SECONDS,
         JobQueued, c.freshNonce, c.activeKey, None, None, 0, None)
  }

  function InsertScan(db: Db, r: CreateRequest, c: CreateInputs): Tx<Db> {
    if c.freshScan in db.groups || (r.session, r.key) in db.index then Throw(UniqueViolation)
    else if !ScanCheck(NewScan(r, c)) then Throw(ConstraintViolation)
    else Done(db.(groups := db.groups[c.freshScan := ScanGroup(NewScan(r, c), map[], None, None)],
                  index := db.index[(r.session, r.key) := c.freshScan]))
  }

  function ReleaseReplaced(db: Db, existing: Option<(Id, Scan)>, now: int): Tx<Db> {
    if existing.None? then Done(db)
    else
      var id := existing.value.0;
      match ReleaseTx(db, id, now, ExpiredReplacement)
      case None => Throw(AbuseRelease)
      case Some(released) => if id in released.groups then Done(DeleteScan(released, id)) else Throw(ReplaceCas)
  }

  function CreateTx(db: Db, r: CreateRequest, c: CreateInputs): Tx<(Db, CreateResult)> {
    var existing := Existing(db, r.session, r.key);
    match DecideIdempotency(existing, r.requestHash, r.now, c.keyring)
    case DecideDeny(result) => Done((db, result))
    case DecideReplay(token) =>
      Done((db, ScanReplayed(token.scan, token, token.accessExpires, token.accessExpires - r.now)))
    case decision =>
      if !ValidId(c.freshScan) || |c.freshNonce| != TOKEN_NONCE_BYTES || !UsableKey(c.keyring, c.activeKey)
      then Done((db, TokenUnavailable))
      else
        var expires := r.now + ACCESS_SECONDS;
        var token := Token(c.freshScan, c.freshNonce, expires, c.keyring[c.activeKey]);
        var db1 :- ReleaseReplaced(db, existing, r.now);
        var db2 :- InsertScan(db1, r, c);
        var reserved :- ReserveTx(db2, c.freshScan, r.session, r.networks, r.now);
        match reserved
        case Reserved(db3) => Done((db3, ScanCreated(c.freshScan, token, expires, decision.DecideReplace?)))
        case NotReserved(Refuse(denial)) => Done((db, AbuseLimited(denial)))
        case NotReserved(_) => Throw(InvalidAbuseContext)
  }

  function CreateStep(db: Db, r: CreateRequest, c: CreateInputs): (Db, CreateResult) {
    if !ValidCreateRequest(r) then (db, CreateInvalidRequest)
    else
      match CreateTx(db, r, c)
      case Done(out) => out
      case Throw(fault) => (db, CreateUnavailable(fault))
  }

  // ---- retention ----------------------------------------------------------

  datatype BatchTotals = BatchTotals(
    observedAt: int,
    dueSelected: int,
    scansDeleted: int,
    decrements: int,
    staleWindows: int,
    inconsistencies: int,
    moreWork: bool,
    alert: bool)

  datatype RetainResult = BatchDone(totals: BatchTotals) | BatchInvalid | BatchUnavailable

  const MAX_BATCH_SIZE: int := 1_000

  predicate DueScan(db: Db, id: Id, now: int) {
    id in db.groups && db.groups[id].scan.deletion <= now
  }

  predicate StaleWindow(db: Db, k: WindowKey, now: int) {
    k in db.windows && db.windows[k].reset <= now
  }

  /** The rows a LIMITed SELECT returns when it meets the candidates in the order
      `visit`; rows that are locked by others are simply not in `visit`. */
  function SelectDue(db: Db, visit: seq<Id>, now: int, limit: nat): (due: seq<Id>)
    ensures |due| <= limit
    ensures forall i | 0 <= i < |due| :: due[i] in db.groups && DueScan(db, due[i], now) && due[i] in visit
    ensures forall i, j | 0 <= i < j < |due| :: due[i] != due[j]
    ensures |due| < limit ==> forall i | 0 <= i < |visit| && DueScan(db, visit[i], now) :: visit[i] in due
  {
    if visit == [] then []
    else
      var rest := SelectDue(db, visit[..|visit| - 1], now, limit);
      var id := visit[|visit| - 1];
      if |rest| < limit && DueScan(db, id, now) && id !in rest then rest + [id] else rest
  }

  function SelectStale(db: Db, visit: seq<WindowKey>, now: int, limit: nat): (stale: seq<WindowKey>)
    ensures |stale| <= limit
    ensures forall i | 0 <= i < |stale| :: StaleWindow(db, stale[i], now) && stale[i] in visit
    ensures forall i, j | 0 <= i < j < |stale| :: stale[i] != stale[j]
    ensures |stale| < limit ==> forall i | 0 <= i < |visit| && StaleWindow(db, visit[i], now) :: visit[i] in stale
  {
    if visit == [] then []
    else
      var rest := SelectStale(db, visit[..|visit| - 1], now, limit);
      var k := visit[|visit| - 1];
      assert forall i | 0 <= i < |visit| :: visit[i] == k || visit[i] in visit[..|visit| - 1];
      if |rest| < limit && StaleWindow(db, k, now) && k !in rest then rest + [k] else rest
  }

  /** Retention's own decrement: a missing counter is counted, not fatal. */
  function DecrementOrReport(active: Active, k: ActiveKey): (Active, int, int) {
    match Decrement(active, k)
    case None => (active, 0, 1)
    case Some(active') => (active', 1, 0)
  }

  /** Counters after returning a due scan's quota, with decrements and inconsistencies. */
  function ReleaseDue(active: Active, reservation: Option<Reservation>): (Active, int, int) {
    if reservation.None? then (active, 0, 1)
    else if reservation.value.released.Some? then (active, 0, 0)
    else
      var (active1, d1, i1) := DecrementOrReport(active, SessionActive(reservation.value.session));
      var (active2, d2, i2) := DecrementOrReport(active1, NetworkActive(reservation.value.network));
      (active2, d1 + d2, i1 + i2)
  }

  /** Delete the listed scans one after the other. */
  function DeleteDue(db: Db, due: seq<Id>): (Db, int, int)
    requires forall i | 0 <= i < |due| :: due[i] in db.groups
    requires forall i, j | 0 <= i < j < |due| :: due[i] != due[j]
    ensures forall id :: id in DeleteDue(db, due).0.groups <==> id in db.groups && id !in due
  {
    if due == [] then (db, 0, 0)
    else
      var (before, decrements, inconsistencies) := DeleteDue(db, due[..|due| - 1]);
      var id := due[|due| - 1];
      var (active, d, i) := ReleaseDue(before.active, before.groups[id].reservation);
      (DeleteScan(before.(active := active), id), decrements + d, inconsistencies + i)
  }

  predicate MoreWork(db: Db, now: int) {
    || (exists id | id in db.groups :: DueScan(db, id, now))
    || (exists k | k in db.windows :: StaleWindow(db, k, now))
  }

  function DeleteWindows(db: Db, stale: seq<WindowKey>): Db {
    db.(windows := db.windows - (set k | k in stale))
  }

  function RetainTx(db: Db, now: int, batch: nat, visitScans: seq<Id>, visitWindows: seq<WindowKey>): (Db,
                    BatchTotals) {
    var due := SelectDue(db, visitScans, now, batch);
    var (db1, decrements, inconsistencies) := DeleteDue(db, due);
    var stale := SelectStale(db1, visitWindows, now, batch);
    var db2 := DeleteWindows(db1, stale);
    (db2, BatchTotals(now, |due|, |due|, decrements, |stale|, inconsistencies, MoreWork(db2, now), inconsistencies > 0))
  }

  function RetainStep(db: Db, now: int, batch: int, visitScans: seq<Id>, visitWindows: seq<WindowKey>): (Db,
                      RetainResult) {
    if !(1 <= batch <= MAX_BATCH_SIZE) then (db, BatchInvalid)
    else if !ReadableClock(now) then (db, BatchUnavailable)
    else
      var (db', totals) := RetainTx(db, now, batch, visitScans, visitWindows);
      (db', BatchDone(totals))
  }
}
