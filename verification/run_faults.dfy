/** Which rollbacks can happen at all, over every run; and that under one
    monotone clock none is left but a bad attempt or scan id, or a write past
    the deletion deadline. */
module RunFaults {
  import opened Basics
  import opened ScanProtocol
  import opened GuestOutput
  import opened Tables
  import opened Quota
  import opened Transactions
  import opened Invariant
  import opened LedgerProofs
  import opened StepProofs
  import opened CommitProofs
  import opened CreateProofs
  import opened RetentionProofs
  import opened Runs

  function FaultOf(o: Answer): Option<Fault> {
    match o
    case OfCreate(CreateUnavailable(fault)) => Some(fault)
    case OfAcquire(AcquireUnavailable(fault)) => fault
    case OfHeartbeat(HeartbeatUnavailable(fault)) => fault
    case OfCommit(CommitUnavailable(fault)) => Some(fault)
    case OfCancel(CancelUnavailable(fault)) => fault
    case _ => None
  }

  function TimeOf(e: Event): int {
    match e
    case CreateEvent(r, _) => r.now
    case AcquireEvent(_, now, _) => now
    case StartEvent(_, now) => now
    case RenewEvent(_, now) => now
    case CommitEvent(_, _, _, now) => now
    case CancelEvent(_, now) => now
    case RetainEvent(now, _, _, _) => now
    case ServiceEvent(_, now) => now
  }

  // ---- arbitrary clocks ---------------------------------------------------

  /** The only reasons for a rollback that any clock and any id source can cause. */
  predicate ReachableFault(f: Fault) {
    f in {AttemptIdFault, UniqueViolation, ConstraintViolation, AbuseRelease, AbuseState}
  }

  /** A transaction that was not rolled back never answers with a fault. */
  lemma CommittedCreate(db: Db, r: CreateRequest, c: CreateInputs)
    ensures CreateTx(db, r, c).Done? ==> FaultOf(OfCreate(CreateTx(db, r, c).value.1)).None?
  {
    hide ReserveTx, ReleaseReplaced, InsertScan, ValidId;
  }

  lemma CommittedAcquire(db: Db, id: Id, now: int, a: Id)
    ensures AcquireTx(db, id, now, a).Done? ==> FaultOf(OfAcquire(AcquireTx(db, id, now, a).value.1)).None?
  {
    hide FinishAttempt, ReadableScan, ReadableAttempt, AttemptIdTaken, UpdateScan, UpdateAttempt, ReleaseTx;
  }

  lemma CommittedHeartbeat(db: Db, c: LeaseCommand, now: int)
    ensures StartTx(db, c, now).Done? ==> FaultOf(OfHeartbeat(StartTx(db, c, now).value.1)).None?
    ensures RenewTx(db, c, now).Done? ==> FaultOf(OfHeartbeat(RenewTx(db, c, now).value.1)).None?
  {
    hide CommandIsCurrent, UpdateAttempt;
  }

  lemma CommittedCommit(db: Db, id: Id, submitted: Identity, projection: Projection, now: int)
    ensures CommitTx(db, id, submitted, projection, now).Done? ==>
              FaultOf(OfCommit(CommitTx(db, id, submitted, projection, now).value.1)).None?
  {
    hide LockedState, DecideCommit, FinishAttempt, UpdateScan, ReleaseTx, ResultInsertAllowed;
  }

  lemma CommittedCancel(db: Db, id: Id, now: int)
    ensures CancelTx(db, id, now).Done? ==> FaultOf(OfCancel(CancelTx(db, id, now).value.1)).None?
  {
    hide CancelAttempt, ReadableScan, UpdateScan, ReleaseTx;
  }

  lemma StepFaults(db: Db, e: Event)
    requires Inv(db)
    ensures FaultOf(Step(db, e).1).Some? ==> ReachableFault(FaultOf(Step(db, e).1).value)
  {
    hide Inv, CreateTx, AcquireTx, StartTx, RenewTx, CommitTx, CancelTx, RetainTx, NeedsNewScan, FreshIdTaken,
         ReplacesTooLate, AcquireWrites, AcquireBlocked, TerminationClockOk, Acceptable, JobEnded, CommandIsCurrent,
         OnlyGroup, LeaseAttached;
    match e
    case CreateEvent(r, c) =>
      if ValidCreateRequest(r) {
        CreateEffect(db, r, c);
        CommittedCreate(db, r, c);
      }
    case AcquireEvent(id, now, a) =>
      if ReadableClock(now) {
        AcquireEffect(db, id, now, a);
        CommittedAcquire(db, id, now, a);
      }
    case StartEvent(c, now) =>
      StartEffect(db, c, now);
      CommittedHeartbeat(db, c, now);
    case RenewEvent(c, now) =>
      RenewEffect(db, c, now);
      CommittedHeartbeat(db, c, now);
    case CommitEvent(id, i, p, now) =>
      CommitEffect(db, id, i, p, now);
      CommittedCommit(db, id, i, p, now);
    case CancelEvent(id, now) =>
      CancelEffect(db, id, now);
      CommittedCancel(db, id, now);
    case RetainEvent(_, _, _, _) =>
    case ServiceEvent(_, _) =>
  }

  /** After any run, with any clocks: no compare-and-set update ever misses its
      row, no attempt is found in an impossible state, no lease is granted
      without time, no counter is missing, no admission context is invalid. */
  lemma NoInternalFault(es: seq<Event>, e: Event)
    ensures FaultOf(Step(Run(EMPTY, es), e).1).Some? ==> ReachableFault(FaultOf(Step(Run(EMPTY, es), e).1).value)
  {
    hide Inv, Step, Run, FaultOf, ReachableFault;
    EmptyInv();
    RunKeepsInv(EMPTY, es);
    StepFaults(Run(EMPTY, es), e);
  }

  // ---- one monotone clock -------------------------------------------------

  ghost predicate GroupClocked(g: ScanGroup, t: int) {
    && g.scan.updated <= t
    && forall a | a in g.attempts :: g.attempts[a].updated <= t
  }

  /** Nothing in the state was written after `t`. */
  ghost predicate Clocked(db: Db, t: int) {
    && (forall id | id in db.groups :: GroupClocked(db.groups[id], t))
    && (forall k | k in db.windows :: db.windows[k].reset <= t + WindowSeconds(k.dimension))
  }

  lemma ClockedLater(db: Db, t: int, t': int)
    requires Clocked(db, t) && t <= t'
    ensures Clocked(db, t')
  {
    forall id | id in db.groups
      ensures GroupClocked(db.groups[id], t')
    {
      assert GroupClocked(db.groups[id], t);
    }
  }

  /** Replacing one scan's rows by rows that were not written after `t`. */
  lemma ClockedGroup(db: Db, db': Db, id: Id, t: int)
    requires Clocked(db, t) && OnlyGroup(db, db', id) && GroupClocked(db'.groups[id], t)
    ensures Clocked(db', t)
  {
    hide GroupClocked;
  }

  lemma FinishedClocked(g: ScanGroup, g': ScanGroup, t: int)
    requires GroupClocked(g, t)
    requires g'.scan.updated <= t
    requires forall a | a in g'.attempts ::
               (a in g.attempts && RowFinished(g.attempts[a], g'.attempts[a], t)) || g'.attempts[a].updated == t
    ensures GroupClocked(g', t)
  {
  }

  lemma AcquireClocked(db: Db, id: Id, now: int, newAttempt: Id)
    requires Inv(db) && Clocked(db, now) && ReadableClock(now)
    ensures AcquireTx(db, id, now, newAttempt).Done? ==> Clocked(AcquireTx(db, id, now, newAttempt).value.0, now)
  {
    hide Inv, AcquireTx, Clocked, GroupClocked, AcquireBlocked, RowFinished;
    AcquireEffect(db, id, now, newAttempt);
    var r := AcquireTx(db, id, now, newAttempt);
    if r.Done? && AcquireWrites(db, id, now) {
      GroupClockedIn(db, id, now);
      FinishedClocked(db.groups[id], r.value.0.groups[id], now);
      ClockedGroup(db, r.value.0, id, now);
    }
  }

  lemma GroupClockedIn(db: Db, id: Id, t: int)
    requires Clocked(db, t) && id in db.groups
    ensures GroupClocked(db.groups[id], t)
  {
  }

  lemma RowClocked(g: ScanGroup, a: Id, row: Attempt, t: int)
    requires GroupClocked(g, t) && row.updated <= t
    ensures GroupClocked(g.(attempts := g.attempts[a := row]), t)
  {
  }

  lemma HeartbeatClocked(db: Db, c: LeaseCommand, now: int)
    requires Inv(db) && Clocked(db, now)
    ensures StartTx(db, c, now).Done? ==> Clocked(StartTx(db, c, now).value.0, now)
    ensures RenewTx(db, c, now).Done? ==> Clocked(RenewTx(db, c, now).value.0, now)
  {
    hide Inv, StartTx, RenewTx, Clocked, GroupClocked;
    StartEffect(db, c, now);
    RenewEffect(db, c, now);
    var s, r := StartTx(db, c, now), RenewTx(db, c, now);
    if s.Done? && s.value.1 == Started {
      GroupClockedIn(db, c.scan, now);
      RowClocked(db.groups[c.scan], c.attempt, s.value.0.groups[c.scan].attempts[c.attempt], now);
      ClockedGroup(db, s.value.0, c.scan, now);
    }
    if r.Done? && r.value.1.Renewed? {
      GroupClockedIn(db, c.scan, now);
      RowClocked(db.groups[c.scan], c.attempt, r.value.0.groups[c.scan].attempts[c.attempt], now);
      ClockedGroup(db, r.value.0, c.scan, now);
    }
  }

  lemma CommitClocked(db: Db, id: Id, submitted: Identity, projection: Projection, now: int)
    requires Inv(db) && Clocked(db, now)
    ensures CommitTx(db, id, submitted, projection, now).Done? ==>
              Clocked(CommitTx(db, id, submitted, projection, now).value.0, now)
  {
    hide Inv, CommitTx, Clocked, GroupClocked;
    CommitEffect(db, id, submitted, projection, now);
    var r := CommitTx(db, id, submitted, projection, now);
    if r.Done? && r.value.1 == Committed {
      GroupClockedIn(db, id, now);
      var g' := r.value.0.groups[id];
      GroupClockedOf(db.groups[id], g', submitted.attempt, now);
      ClockedGroup(db, r.value.0, id, now);
    }
  }

  lemma GroupClockedOf(g: ScanGroup, g': ScanGroup, a: Id, t: int)
    requires GroupClocked(g, t) && g'.scan.updated <= t
    requires a in g'.attempts && g'.attempts == g.attempts[a := g'.attempts[a]] && g'.attempts[a].updated <= t
    ensures GroupClocked(g', t)
  {
  }

  lemma CancelClocked(db: Db, id: Id, now: int)
    requires Inv(db) && Clocked(db, now)
    ensures CancelTx(db, id, now).Done? ==> Clocked(CancelTx(db, id, now).value.0, now)
  {
    hide Inv, CancelTx, Clocked, GroupClocked, TerminationClockOk, RowFinished;
    CancelEffect(db, id, now);
    var r := CancelTx(db, id, now);
    if r.Done? && r.value.1 == ScanCancelled {
      GroupClockedIn(db, id, now);
      FinishedClocked(db.groups[id], r.value.0.groups[id], now);
      ClockedGroup(db, r.value.0, id, now);
    }
  }

  lemma CreateClocked(db: Db, r: CreateRequest, c: CreateInputs)
    requires Inv(db) && Clocked(db, r.now) && ValidCreateRequest(r)
    ensures CreateTx(db, r, c).Done? ==> Clocked(CreateTx(db, r, c).value.0, r.now)
  {
    hide Inv, CreateTx, NeedsNewScan, FreshIdTaken, ReplacesTooLate, Predecessor, AdmittedWindows, RefreshedWindow;
    CreateEffect(db, r, c);
    var out := CreateTx(db, r, c);
    if out.Done? && out.value.1.ScanCreated? {
      forall k | k in out.value.0.windows
        ensures out.value.0.windows[k].reset <= r.now + WindowSeconds(k.dimension)
      {
        WindowsAfterAdmission(db.windows, r.session, r.networks[0], r.now, k);
        RefreshedClocked(db.windows, k, r.now);
      }
    }
  }

  lemma RefreshedClocked(ws: Windows, k: WindowKey, now: int)
    requires k in ws ==> ws[k].reset <= now + WindowSeconds(k.dimension)
    ensures RefreshedWindow(ws, k, now).reset <= now + WindowSeconds(k.dimension)
  {
  }

  lemma RetainClocked(db: Db, now: int, batch: nat, visitScans: seq<Id>, visitWindows: seq<WindowKey>)
    requires Inv(db) && Clocked(db, now)
    ensures Clocked(RetainTx(db, now, batch, visitScans, visitWindows).0, now)
  {
    hide Inv, RetainTx, GroupClocked;
    RetainEffect(db, now, batch, visitScans, visitWindows);
  }

  lemma StepClocked(db: Db, e: Event)
    requires Inv(db) && Clocked(db, TimeOf(e))
    ensures Clocked(Step(db, e).0, TimeOf(e))
  {
    hide Inv, Clocked, CreateTx, AcquireTx, StartTx, RenewTx, CommitTx, CancelTx, RetainTx;
    match e
    case CreateEvent(r, c) =>
      if ValidCreateRequest(r) {
        CreateClocked(db, r, c);
      }
    case AcquireEvent(id, now, a) =>
      if ReadableClock(now) {
        AcquireClocked(db, id, now, a);
      }
    case StartEvent(c, now) => HeartbeatClocked(db, c, now);
    case RenewEvent(c, now) => HeartbeatClocked(db, c, now);
    case CommitEvent(id, i, p, now) => CommitClocked(db, id, i, p, now);
    case CancelEvent(id, now) => CancelClocked(db, id, now);
    case RetainEvent(now, n, vs, vw) =>
      if 1 <= n <= MAX_BATCH_SIZE {
        RetainClocked(db, now, n, vs, vw);
      }
    case ServiceEvent(paused, now) => ServiceClocked(db, paused, now);
  }

  lemma ServiceClocked(db: Db, paused: bool, t: int)
    requires Clocked(db, t)
    ensures Clocked(db.(paused := paused), t)
  {
    hide GroupClocked;
  }

  /** The readings of the run's clocks never step back. */
  ghost predicate Monotone(es: seq<Event>) {
    forall i, j | 0 <= i <= j < |es| :: TimeOf(es[i]) <= TimeOf(es[j])
  }

  lemma {:induction false} RunClocked(es: seq<Event>, t: int)
    requires Monotone(es) && (es != [] ==> TimeOf(es[|es| - 1]) <= t)
    ensures Clocked(Run(EMPTY, es), t) && Inv(Run(EMPTY, es))
  {
    hide Inv, Step, Clocked;
    EmptyInv();
    RunKeepsInv(EMPTY, es);
    if es == [] {
      EmptyClocked(t);
    } else {
      var init := es[..|es| - 1];
      var last := es[|es| - 1];
      RunClocked(init, TimeOf(last));
      StepClocked(Run(EMPTY, init), last);
      ClockedLater(Run(EMPTY, es), TimeOf(last), t);
    }
  }

  lemma EmptyClocked(t: int)
    ensures Clocked(EMPTY, t)
  {
  }

  // ---- the faults that are left -------------------------------------------

  /** The scan's job is still live although it should have been deleted. */
  predicate PastDeletion(db: Db, id: Id, now: int) {
    id in db.groups && LiveJob(db.groups[id].scan.job) && db.groups[id].scan.deletion < now
  }

  /** The attempt id that the source of ids supplied cannot be used. */
  predicate BadAttemptId(db: Db, a: Id) {
    !ValidId(a) || AttemptIdTaken(db, a)
  }

  /** Exactly when a step at a time no row is ahead of is rolled back. */
  ghost predicate Rejected(db: Db, e: Event) {
    match e
    case CreateEvent(r, c) =>
      && ValidCreateRequest(r) && NeedsNewScan(db, r, c)
      && (FreshIdTaken(db, r, c)
          || (Existing(db, r.session, r.key).Some? && PastDeletion(db, Existing(db, r.session, r.key).value.0, r.now)))
    case AcquireEvent(id, now, a) =>
      && ReadableClock(now)
      && (PastDeletion(db, id, now)
          || (AcquireWrites(db, id, now) && !AcquireEnds(db, id, now) && BadAttemptId(db, a)))
    case CancelEvent(id, now) => ReadableClock(now) && PastDeletion(db, id, now)
    case _ => false
  }

  lemma AcquireRejected(db: Db, id: Id, now: int, a: Id)
    requires Inv(db) && Clocked(db, now) && ReadableClock(now)
    ensures AcquireTx(db, id, now, a).Throw? <==> Rejected(db, AcquireEvent(id, now, a))
  {
    hide Inv, AcquireTx, CurrentRunOut, GroupOk, GroupShape, Retired, ReadableScan, ReadableAttempt, JobEnded, LeaseAttached;
    AcquireEffect(db, id, now, a);
    if id in db.groups {
      InvGroup(db, id);
      CurrentIsOk(id, db.groups[id]);
      GroupClockedIn(db, id, now);
    }
  }

  lemma CancelRejected(db: Db, id: Id, now: int)
    requires Inv(db) && Clocked(db, now)
    ensures CancelTx(db, id, now).Throw? <==> PastDeletion(db, id, now)
  {
    hide Inv, CancelTx, GroupOk, GroupShape, Retired, ReadableScan, ReadableAttempt, JobEnded;
    CancelEffect(db, id, now);
    if id in db.groups {
      InvGroup(db, id);
      CurrentIsOk(id, db.groups[id]);
      GroupClockedIn(db, id, now);
    }
  }

  lemma CreateRejected(db: Db, r: CreateRequest, c: CreateInputs)
    requires Inv(db) && Clocked(db, r.now) && ValidCreateRequest(r)
    ensures CreateTx(db, r, c).Throw? <==> Rejected(db, CreateEvent(r, c))
  {
    hide Inv, CreateTx, NeedsNewScan, FreshIdTaken, GroupOk, AdmittedWindows, RefreshedWindow;
    CreateEffect(db, r, c);
    NotAhead(db, r.session, r.networks, r.now);
    ExistingFacts(db, r.session, r.key);
    var existing := Existing(db, r.session, r.key);
    if existing.Some? {
      InvGroup(db, existing.value.0);
      ChargedIffLive(existing.value.0, db.groups[existing.value.0]);
    }
  }

  lemma NotAhead(db: Db, session: Digest, networks: seq<Digest>, now: int)
    requires Clocked(db, now)
    ensures !WindowsAhead(db.windows, session, networks, now)
  {
  }

  lemma HeartbeatAccepted(db: Db, c: LeaseCommand, now: int)
    requires Inv(db) && Clocked(db, now)
    ensures StartTx(db, c, now).Done? && RenewTx(db, c, now).Done?
  {
    hide Inv, StartTx, RenewTx, ReadableAttempt;
    StartEffect(db, c, now);
    RenewEffect(db, c, now);
    if c.scan in db.groups {
      GroupClockedIn(db, c.scan, now);
    }
  }

  lemma CommitAccepted(db: Db, id: Id, submitted: Identity, projection: Projection, now: int)
    requires Inv(db) && Clocked(db, now)
    ensures CommitTx(db, id, submitted, projection, now).Done?
  {
    hide Inv, CommitTx, ValidIdentity;
    CommitEffect(db, id, submitted, projection, now);
    if id in db.groups {
      GroupClockedIn(db, id, now);
    }
  }

  lemma StepRejected(db: Db, e: Event)
    requires Inv(db) && Clocked(db, TimeOf(e))
    ensures FaultOf(Step(db, e).1).Some? ==> Rejected(db, e)
    ensures Rejected(db, e) ==>
              match e
              case AcquireEvent(id, _, _) => ValidId(id) ==> FaultOf(Step(db, e).1).Some?
              case CancelEvent(id, _) => ValidId(id) ==> FaultOf(Step(db, e).1).Some?
              case _ => FaultOf(Step(db, e).1).Some?
  {
    hide Inv, Clocked, CreateTx, AcquireTx, StartTx, RenewTx, CommitTx, CancelTx, RetainTx, AcquireWrites, AcquireEnds,
         NeedsNewScan, FreshIdTaken, BadAttemptId, Existing, ValidId;
    match e
    case CreateEvent(r, c) =>
      if ValidCreateRequest(r) {
        CreateRejected(db, r, c);
        CommittedCreate(db, r, c);
      }
    case AcquireEvent(id, now, a) =>
      if ReadableClock(now) {
        AcquireRejected(db, id, now, a);
        CommittedAcquire(db, id, now, a);
      }
    case StartEvent(c, now) =>
      HeartbeatAccepted(db, c, now);
      CommittedHeartbeat(db, c, now);
    case RenewEvent(c, now) =>
      HeartbeatAccepted(db, c, now);
      CommittedHeartbeat(db, c, now);
    case CommitEvent(id, i, p, now) =>
      CommitAccepted(db, id, i, p, now);
      CommittedCommit(db, id, i, p, now);
    case CancelEvent(id, now) =>
      CancelRejected(db, id, now);
      CommittedCancel(db, id, now);
    case RetainEvent(_, _, _, _) =>
    case ServiceEvent(_, _) =>
  }

  /** The ids of a well-formed event; malformed ones are answered before any
      transaction begins. */
  predicate WellAddressed(e: Event) {
    match e
    case AcquireEvent(id, _, _) => ValidId(id)
    case CancelEvent(id, _) => ValidId(id)
    case _ => true
  }

  /** Under one monotone clock a transaction is rolled back if and only if it
      writes past the deletion deadline of a scan still live, or is handed an
      unusable fresh id. Starting, renewing and committing never are. */
  lemma RejectedExactly(es: seq<Event>, e: Event)
    requires Monotone(es + [e]) && WellAddressed(e)
    ensures FaultOf(Step(Run(EMPTY, es), e).1).Some? <==> Rejected(Run(EMPTY, es), e)
  {
    hide Inv, Step, Run, FaultOf, Rejected, Clocked;
    assert (es + [e])[|es|] == e;
    assert forall i | 0 <= i < |es| :: (es + [e])[i] == es[i];
    RunClocked(es, TimeOf(e));
    StepRejected(Run(EMPTY, es), e);
  }

  // ---- the audit flag and the rejection sink ------------------------------

  /** On any consistent state the committer's audit flag equals the sink's own
      classification. */
  lemma CommitFlags(db: Db, id: Id, submitted: Identity, projection: Projection, now: int)
    requires Inv(db) && ValidIdentity(submitted)
    ensures var r := CommitStep(db, id, submitted, projection, now).1;
            EmitsAudit(r) <==> SinkSecurityRelevant(r)
  {
    hide Inv, ValidIdentity, ValidSnapshot, StoreResult;
    LockedFacts(db, id, now);
    CommitEffect(db, id, submitted, projection, now);
    if id in db.groups && Acceptable(db.groups[id], submitted, now) && projection.host == db.groups[id].scan.target {
      StoredIsCommitted(db, id, submitted, projection, now);
    }
  }

  /** The committer's audit flag always equals the sink's own classification,
      so a worker never discards a rejection because the two disagree. */
  lemma AuditFlagsAgree(es: seq<Event>, id: Id, submitted: Identity, projection: Projection, now: int)
    requires ValidIdentity(submitted)
    ensures var r := CommitStep(Run(EMPTY, es), id, submitted, projection, now).1;
            EmitsAudit(r) <==> SinkSecurityRelevant(r)
  {
    hide Inv, Run, CommitStep, ValidIdentity;
    EmptyInv();
    RunKeepsInv(EMPTY, es);
    CommitFlags(Run(EMPTY, es), id, submitted, projection, now);
  }

  lemma StoredIsCommitted(db: Db, id: Id, submitted: Identity, projection: Projection, now: int)
    requires Inv(db) && id in db.groups
    requires Acceptable(db.groups[id], submitted, now) && ValidIdentity(submitted)
    requires projection.host == db.groups[id].scan.target
    ensures var r := StoreResult(db, id, submitted, projection, now);
            r.Done? ==> r.value.1 == Committed
  {
    hide Inv, StoreResult, Acceptable, ValidIdentity;
    StoreEffect(db, id, submitted, projection, now);
  }
}
