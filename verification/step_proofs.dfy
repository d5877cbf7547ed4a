/** Every transaction keeps the invariant, and when exactly it is rolled back. */
module StepProofs {
  import opened Basics
  import opened ScanProtocol
  import opened Tables
  import opened Quota
  import opened Transactions
  import opened Invariant
  import opened LedgerProofs

  /** At most the group of `id` and the active counters differ. */
  ghost predicate OnlyGroup(db: Db, db': Db, id: Id) {
    && id in db.groups && id in db'.groups
    && db'.groups == db.groups[id := db'.groups[id]]
    && db'.index == db.index && db'.windows == db.windows && db'.paused == db.paused
  }

  ghost predicate LedgerOk(db: Db) {
    Balanced(db.active, db.groups) && WithinLimits(db.active)
  }

  lemma InvAfterGroup(db: Db, db': Db, id: Id)
    requires Inv(db) && OnlyGroup(db, db', id)
    requires GroupOk(id, db'.groups[id]) && LedgerOk(db')
    requires SameScanIdentity(db.groups[id].scan, db'.groups[id].scan)
    requires forall a | a in db'.groups[id].attempts :: a in db.groups[id].attempts || !AttemptIdTaken(db, a)
    ensures Inv(db')
  {
    hide GroupOk, Balanced, WithinLimits, WindowsOk;
    assert AttemptsApart(db'.groups) by {
      AttemptsStayApart(db, db', id);
    }
  }

  lemma AttemptsStayApart(db: Db, db': Db, id: Id)
    requires AttemptsApart(db.groups) && OnlyGroup(db, db', id)
    requires forall a | a in db'.groups[id].attempts :: a in db.groups[id].attempts || !AttemptIdTaken(db, a)
    ensures AttemptsApart(db'.groups)
  {
  }

  // ---- acquire ------------------------------------------------------------

  /** A scan to which a new attempt may be attached. */
  ghost predicate Grantable(id: Id, g: ScanGroup, no: int, fence: int) {
    && GroupShape(id, g) && Retired(g) && Unreleased(g)
    && LiveJob(g.scan.job)
    && no == fence == g.scan.fence + 1 <= MAX_ATTEMPTS
  }

  function LeasedRow(g: ScanGroup, no: int, fence: int, now: int): Attempt {
    var hard := Min(now + HARD_DEADLINE_SECONDS, g.scan.accessExpires);
    Attempt(no, fence, 1, Some(Min(now + LEASE_SECONDS, hard)), hard, Leased, now, now, None, None)
  }

  function GrantedScan(g: ScanGroup, attempt: Id, fence: int, now: int): Scan {
    g.scan.(job := JobRunning, current := Some(attempt), fence := fence, updated := now)
  }

  /** The group after an attempt was attached and leased. */
  function GrantedGroup(g: ScanGroup, attempt: Id, no: int, fence: int, now: int): ScanGroup {
    g.(scan := GrantedScan(g, attempt, fence, now),
       attempts := g.attempts[attempt := LeasedRow(g, no, fence, now)])
  }

  lemma NextNumberFree(id: Id, g: ScanGroup, no: int, fence: int)
    requires Grantable(id, g, no, fence)
    ensures !AttemptNumberTaken(g, no, fence)
  {
    forall a | a in g.attempts
      ensures g.attempts[a].no != no && g.attempts[a].fence != fence
    {
      assert AttemptShape(g, a);
    }
  }

  lemma GrantedRows(g: ScanGroup, attempt: Id, no: int, fence: int, now: int)
    requires ScanCheck(g.scan) && 0 <= g.scan.created && g.scan.deletion <= MAX_UNIX_SECONDS
    requires LiveJob(g.scan.job) && no == fence == g.scan.fence + 1 <= MAX_ATTEMPTS
    requires attempt !in g.attempts && (g.scan.current.Some? ==> g.scan.current.value in g.attempts)
    requires 0 <= now < g.scan.accessExpires
    ensures ScanCheck(GrantedScan(g, attempt, fence, now)) && ScanUpdateAllowed(g.scan, GrantedScan(g, attempt, fence, now))
            <==> g.scan.updated <= now
    ensures AttemptCheck(LeasedRow(g, no, fence, now))
  {
  }

  /** The lease says what the current attempt's row says. */
  ghost predicate NamesRow(l: Lease, id: Id, g: ScanGroup) {
    && l.scan == id
    && l.target == g.scan.target
    && l.attempt in g.attempts
    && g.scan.current == Some(l.attempt)
    && var t := g.attempts[l.attempt];
       && l.no == t.no && l.fence == t.fence && l.version == t.leaseVersion
       && Some(l.leaseExpires) == t.leaseExpires && l.hardDeadline == t.hardDeadline
  }

  /** Attaching an attempt fails only on its id or on a clock behind the scan row. */
  lemma GrantOutcome(db: Db, id: Id, attempt: Id, no: int, fence: int, now: int)
    requires id in db.groups && Grantable(id, db.groups[id], no, fence)
    requires 0 <= now < db.groups[id].scan.accessExpires
    ensures var r := GrantLease(db, id, attempt, no, fence, now);
            && (r.Done? <==> ValidId(attempt) && !AttemptIdTaken(db, attempt) && db.groups[id].scan.updated <= now)
            && (r.Throw? ==> r.fault in {AttemptIdFault, UniqueViolation, ConstraintViolation})
            && (r.Done? ==>
                  && r.value.1.LeaseGranted? && r.value.1.lease.attempt == attempt
                  && NamesRow(r.value.1.lease, id, r.value.0.groups[id])
                  && r.value.0 == db.(groups := db.groups[id := GrantedGroup(db.groups[id], attempt, no, fence, now)]))
  {
    hide AttemptShape, Retired, ReservationCheck, Unreleased;
    var g := db.groups[id];
    NextNumberFree(id, g, no, fence);
    if ValidId(attempt) && !AttemptIdTaken(db, attempt) {
      assert attempt !in g.attempts;
      GrantedRows(g, attempt, no, fence, now);
      var hard := Min(now + HARD_DEADLINE_SECONDS, g.scan.accessExpires);
      var created := Attempt(no, fence, 0, None, hard, Created, now, now, None, None);
      assert g.attempts[attempt := created][attempt := LeasedRow(g, no, fence, now)]
          == g.attempts[attempt := LeasedRow(g, no, fence, now)];
    }
  }

  /** Every attempt keeps its shape when a newer one is attached. */
  lemma GrantedShape(id: Id, g: ScanGroup, attempt: Id, no: int, fence: int, now: int, a: Id)
    requires Grantable(id, g, no, fence)
    requires ValidId(attempt) && attempt !in g.attempts
    requires g.scan.updated <= now < g.scan.accessExpires
    requires a in g.attempts || a == attempt
    ensures AttemptShape(GrantedGroup(g, attempt, no, fence, now), a)
    ensures a != attempt ==> g.attempts[a].fence < fence
  {
    hide ReservationCheck, Unreleased;
    GrantedRows(g, attempt, no, fence, now);
    if a != attempt {
      assert AttemptShape(g, a);
    }
  }

  lemma GrantedOk(id: Id, g: ScanGroup, attempt: Id, no: int, fence: int, now: int)
    requires Grantable(id, g, no, fence)
    requires ValidId(attempt) && attempt !in g.attempts
    requires g.scan.updated <= now < g.scan.accessExpires
    ensures GroupOk(id, GrantedGroup(g, attempt, no, fence, now))
  {
    hide AttemptCheck, AttemptShape, ScanUpdateAllowed, ReservationCheck, ValidIdentity;
    GrantedRows(g, attempt, no, fence, now);
    var g' := GrantedGroup(g, attempt, no, fence, now);
    forall a | a in g'.attempts
      ensures AttemptShape(g', a)
      ensures a != attempt ==> g'.attempts[a].fence < fence
    {
      GrantedShape(id, g, attempt, no, fence, now, a);
    }
  }

  lemma SameAttemptIds(db: Db, db': Db, id: Id, a: Id)
    requires OnlyGroup(db, db', id)
    requires db'.groups[id].attempts.Keys == db.groups[id].attempts.Keys
    ensures AttemptIdTaken(db', a) <==> AttemptIdTaken(db, a)
  {
    if AttemptIdTaken(db, a) {
      var s :| s in db.groups && a in db.groups[s].attempts;
      assert s in db'.groups && a in db'.groups[s].attempts;
    }
    if AttemptIdTaken(db', a) {
      var s :| s in db'.groups && a in db'.groups[s].attempts;
      assert s in db.groups && a in db.groups[s].attempts;
    }
  }

  /** Attaching an attempt keeps the invariant of the whole state. */
  lemma GrantKeepsInv(db: Db, mid: Db, id: Id, attempt: Id, no: int, fence: int, now: int)
    requires Inv(db) && OnlyGroup(db, mid, id) && mid.active == db.active
    requires mid.groups[id].reservation == db.groups[id].reservation
    requires mid.groups[id].attempts.Keys == db.groups[id].attempts.Keys
    requires mid.groups[id].scan == db.groups[id].scan
    requires Grantable(id, mid.groups[id], no, fence)
    requires 0 <= now < db.groups[id].scan.accessExpires
    requires GrantLease(mid, id, attempt, no, fence, now).Done?
    ensures Inv(GrantLease(mid, id, attempt, no, fence, now).value.0)
    ensures OnlyGroup(db, GrantLease(mid, id, attempt, no, fence, now).value.0, id)
  {
    hide GroupOk, GrantLease, GroupShape, Retired, WithinLimits, WindowsOk;
    GrantOutcome(mid, id, attempt, no, fence, now);
    SameAttemptIds(db, mid, id, attempt);
    var g' := GrantedGroup(mid.groups[id], attempt, no, fence, now);
    assert attempt !in mid.groups[id].attempts by {
      assert !AttemptIdTaken(mid, attempt);
    }
    GrantedOk(id, mid.groups[id], attempt, no, fence, now);
    BalancedSameCharge(db.active, db.groups, id, g');
    InvAfterGroup(db, GrantLease(mid, id, attempt, no, fence, now).value.0, id);
  }

  // ---- ending a job -------------------------------------------------------

  function EndedScan(g: ScanGroup, terminal: JobState, now: int): Scan {
    g.scan.(job := terminal, updated := now)
  }

  lemma EndedOk(id: Id, g: ScanGroup, now: int, terminal: JobState, reservation: Option<Reservation>)
    requires GroupShape(id, g) && Retired(g) && Unreleased(g) && LiveJob(g.scan.job)
    requires terminal in {JobFailed, JobExpired, JobCancelled}
    requires terminal == JobFailed ==> g.scan.job == JobRunning
    requires g.scan.updated <= now <= g.scan.deletion
    requires exists reason :: reservation == Some(g.reservation.value.(released := Some((now, reason))))
    ensures GroupOk(id, g.(scan := EndedScan(g, terminal, now), reservation := reservation))
  {
    var g' := g.(scan := EndedScan(g, terminal, now), reservation := reservation);
    forall a | a in g'.attempts
      ensures AttemptShape(g', a)
    {
      assert AttemptShape(g, a);
    }
  }

  /** Writing a terminal job state over a retired group and returning its quota. */
  lemma EndJobEffect(db: Db, id: Id, g: ScanGroup, now: int, terminal: JobState, reason: ReleaseReason)
    requires Inv(db)
    requires id in db.groups && db.groups[id].reservation == g.reservation
    requires db.groups[id].attempts.Keys == g.attempts.Keys && db.groups[id].scan == g.scan
    requires GroupShape(id, g) && Retired(g) && Unreleased(g) && LiveJob(g.scan.job)
    requires terminal in {JobFailed, JobExpired, JobCancelled}
    requires terminal == JobFailed ==> g.scan.job == JobRunning
    ensures UpdateScan(g, EndedScan(g, terminal, now)).Done? <==> g.scan.updated <= now <= g.scan.deletion
    ensures UpdateScan(g, EndedScan(g, terminal, now)).Done? ==>
              var mid := db.(groups := db.groups[id := UpdateScan(g, EndedScan(g, terminal, now)).value]);
              && ReleaseTx(mid, id, now, reason).Some?
              && var db' := ReleaseTx(mid, id, now, reason).value;
                 && Inv(db') && OnlyGroup(db, db', id)
                 && db'.groups[id].scan == EndedScan(g, terminal, now)
                 && db'.groups[id].attempts == g.attempts
                 && db'.groups[id].result == g.result
                 && db'.groups[id].reservation
                    == Some(g.reservation.value.(released := Some((now, reason))))
  {
    hide Inv, AttemptShape, Retired, Balanced, WithinLimits, GroupStates;
    InvLedger(db);
    var r := UpdateScan(g, EndedScan(g, terminal, now));
    if r.Done? {
      var mid := db.(groups := db.groups[id := r.value]);
      BalancedSameCharge(db.active, db.groups, id, r.value);
      ReleaseEffect(mid, id, now, reason);
      var db' := ReleaseTx(mid, id, now, reason).value;
      assert db'.groups == db.groups[id := db'.groups[id]];
      EndedOk(id, g, now, terminal, db'.groups[id].reservation);
      assert db'.groups[id] == g.(scan := EndedScan(g, terminal, now), reservation := db'.groups[id].reservation);
      EndJobInv(db, db', id);
    }
  }

  lemma InvLedger(db: Db)
    requires Inv(db)
    ensures Balanced(db.active, db.groups) && WithinLimits(db.active)
  {
  }

  lemma EndJobInv(db: Db, db': Db, id: Id)
    requires Inv(db) && OnlyGroup(db, db', id)
    requires GroupOk(id, db'.groups[id]) && LedgerOk(db')
    requires SameScanIdentity(db.groups[id].scan, db'.groups[id].scan)
    requires db.groups[id].attempts.Keys == db'.groups[id].attempts.Keys
    ensures Inv(db')
  {
    hide GroupOk, Balanced, WithinLimits, WindowsOk, AttemptsApart, IndexOk;
    InvAfterGroup(db, db', id);
  }

  /** Whether every row that ending the job writes accepts the stamp `now`. */
  ghost predicate TerminationClockOk(g: ScanGroup, now: int) {
    && g.scan.updated <= now <= g.scan.deletion
    && AttemptClockOk(g, now)
  }

  /** The row is untouched, or it was live and is now finished at `now`. */
  ghost predicate RowFinished(t: Attempt, t': Attempt, now: int) {
    t' == t || exists state :: AttemptUpdatePath(t.state, state) && t' == FinishedRow(t, state, now)
  }

  ghost predicate RowsFinished(g: ScanGroup, g': ScanGroup, now: int) {
    && g'.attempts.Keys == g.attempts.Keys
    && forall a | a in g.attempts :: RowFinished(g.attempts[a], g'.attempts[a], now)
  }

  lemma FinishedRowsFinished(g: ScanGroup, a: Id, state: AttemptState, now: int)
    requires a in g.attempts && AttemptUpdatePath(g.attempts[a].state, state)
    ensures RowsFinished(g, FinishedGroup(g, a, state, now), now)
  {
  }

  /** Only the attempts of the later group matter. */
  lemma RowsFinishedKept(g: ScanGroup, g1: ScanGroup, g2: ScanGroup, now: int)
    requires RowsFinished(g, g1, now) && g2.attempts == g1.attempts
    ensures RowsFinished(g, g2, now)
  {
  }

  /** `db'` is `db` with the job of `id` ended at `now` and its quota returned. */
  ghost predicate JobEnded(db: Db, db': Db, id: Id, terminal: JobState, now: int) {
    && Inv(db') && OnlyGroup(db, db', id)
    && db'.groups[id].scan == EndedScan(db.groups[id], terminal, now)
    && RowsFinished(db.groups[id], db'.groups[id], now)
    && db'.groups[id].result == db.groups[id].result
  }

  lemma InvGroup(db: Db, id: Id)
    requires Inv(db) && id in db.groups
    ensures GroupOk(id, db.groups[id])
    ensures Balanced(db.active, db.groups) && WithinLimits(db.active)
  {
  }

  /** What a transaction learns about the rows it locks. */
  lemma CurrentIsOk(id: Id, g: ScanGroup)
    requires GroupOk(id, g)
    ensures ReadableScan(id, g.scan)
    ensures g.scan.accessExpires < g.scan.deletion && g.scan.updated <= g.scan.deletion
    ensures g.scan.current.Some? ==>
              && g.scan.current.value in g.attempts
              && var a := g.attempts[g.scan.current.value];
                 && ReadableAttempt(g.scan.current.value, a)
                 && a.fence == a.no == g.scan.fence
                 && a.leaseExpires.Some? && a.leaseExpires.value <= a.hardDeadline
    ensures g.scan.job == JobRunning ==> g.scan.current.Some? && LiveAttempt(g.attempts[g.scan.current.value].state)
    ensures g.scan.job == JobQueued ==> g.scan.current.None? && g.scan.fence == 0 && Retired(g)
    ensures LiveJob(g.scan.job) ==> Unreleased(g)
    ensures GroupShape(id, g)
  {
    if g.scan.current.Some? {
      assert AttemptShape(g, g.scan.current.value);
    }
  }

  lemma TerminateQueued(db: Db, id: Id, now: int)
    requires Inv(db)
    requires id in db.groups && db.groups[id].scan.job == JobQueued
    ensures var r := TerminateJob(db, id, now, JobExpired);
            && (r.Done? <==> db.groups[id].scan.updated <= now <= db.groups[id].scan.deletion)
            && (r.Throw? ==> r.fault == ConstraintViolation)
            && (r.Done? ==> r.value.1 == JobTerminated(JobExpired) && JobEnded(db, r.value.0, id, JobExpired, now))
  {
    hide Inv, GroupOk, GroupShape, Retired, ReadableScan;
    InvGroup(db, id);
    CurrentIsOk(id, db.groups[id]);
    EndJobEffect(db, id, db.groups[id], now, JobExpired, ExpiredRelease);
  }

  lemma TerminateLive(db: Db, id: Id, now: int, terminal: JobState)
    requires Inv(db)
    requires id in db.groups && db.groups[id].scan.job == JobRunning && terminal in {JobFailed, JobExpired}
    ensures var r := TerminateJob(db, id, now, terminal);
            && (r.Done? <==> TerminationClockOk(db.groups[id], now))
            && (r.Throw? ==> r.fault == ConstraintViolation)
            && (r.Done? ==> r.value.1 == JobTerminated(terminal) && JobEnded(db, r.value.0, id, terminal, now))
  {
    hide Inv, GroupOk, GroupShape, Retired, ReadableScan, Balanced, WithinLimits, RowsFinished, FinishAttempt, ReadableAttempt,
         ReleaseTx;
    var g := db.groups[id];
    InvGroup(db, id);
    CurrentIsOk(id, g);
    var a := g.scan.current.value;
    var state := if g.attempts[a].state == Leased then Superseded
                 else if now >= g.attempts[a].hardDeadline then TimedOut else Cancelled;
    FinishAttemptEffect(id, g, a, state, now);
    if g.attempts[a].updated <= now {
      var g1 := FinishAttempt(g, a, state, now).value;
      FinishedRowsFinished(g, a, state, now);
      EndJobEffect(db, id, g1, now, terminal, if terminal == JobExpired then ExpiredRelease else FailedRelease);
      if TerminateJob(db, id, now, terminal).Done? {
        RowsFinishedKept(g, g1, TerminateJob(db, id, now, terminal).value.0.groups[id], now);
      }
    }
  }

  lemma RetiredIsReadable(id: Id, g: ScanGroup)
    requires GroupShape(id, g) && Retired(g)
    requires g.scan.current.Some?
    ensures g.scan.current.value in g.attempts
    ensures ReadableAttempt(g.scan.current.value, g.attempts[g.scan.current.value])
    ensures g.attempts[g.scan.current.value].state in {TimedOut, Cancelled, Superseded}
  {
    assert AttemptShape(g, g.scan.current.value);
  }

  /** Ending a job whose attempt was retired earlier in the same transaction. */
  lemma TerminateRetired(db: Db, id: Id, g: ScanGroup, now: int)
    requires Inv(db)
    requires id in db.groups && db.groups[id].scan.job == JobRunning
    requires db.groups[id].reservation == g.reservation && db.groups[id].scan == g.scan
    requires RowsFinished(db.groups[id], g, now) && db.groups[id].result == g.result
    requires GroupShape(id, g) && Retired(g) && Unreleased(g) && g.scan.current.Some?
    ensures var r := TerminateJob(db.(groups := db.groups[id := g]), id, now, JobFailed);
            && (r.Done? <==> g.scan.updated <= now <= g.scan.deletion)
            && (r.Throw? ==> r.fault == ConstraintViolation)
            && (r.Done? ==> r.value.1 == JobTerminated(JobFailed) && JobEnded(db, r.value.0, id, JobFailed, now))
  {
    hide Inv, GroupOk, GroupShape, Retired, ReadableScan, Balanced, WithinLimits;
    RetiredIsReadable(id, g);
    EndJobEffect(db, id, g, now, JobFailed, FailedRelease);
    var mid := db.(groups := db.groups[id := g]);
    var r := UpdateScan(g, EndedScan(g, JobFailed, now));
    if r.Done? {
      assert mid.groups[id := r.value] == db.groups[id := r.value];
    }
  }

  // ---- acquire ------------------------------------------------------------

  ghost predicate CurrentRunOut(g: ScanGroup, now: int) {
    && g.scan.current.Some? && g.scan.current.value in g.attempts
    && var a := g.attempts[g.scan.current.value];
       a.leaseExpires.Some? && (now >= a.leaseExpires.value || now >= a.hardDeadline)
  }

  /** The acquisition finds something to do: it will write rows. */
  ghost predicate AcquireWrites(db: Db, id: Id, now: int) {
    && id in db.groups && LiveJob(db.groups[id].scan.job)
    && (|| now >= db.groups[id].scan.accessExpires
        || db.groups[id].scan.job == JobQueued
        || CurrentRunOut(db.groups[id], now))
  }

  /** The acquisition ends the job instead of granting a lease. */
  ghost predicate AcquireEnds(db: Db, id: Id, now: int)
    requires id in db.groups
  {
    now >= db.groups[id].scan.accessExpires || db.groups[id].scan.fence >= MAX_ATTEMPTS
  }

  /** A clock behind the rows, a write past the deletion deadline, or an attempt
      id that is malformed or taken: the only reasons for acquire to fail. */
  ghost predicate AcquireBlocked(db: Db, id: Id, now: int, newAttempt: Id) {
    && AcquireWrites(db, id, now)
    && (|| now < db.groups[id].scan.updated
        || !AttemptClockOk(db.groups[id], now)
        || now > db.groups[id].scan.deletion
        || (!AcquireEnds(db, id, now) && (!ValidId(newAttempt) || AttemptIdTaken(db, newAttempt))))
  }

  /** `db'` is `db` with a next attempt leased for `id`. */
  ghost predicate LeaseAttached(db: Db, db': Db, id: Id, attempt: Id, now: int) {
    && OnlyGroup(db, db', id)
    && db'.active == db.active
    && var g, g' := db.groups[id], db'.groups[id];
       && attempt !in g.attempts
       && g'.scan == GrantedScan(g, attempt, g.scan.fence + 1, now)
       && g'.attempts.Keys == g.attempts.Keys + {attempt}
       && g'.attempts[attempt] == LeasedRow(g, g.scan.fence + 1, g.scan.fence + 1, now)
       && (forall a | a in g.attempts :: RowFinished(g.attempts[a], g'.attempts[a], now))
       && g'.result == g.result && g'.reservation == g.reservation
  }

  lemma SameRows(g: ScanGroup, now: int)
    ensures RowsFinished(g, g, now)
  {
  }

  lemma GrantAttaches(db: Db, id: Id, g: ScanGroup, attempt: Id, now: int)
    requires id in db.groups && RowsFinished(db.groups[id], g, now)
    requires g.scan == db.groups[id].scan && g.result == db.groups[id].result
    requires g.reservation == db.groups[id].reservation
    requires !AttemptIdTaken(db, attempt)
    ensures LeaseAttached(db, db.(groups := db.groups[id := GrantedGroup(g, attempt, g.scan.fence + 1, g.scan.fence + 1, now)]),
                          id, attempt, now)
  {
    assert attempt !in db.groups[id].attempts;
  }

  ghost predicate AcquireFaults(f: Fault) {
    f in {AttemptIdFault, UniqueViolation, ConstraintViolation}
  }

  ghost predicate AcquireSpec(db: Db, id: Id, now: int, newAttempt: Id) {
    var r := AcquireTx(db, id, now, newAttempt);
    && (r.Throw? <==> AcquireBlocked(db, id, now, newAttempt))
    && (r.Throw? ==> AcquireFaults(r.fault))
    && (r.Done? ==> Inv(r.value.0))
    && (r.Done? && !AcquireWrites(db, id, now) ==> r.value.0 == db)
    && (r.Done? && AcquireWrites(db, id, now) ==>
          if AcquireEnds(db, id, now) then
            var terminal := if now >= db.groups[id].scan.accessExpires then JobExpired else JobFailed;
            r.value.1 == JobTerminated(terminal) && JobEnded(db, r.value.0, id, terminal, now)
          else
            && r.value.1.LeaseGranted? && r.value.1.lease.attempt == newAttempt
            && LeaseAttached(db, r.value.0, id, newAttempt, now)
            && NamesRow(r.value.1.lease, id, r.value.0.groups[id]))
  }

  lemma AcquireExpired(db: Db, id: Id, now: int, newAttempt: Id)
    requires Inv(db) && ReadableClock(now)
    requires id in db.groups && LiveJob(db.groups[id].scan.job) && now >= db.groups[id].scan.accessExpires
    ensures AcquireSpec(db, id, now, newAttempt)
  {
    hide Inv, GroupOk, GroupShape, Retired, ReadableScan, TerminateJob, GrantLease, Balanced, WithinLimits, AttemptIdTaken,
         LeaseAttached, RowsFinished, NamesRow;
    InvGroup(db, id);
    CurrentIsOk(id, db.groups[id]);
    if db.groups[id].scan.job == JobQueued {
      TerminateQueued(db, id, now);
    } else {
      TerminateLive(db, id, now, JobExpired);
    }
  }

  lemma AcquireQueued(db: Db, id: Id, now: int, newAttempt: Id)
    requires Inv(db) && ReadableClock(now)
    requires id in db.groups && db.groups[id].scan.job == JobQueued && now < db.groups[id].scan.accessExpires
    ensures AcquireSpec(db, id, now, newAttempt)
  {
    hide Inv, GroupOk, GroupShape, Retired, ReadableScan, TerminateJob, GrantLease, Balanced, WithinLimits, AttemptIdTaken,
         LeaseAttached, RowsFinished, NamesRow;
    var g := db.groups[id];
    InvGroup(db, id);
    CurrentIsOk(id, g);
    assert db.groups == db.groups[id := g];
    GrantOutcome(db, id, newAttempt, 1, 1, now);
    if GrantLease(db, id, newAttempt, 1, 1, now).Done? {
      GrantKeepsInv(db, db, id, newAttempt, 1, 1, now);
      SameRows(g, now);
      GrantAttaches(db, id, g, newAttempt, now);
    }
  }

  /** The state of the current attempt after it has run out. */
  function RunOutState(t: Attempt, now: int): AttemptState {
    if t.state == Running && now >= t.hardDeadline then TimedOut else Superseded
  }

  /** The last attempt allowed has run out: the job fails. */
  lemma AcquireLastRunOut(db: Db, id: Id, now: int, newAttempt: Id)
    requires Inv(db) && ReadableClock(now)
    requires id in db.groups && db.groups[id].scan.job == JobRunning && now < db.groups[id].scan.accessExpires
    requires CurrentRunOut(db.groups[id], now) && db.groups[id].scan.fence >= MAX_ATTEMPTS
    ensures AcquireSpec(db, id, now, newAttempt)
  {
    hide Inv, GroupOk, GroupShape, Retired, ReadableScan, TerminateJob, GrantLease, Balanced, WithinLimits, AttemptIdTaken,
         LeaseAttached, RowsFinished, NamesRow, FinishAttempt, ReadableAttempt;
    var g := db.groups[id];
    InvGroup(db, id);
    CurrentIsOk(id, g);
    var a := g.scan.current.value;
    var state := RunOutState(g.attempts[a], now);
    FinishAttemptEffect(id, g, a, state, now);
    if g.attempts[a].updated <= now {
      FinishedRowsFinished(g, a, state, now);
      TerminateRetired(db, id, FinishAttempt(g, a, state, now).value, now);
    }
  }

  /** An earlier attempt has run out: the next one gets the lease. */
  lemma AcquireNextRunOut(db: Db, id: Id, now: int, newAttempt: Id)
    requires Inv(db) && ReadableClock(now)
    requires id in db.groups && db.groups[id].scan.job == JobRunning && now < db.groups[id].scan.accessExpires
    requires CurrentRunOut(db.groups[id], now) && db.groups[id].scan.fence < MAX_ATTEMPTS
    ensures AcquireSpec(db, id, now, newAttempt)
  {
    hide Inv, GroupOk, GroupShape, Retired, ReadableScan, TerminateJob, GrantLease, Balanced, WithinLimits, AttemptIdTaken,
         LeaseAttached, RowsFinished, NamesRow, FinishAttempt, ReadableAttempt;
    var g := db.groups[id];
    InvGroup(db, id);
    CurrentIsOk(id, g);
    var a := g.scan.current.value;
    var t := g.attempts[a];
    var state := RunOutState(t, now);
    FinishAttemptEffect(id, g, a, state, now);
    if t.updated <= now {
      FinishedRowsFinished(g, a, state, now);
      var g1 := FinishAttempt(g, a, state, now).value;
      var mid := db.(groups := db.groups[id := g1]);
      GrantOutcome(mid, id, newAttempt, t.no + 1, t.fence + 1, now);
      SameAttemptIds(db, mid, id, newAttempt);
      if GrantLease(mid, id, newAttempt, t.no + 1, t.fence + 1, now).Done? {
        GrantKeepsInv(db, mid, id, newAttempt, t.no + 1, t.fence + 1, now);
        GrantAttaches(db, id, g1, newAttempt, now);
      }
    }
  }

  /** Acquire keeps the invariant for every clock and id source, is rolled back
      exactly when blocked, and otherwise grants, ends the job or does nothing. */
  lemma AcquireEffect(db: Db, id: Id, now: int, newAttempt: Id)
    requires Inv(db) && ReadableClock(now)
    ensures AcquireSpec(db, id, now, newAttempt)
  {
    hide Inv, GroupOk, GroupShape, Retired, ReadableScan, TerminateJob, GrantLease, Balanced, WithinLimits, AttemptIdTaken,
         LeaseAttached, RowsFinished, NamesRow;
    if id in db.groups && LiveJob(db.groups[id].scan.job) {
      InvGroup(db, id);
      CurrentIsOk(id, db.groups[id]);
      if now >= db.groups[id].scan.accessExpires {
        AcquireExpired(db, id, now, newAttempt);
      } else if db.groups[id].scan.job == JobQueued {
        AcquireQueued(db, id, now, newAttempt);
      } else if CurrentRunOut(db.groups[id], now) {
        if db.groups[id].scan.fence >= MAX_ATTEMPTS {
          AcquireLastRunOut(db, id, now, newAttempt);
        } else {
          AcquireNextRunOut(db, id, now, newAttempt);
        }
      }
    }
  }

  // ---- start and renew ----------------------------------------------------

  /** Rewriting rows of one scan without touching its quota or identity. */
  lemma RewriteKeepsInv(db: Db, id: Id, g: ScanGroup)
    requires Inv(db) && id in db.groups
    requires GroupOk(id, g) && g.reservation == db.groups[id].reservation
    requires g.attempts.Keys == db.groups[id].attempts.Keys
    requires SameScanIdentity(db.groups[id].scan, g.scan)
    ensures Inv(db.(groups := db.groups[id := g]))
  {
    hide GroupOk, Balanced, WithinLimits, WindowsOk, AttemptsApart, IndexOk;
    BalancedSameCharge(db.active, db.groups, id, g);
    InvAfterGroup(db, db.(groups := db.groups[id := g]), id);
  }

  function StartedRow(t: Attempt, now: int): Attempt {
    t.(state := Running, started := Some(now), updated := now)
  }

  function RenewedRow(t: Attempt, expiry: int, now: int): Attempt {
    t.(leaseVersion := t.leaseVersion + 1, leaseExpires := Some(expiry), updated := now)
  }

  lemma StartedRowOk(g: ScanGroup, a: Id, now: int)
    requires a in g.attempts && AttemptShape(g, a) && g.attempts[a].state == Leased
    ensures AttemptCheck(StartedRow(g.attempts[a], now)) && AttemptUpdateAllowed(g.attempts[a], StartedRow(g.attempts[a], now))
            <==> g.attempts[a].updated <= now
    ensures g.attempts[a].updated <= now ==>
              AttemptShape(g.(attempts := g.attempts[a := StartedRow(g.attempts[a], now)]), a)
  {
  }

  lemma RenewedRowOk(g: ScanGroup, a: Id, expiry: int, now: int)
    requires a in g.attempts && AttemptShape(g, a) && g.attempts[a].state == Running
    requires g.attempts[a].leaseExpires.value < expiry <= g.attempts[a].hardDeadline
    ensures AttemptCheck(RenewedRow(g.attempts[a], expiry, now))
            && AttemptUpdateAllowed(g.attempts[a], RenewedRow(g.attempts[a], expiry, now))
            <==> g.attempts[a].updated <= now
    ensures g.attempts[a].updated <= now ==>
              AttemptShape(g.(attempts := g.attempts[a := RenewedRow(g.attempts[a], expiry, now)]), a)
  {
    LeaseVersionBound(g, a);
  }

  /** No attempt is renewed more than thirty times. */
  lemma LeaseVersionBound(g: ScanGroup, a: Id)
    requires a in g.attempts && AttemptShape(g, a)
    ensures g.attempts[a].leaseVersion <= 31
  {
  }

  /** Replacing the live row of a running job by another live row. */
  lemma LiveRowOk(id: Id, g: ScanGroup, a: Id, row: Attempt)
    requires GroupOk(id, g) && g.scan.job == JobRunning && g.scan.current == Some(a)
    requires a in g.attempts && row.fence == g.attempts[a].fence && LiveAttempt(row.state)
    requires AttemptShape(g.(attempts := g.attempts[a := row]), a)
    ensures GroupOk(id, g.(attempts := g.attempts[a := row]))
  {
    hide AttemptCheck, ScanCheck, ValidId, ReservationCheck;
    var g' := g.(attempts := g.attempts[a := row]);
    forall b | b in g'.attempts
      ensures AttemptShape(g', b)
    {
      if b != a {
        assert AttemptShape(g, b);
      }
    }
  }

  predicate WroteHeartbeat(r: HeartbeatResult) {
    r.Started? || r.Renewed?
  }

  ghost predicate HeartbeatSpec(db: Db, c: LeaseCommand, now: int, r: Tx<(Db, HeartbeatResult)>) {
    && (r.Throw? ==> r.fault == ConstraintViolation && CommandIsCurrent(db, c)
                     && now < db.groups[c.scan].attempts[c.attempt].updated)
    && (r.Done? ==> Inv(r.value.0))
    && (r.Done? && !WroteHeartbeat(r.value.1) ==> r.value.0 == db)
    && (r.Done? && WroteHeartbeat(r.value.1) ==>
          && CommandIsCurrent(db, c)
          && db.groups[c.scan].attempts[c.attempt].updated <= now
          && OnlyGroup(db, r.value.0, c.scan))
  }

  lemma StartEffect(db: Db, c: LeaseCommand, now: int)
    requires Inv(db)
    ensures HeartbeatSpec(db, c, now, StartTx(db, c, now))
    ensures StartTx(db, c, now).Done? ==> !StartTx(db, c, now).value.1.Renewed?
    ensures StartTx(db, c, now).Done? && StartTx(db, c, now).value.1 == Started ==>
              && StartTx(db, c, now).value.0.groups[c.scan]
                 == db.groups[c.scan].(attempts :=
                      db.groups[c.scan].attempts[c.attempt := StartedRow(db.groups[c.scan].attempts[c.attempt], now)])
              && db.groups[c.scan].attempts[c.attempt].state == Leased
  {
    hide Inv, GroupOk, AttemptCheck, ReadableAttempt;
    if CommandIsCurrent(db, c) && db.groups[c.scan].attempts[c.attempt].state == Leased {
      var g := db.groups[c.scan];
      InvGroup(db, c.scan);
      CurrentShape(c.scan, g, c.attempt);
      StartedRowOk(g, c.attempt, now);
      if g.attempts[c.attempt].updated <= now {
        LiveRowOk(c.scan, g, c.attempt, StartedRow(g.attempts[c.attempt], now));
        RewriteKeepsInv(db, c.scan, g.(attempts := g.attempts[c.attempt := StartedRow(g.attempts[c.attempt], now)]));
      }
    }
  }

  lemma CurrentShape(id: Id, g: ScanGroup, a: Id)
    requires GroupOk(id, g) && a in g.attempts
    ensures AttemptShape(g, a)
    ensures g.scan.job == JobRunning && g.scan.current == Some(a) ==> LiveAttempt(g.attempts[a].state)
  {
  }

  lemma RenewedInv(db: Db, id: Id, a: Id, expiry: int, now: int)
    requires Inv(db) && id in db.groups
    requires var g := db.groups[id];
             && g.scan.job == JobRunning && g.scan.current == Some(a) && a in g.attempts && g.attempts[a].state == Running
             && AttemptShape(g, a) && g.attempts[a].updated <= now
             && g.attempts[a].leaseExpires.value < expiry <= g.attempts[a].hardDeadline
    ensures var g := db.groups[id];
            Inv(db.(groups := db.groups[id := g.(attempts := g.attempts[a := RenewedRow(g.attempts[a], expiry, now)])]))
  {
    hide Inv, GroupOk, AttemptCheck, ReadableAttempt;
    var g := db.groups[id];
    InvGroup(db, id);
    RenewedRowOk(g, a, expiry, now);
    LiveRowOk(id, g, a, RenewedRow(g.attempts[a], expiry, now));
    RewriteKeepsInv(db, id, g.(attempts := g.attempts[a := RenewedRow(g.attempts[a], expiry, now)]));
  }

  lemma RenewEffect(db: Db, c: LeaseCommand, now: int)
    requires Inv(db)
    ensures HeartbeatSpec(db, c, now, RenewTx(db, c, now))
    ensures RenewTx(db, c, now).Done? ==> !RenewTx(db, c, now).value.1.Started?
    ensures RenewTx(db, c, now).Done? && RenewTx(db, c, now).value.1.Renewed? ==>
              var t := db.groups[c.scan].attempts[c.attempt];
              var expiry := Min(now + LEASE_SECONDS, t.hardDeadline);
              && t.state == Running
              && t.leaseExpires.value < expiry
              && RenewTx(db, c, now).value.1 == Renewed(t.leaseVersion + 1, expiry)
              && RenewTx(db, c, now).value.0.groups[c.scan]
                 == db.groups[c.scan].(attempts := db.groups[c.scan].attempts[c.attempt := RenewedRow(t, expiry, now)])
  {
    hide Inv, GroupOk, AttemptCheck, ReadableAttempt;
    if CommandIsCurrent(db, c) && db.groups[c.scan].attempts[c.attempt].state == Running {
      var g := db.groups[c.scan];
      var t := g.attempts[c.attempt];
      var expiry := Min(now + LEASE_SECONDS, t.hardDeadline);
      InvGroup(db, c.scan);
      CurrentShape(c.scan, g, c.attempt);
      if t.leaseExpires.value < expiry {
        RenewedRowOk(g, c.attempt, expiry, now);
        if t.updated <= now {
          RenewedInv(db, c.scan, c.attempt, expiry, now);
        }
      }
    }
  }

  // ---- cancel -------------------------------------------------------------

  /** Cancelling is rolled back only for a clock behind the rows or past the
      deletion deadline; otherwise it ends a live job and nothing else. */
  ghost predicate CancelSpec(db: Db, id: Id, now: int) {
    var r := CancelTx(db, id, now);
    && (r.Throw? <==> id in db.groups && LiveJob(db.groups[id].scan.job) && !TerminationClockOk(db.groups[id], now))
    && (r.Throw? ==> r.fault == ConstraintViolation)
    && (r.Done? ==>
          && Inv(r.value.0)
          && (r.value.1 == ScanCancelled <==> id in db.groups && LiveJob(db.groups[id].scan.job))
          && (r.value.1 == AlreadyCancelled <==> id in db.groups && db.groups[id].scan.job == JobCancelled)
          && (if r.value.1 == ScanCancelled then JobEnded(db, r.value.0, id, JobCancelled, now) else r.value.0 == db))
  }

  lemma CancelQueued(db: Db, id: Id, now: int)
    requires Inv(db) && id in db.groups && db.groups[id].scan.job == JobQueued
    ensures CancelSpec(db, id, now)
  {
    hide Inv, GroupOk, GroupShape, Retired, ReadableScan, Balanced, WithinLimits;
    InvGroup(db, id);
    CurrentIsOk(id, db.groups[id]);
    EndJobEffect(db, id, db.groups[id], now, JobCancelled, CancelledRelease);
  }

  lemma CancelRunning(db: Db, id: Id, now: int)
    requires Inv(db) && id in db.groups && db.groups[id].scan.job == JobRunning
    ensures CancelSpec(db, id, now)
  {
    hide Inv, GroupOk, GroupShape, Retired, ReadableScan, Balanced, WithinLimits, RowsFinished, FinishAttempt, ReadableAttempt,
         ReleaseTx;
    var g := db.groups[id];
    InvGroup(db, id);
    CurrentIsOk(id, g);
    var a := g.scan.current.value;
    var state := if g.attempts[a].state == Leased then Superseded else Cancelled;
    FinishAttemptEffect(id, g, a, state, now);
    if g.attempts[a].updated <= now {
      FinishedRowsFinished(g, a, state, now);
      var g1 := FinishAttempt(g, a, state, now).value;
      EndJobEffect(db, id, g1, now, JobCancelled, CancelledRelease);
      if CancelTx(db, id, now).Done? {
        RowsFinishedKept(g, g1, CancelTx(db, id, now).value.0.groups[id], now);
      }
    }
  }

  lemma CancelEffect(db: Db, id: Id, now: int)
    requires Inv(db)
    ensures CancelSpec(db, id, now)
  {
    hide Inv, GroupOk, GroupShape, Retired, ReadableScan, Balanced, WithinLimits, RowsFinished;
    if id in db.groups {
      InvGroup(db, id);
      CurrentIsOk(id, db.groups[id]);
      if db.groups[id].scan.job == JobQueued {
        CancelQueued(db, id, now);
      } else if db.groups[id].scan.job == JobRunning {
        CancelRunning(db, id, now);
      } else if db.groups[id].scan.job == JobCancelled {
        ReleasedAlready(id, db.groups[id]);
        ReleaseEffect(db, id, now, CancelledRelease);
      }
    }
  }

  lemma ReleasedAlready(id: Id, g: ScanGroup)
    requires GroupOk(id, g) && !LiveJob(g.scan.job)
    ensures !Unreleased(g) && g.reservation.Some?
  {
  }
}
