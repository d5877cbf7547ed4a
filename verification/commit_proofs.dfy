/** The result commit: when it stores, what it stores, and that it never does
    anything else. */
module CommitProofs {
  import opened Basics
  import opened ScanProtocol
  import opened GuestOutput
  import opened Tables
  import opened Quota
  import opened Transactions
  import opened Invariant
  import opened LedgerProofs
  import opened StepProofs

  function AcceptedScan(g: ScanGroup, submitted: Identity, now: int): Scan {
    g.scan.(job := JobSucceeded, accepted := Some(submitted), updated := now)
  }

  function ResultOf(submitted: Identity, projection: Projection, now: int): ResultRow {
    ResultRow(submitted.attempt, submitted.fence, submitted.digest, now, projection)
  }

  /** The rows of a scan once `submitted` has been accepted. */
  function CommittedGroup(g: ScanGroup, submitted: Identity, projection: Projection, now: int): ScanGroup
    requires submitted.attempt in g.attempts
  {
    ScanGroup(AcceptedScan(g, submitted, now),
              g.attempts[submitted.attempt := FinishedRow(g.attempts[submitted.attempt], Succeeded, now)],
              Some(ResultOf(submitted, projection, now)),
              g.reservation)
  }

  /** The submission is the running current attempt, within its lease. */
  ghost predicate Acceptable(g: ScanGroup, submitted: Identity, now: int) {
    && g.scan.job == JobRunning
    && g.scan.current == Some(submitted.attempt)
    && g.scan.fence == submitted.fence
    && submitted.attempt in g.attempts
    && var t := g.attempts[submitted.attempt];
       t.state == Running && t.leaseExpires.Some? && now < t.leaseExpires.value && now < t.hardDeadline
  }

  lemma SucceededRowOk(g: ScanGroup, a: Id, now: int)
    requires a in g.attempts && AttemptShape(g, a) && g.attempts[a].state == Running
    requires now < g.attempts[a].leaseExpires.value
    ensures AttemptCheck(FinishedRow(g.attempts[a], Succeeded, now))
            && AttemptUpdateAllowed(g.attempts[a], FinishedRow(g.attempts[a], Succeeded, now))
            <==> g.attempts[a].updated <= now
  {
  }

  lemma AcceptedScanOk(id: Id, g: ScanGroup, submitted: Identity, now: int)
    requires GroupShape(id, g) && Acceptable(g, submitted, now) && ValidIdentity(submitted)
    ensures ScanCheck(AcceptedScan(g, submitted, now)) && ScanUpdateAllowed(g.scan, AcceptedScan(g, submitted, now))
            <==> g.scan.updated <= now
    ensures now < g.scan.deletion
  {
    assert AttemptShape(g, submitted.attempt);
  }

  lemma CommittedShape(id: Id, g: ScanGroup, submitted: Identity, projection: Projection, now: int, b: Id)
    requires GroupOk(id, g) && Acceptable(g, submitted, now) && ValidIdentity(submitted)
    requires g.scan.updated <= now && g.attempts[submitted.attempt].updated <= now
    requires b in g.attempts
    ensures AttemptShape(CommittedGroup(g, submitted, projection, now), b)
  {
    assert AttemptShape(g, b);
    if b == submitted.attempt {
      SucceededRowOk(g, b, now);
    }
  }

  lemma CommittedRow(id: Id, g: ScanGroup, submitted: Identity, projection: Projection, now: int)
    requires GroupOk(id, g) && Acceptable(g, submitted, now) && ValidIdentity(submitted)
    requires g.scan.updated <= now && g.attempts[submitted.attempt].updated <= now
    requires projection.host == g.scan.target
    ensures ResultInsertAllowed(CommittedGroup(g, submitted, projection, now), ResultOf(submitted, projection, now))
  {
    AcceptedScanOk(id, g, submitted, now);
    assert AttemptShape(g, submitted.attempt);
  }

  /** Where the attempts of a running job stand. */
  lemma RunningStates(id: Id, g: ScanGroup, b: Id)
    requires GroupOk(id, g) && g.scan.job == JobRunning && b in g.attempts
    ensures g.attempts[b].state != Succeeded
    ensures g.scan.current != Some(b) ==> !LiveAttempt(g.attempts[b].state)
  {
    hide GroupShape;
  }

  lemma CommittedOk(id: Id, g: ScanGroup, submitted: Identity, projection: Projection, now: int,
                    reservation: Option<Reservation>)
    requires GroupOk(id, g) && Acceptable(g, submitted, now) && ValidIdentity(submitted)
    requires g.scan.updated <= now && g.attempts[submitted.attempt].updated <= now
    requires projection.host == g.scan.target
    requires reservation == Some(g.reservation.value.(released := Some((now, TerminalResult))))
    ensures GroupOk(id, CommittedGroup(g, submitted, projection, now).(reservation := reservation))
  {
    hide AttemptCheck, ValidId, ScanUpdateAllowed, ValidIdentity;
    AcceptedScanOk(id, g, submitted, now);
    CommittedRow(id, g, submitted, projection, now);
    var g' := CommittedGroup(g, submitted, projection, now).(reservation := reservation);
    forall b | b in g'.attempts
      ensures AttemptShape(g', b)
      ensures g.attempts[b].state != Succeeded
      ensures b != submitted.attempt ==> !LiveAttempt(g.attempts[b].state)
    {
      CommittedShape(id, g, submitted, projection, now, b);
      RunningStates(id, g, b);
    }
    hide AttemptShape;
  }

  lemma AcceptableFacts(id: Id, g: ScanGroup, submitted: Identity, now: int)
    requires GroupOk(id, g) && Acceptable(g, submitted, now)
    ensures Unreleased(g) && g.reservation.value.reservedAt == g.scan.created <= g.scan.updated
    ensures g.reservation.value.deletion == g.scan.deletion
    ensures now < g.scan.deletion
    ensures g.scan.accepted.None? && g.result.None?
    ensures AttemptShape(g, submitted.attempt)
    ensures g.attempts[submitted.attempt].fence == submitted.fence
    ensures GroupShape(id, g)
  {
  }

  /** Storing fails only on a clock behind the rows it writes. */
  lemma StoreEffect(db: Db, id: Id, submitted: Identity, projection: Projection, now: int)
    requires Inv(db) && id in db.groups
    requires Acceptable(db.groups[id], submitted, now) && ValidIdentity(submitted)
    requires projection.host == db.groups[id].scan.target
    ensures var r := StoreResult(db, id, submitted, projection, now);
            var g := db.groups[id];
            && (r.Done? <==> g.scan.updated <= now && g.attempts[submitted.attempt].updated <= now)
            && (r.Throw? ==> r.fault == ConstraintViolation)
            && (r.Done? ==>
                  && r.value.1 == Committed
                  && Inv(r.value.0) && OnlyGroup(db, r.value.0, id)
                  && r.value.0.groups[id].scan == AcceptedScan(g, submitted, now)
                  && r.value.0.groups[id].result == Some(ResultOf(submitted, projection, now))
                  && r.value.0.groups[id].attempts == CommittedGroup(g, submitted, projection, now).attempts)
  {
    hide Inv, GroupOk, GroupShape, Balanced, WithinLimits, AttemptCheck, ScanCheck, ValidIdentity,
         AttemptUpdateAllowed, ScanUpdateAllowed, AttemptShape;
    var g := db.groups[id];
    InvGroup(db, id);
    AcceptableFacts(id, g, submitted, now);
    SucceededRowOk(g, submitted.attempt, now);
    AcceptedScanOk(id, g, submitted, now);
    if g.scan.updated <= now && g.attempts[submitted.attempt].updated <= now {
      var g' := CommittedGroup(g, submitted, projection, now);
      var mid := db.(groups := db.groups[id := g']);
      BalancedSameCharge(db.active, db.groups, id, g');
      ReleaseEffect(mid, id, now, TerminalResult);
      var db' := ReleaseTx(mid, id, now, TerminalResult).value;
      CommittedRow(id, g, submitted, projection, now);
      CommittedOk(id, g, submitted, projection, now, db'.groups[id].reservation);
      assert db'.groups == db.groups[id := db'.groups[id]];
      EndJobInv(db, db', id);
    }
  }

  lemma LockedFacts(db: Db, id: Id, now: int)
    requires Inv(db)
    ensures LockedState(db, id, now).Some? <==> id in db.groups && db.groups[id].scan.current.Some? && PositiveSafe(now)
    ensures LockedState(db, id, now).Some? ==> ValidSnapshot(LockedState(db, id, now).value)
    ensures LockedState(db, id, now).Some? ==>
              (LockedState(db, id, now).value.accepted.Some? <==> db.groups[id].scan.job == JobSucceeded)
  {
    hide Inv, GroupOk, GroupShape, ValidId, ValidDigest, Retired;
    if id in db.groups {
      InvGroup(db, id);
      CurrentIsOk(id, db.groups[id]);
      AcceptedFacts(id, db.groups[id]);
    }
  }

  lemma AcceptedFacts(id: Id, g: ScanGroup)
    requires GroupOk(id, g)
    ensures g.scan.accepted.Some? <==> g.scan.job == JobSucceeded
    ensures g.scan.accepted.Some? ==> ValidIdentity(g.scan.accepted.value)
    ensures g.scan.job == JobSucceeded ==>
              && g.scan.current == Some(g.scan.accepted.value.attempt)
              && g.scan.fence == g.scan.accepted.value.fence
  {
  }

  /** What a commit decides and does, for every submission and clock. */
  lemma CommitEffect(db: Db, id: Id, submitted: Identity, projection: Projection, now: int)
    requires Inv(db)
    ensures var r := CommitTx(db, id, submitted, projection, now);
            && (r.Throw? ==> r.fault == ConstraintViolation)
            && (r.Throw? <==>
                  && id in db.groups && Acceptable(db.groups[id], submitted, now) && ValidIdentity(submitted)
                  && PositiveSafe(now)
                  && projection.host == db.groups[id].scan.target
                  && (now < db.groups[id].scan.updated || now < db.groups[id].attempts[submitted.attempt].updated))
            && (r.Done? ==> Inv(r.value.0))
            && (r.Done? && r.value.1 != Committed ==> r.value.0 == db)
            && (r.Done? && r.value.1 == Committed ==>
                  && id in db.groups && Acceptable(db.groups[id], submitted, now) && ValidIdentity(submitted)
                  && projection.host == db.groups[id].scan.target
                  && db.groups[id].scan.updated <= now && db.groups[id].attempts[submitted.attempt].updated <= now
                  && OnlyGroup(db, r.value.0, id)
                  && r.value.0.groups[id].scan == AcceptedScan(db.groups[id], submitted, now)
                  && r.value.0.groups[id].result == Some(ResultOf(submitted, projection, now))
                  && r.value.0.groups[id].attempts
                     == CommittedGroup(db.groups[id], submitted, projection, now).attempts)
  {
    hide Inv, ValidIdentity, ValidId, ValidDigest, StoreResult;
    LockedFacts(db, id, now);
    if id in db.groups && Acceptable(db.groups[id], submitted, now) && ValidIdentity(submitted)
       && projection.host == db.groups[id].scan.target {
      StoreEffect(db, id, submitted, projection, now);
    }
  }
}
