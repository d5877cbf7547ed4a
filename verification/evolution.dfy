/** How one scan's rows may change in one transaction: along the abstract
    machines, never back, never after the end, and with less work left. */
module Evolution {
  import opened Basics
  import opened ScanProtocol
  import opened GuestOutput
  import opened Tables
  import opened Quota
  import opened Transactions
  import opened Invariant
  import opened StepProofs
  import opened CommitProofs

  const MAX_RENEWALS: int := 30

  /** Steps one attempt may take after its lease was granted: a start and the renewals. */
  const STEPS_PER_ATTEMPT: int := 2 + MAX_RENEWALS

  /** An upper bound on the transactions that can still change the scan's rows. */
  function WorkLeft(g: ScanGroup): int {
    if g.scan.job == JobQueued then MAX_ATTEMPTS * STEPS_PER_ATTEMPT + 1
    else if g.scan.job == JobRunning && g.scan.current.Some? && g.scan.current.value in g.attempts then
      var t := g.attempts[g.scan.current.value];
      (MAX_ATTEMPTS - g.scan.fence) * STEPS_PER_ATTEMPT + 1 + (MAX_RENEWALS + 1 - t.leaseVersion)
      + (if t.state == Leased then 1 else 0)
    else 0
  }

  ghost predicate SameAttemptIdentity(t: Attempt, t': Attempt) {
    t.no == t'.no && t.fence == t'.fence && t.created == t'.created && t.hardDeadline == t'.hardDeadline
  }

  ghost predicate RowEvolves(t: Attempt, t': Attempt) {
    && SameAttemptIdentity(t, t')
    && AttemptEdge(t.state, t'.state)
    && t.leaseVersion <= t'.leaseVersion
    && (TerminalAttempt(t.state) ==> t' == t)
  }

  ghost predicate Evolves(g: ScanGroup, g': ScanGroup) {
    && SameScanIdentity(g.scan, g'.scan)
    && g.scan.revoked == g'.scan.revoked
    && g.scan.fence <= g'.scan.fence
    && JobEdge(g.scan.job, g'.scan.job)
    && (forall a | a in g.attempts :: a in g'.attempts && RowEvolves(g.attempts[a], g'.attempts[a]))
    && (forall a | a in g'.attempts && a !in g.attempts :: g'.attempts[a].state == Leased)
    && (!LiveJob(g.scan.job) ==> g' == g)
    && (g' != g ==> WorkLeft(g') < WorkLeft(g))
  }

  lemma EvolvesRefl(g: ScanGroup)
    ensures Evolves(g, g)
  {
  }

  lemma JobEdges()
    ensures JobEdge(JobQueued, JobRunning) && JobEdge(JobQueued, JobExpired) && JobEdge(JobQueued, JobCancelled)
    ensures JobEdge(JobRunning, JobSucceeded) && JobEdge(JobRunning, JobFailed)
    ensures JobEdge(JobRunning, JobCancelled) && JobEdge(JobRunning, JobExpired)
  {
    assert TransitionJob(JobQueued, AttemptStarted) == Some(JobRunning);
    assert TransitionJob(JobQueued, DeadlineExceeded) == Some(JobExpired);
    assert TransitionJob(JobQueued, CancelJob) == Some(JobCancelled);
    assert TransitionJob(JobRunning, JobResultCommitted) == Some(JobSucceeded);
    assert TransitionJob(JobRunning, RetryBudgetExhausted) == Some(JobFailed);
    assert TransitionJob(JobRunning, CancelJob) == Some(JobCancelled);
    assert TransitionJob(JobRunning, DeadlineExceeded) == Some(JobExpired);
  }

  lemma AttemptEdges()
    ensures AttemptEdge(Leased, Running) && AttemptEdge(Leased, Superseded) && AttemptEdge(Running, Succeeded)
    ensures AttemptEdge(Running, TimedOut) && AttemptEdge(Running, Cancelled) && AttemptEdge(Running, Superseded)
  {
    assert TransitionAttempt(Leased, ScannerStarted) == Some(Running);
    assert TransitionAttempt(Leased, LeaseExpiredOrInvalidated) == Some(Superseded);
    assert TransitionAttempt(Running, AttemptResultCommitted) == Some(Succeeded);
    assert TransitionAttempt(Running, HardDeadlineExceeded) == Some(TimedOut);
    assert TransitionAttempt(Running, JobCancelEvent) == Some(Cancelled);
    assert TransitionAttempt(Running, NewerAttemptFence) == Some(Superseded);
  }

  /** The abstract machines have exactly the edges that the update triggers of the
      schema allow, so that neither permits what the other forbids. */
  lemma TriggersAgree(s: JobState, t: JobState, a: AttemptState, b: AttemptState)
    ensures JobMayBecome(s, t) <==> JobEdge(s, t)
    ensures AttemptMayBecome(a, b) <==> AttemptEdge(a, b)
  {
    JobEdges();
    AttemptEdges();
    assert TransitionAttempt(Created, LeaseAcquired) == Some(Leased);
    assert TransitionAttempt(Created, JobCancelledOrExpired) == Some(Cancelled);
    assert TransitionAttempt(Running, ScannerOrPolicyFailed) == Some(Failed);
  }

  /** Where an event leads does not depend on the state it finds, and nothing leads
      out of an ended job or a finished attempt. */
  lemma EventsLead(s: JobState, e: JobEvent, a: AttemptState, f: AttemptEvent)
    ensures TransitionJob(s, e).Some? ==>
              && LiveJob(s)
              && TransitionJob(s, e).value == match e
                                              case AttemptStarted => JobRunning
                                              case CancelJob | AuthorizationRevoked => JobCancelled
                                              case DeadlineExceeded => JobExpired
                                              case JobResultCommitted => JobSucceeded
                                              case RetryBudgetExhausted => JobFailed
    ensures TransitionAttempt(a, f).Some? ==>
              && !TerminalAttempt(a)
              && TransitionAttempt(a, f).value == match f
                                                  case LeaseAcquired => Leased
                                                  case JobCancelledOrExpired | JobCancelEvent => Cancelled
                                                  case ScannerStarted => Running
                                                  case LeaseExpiredOrInvalidated | NewerAttemptFence => Superseded
                                                  case AttemptResultCommitted => Succeeded
                                                  case ScannerOrPolicyFailed => Failed
                                                  case HardDeadlineExceeded => TimedOut
  {
  }

  lemma FinishedEvolves(t: Attempt, t': Attempt, now: int)
    requires RowFinished(t, t', now)
    ensures RowEvolves(t, t')
  {
    AttemptEdges();
  }

  /** A job that is still live always has a terminal step left. */
  lemma WorkLeftBounds(id: Id, g: ScanGroup)
    requires GroupOk(id, g)
    ensures 0 <= WorkLeft(g) <= MAX_ATTEMPTS * STEPS_PER_ATTEMPT + 1
    ensures LiveJob(g.scan.job) ==> WorkLeft(g) >= 1
    ensures g.scan.job == JobRunning ==>
              && g.scan.current.Some? && g.scan.current.value in g.attempts
              && (MAX_ATTEMPTS - g.scan.fence) * STEPS_PER_ATTEMPT + 1 <= WorkLeft(g)
  {
    if g.scan.job == JobRunning {
      assert AttemptShape(g, g.scan.current.value);
      LeaseVersionBound(g, g.scan.current.value);
    }
  }

  lemma EndedEvolves(db: Db, db': Db, id: Id, terminal: JobState, now: int)
    requires Inv(db) && JobEnded(db, db', id, terminal, now)
    requires LiveJob(db.groups[id].scan.job)
    requires terminal in {JobFailed, JobExpired, JobCancelled}
    requires terminal == JobFailed ==> db.groups[id].scan.job == JobRunning
    ensures Evolves(db.groups[id], db'.groups[id])
  {
    hide Inv, GroupOk, RowFinished, RowEvolves, JobEdge, AttemptEdge;
    JobEdges();
    InvGroup(db, id);
    WorkLeftBounds(id, db.groups[id]);
    forall a | a in db.groups[id].attempts
      ensures RowEvolves(db.groups[id].attempts[a], db'.groups[id].attempts[a])
    {
      FinishedEvolves(db.groups[id].attempts[a], db'.groups[id].attempts[a], now);
    }
  }

  lemma AttachedEvolves(db: Db, db': Db, id: Id, attempt: Id, now: int)
    requires Inv(db) && LeaseAttached(db, db', id, attempt, now)
    requires LiveJob(db.groups[id].scan.job) && db.groups[id].scan.fence < MAX_ATTEMPTS
    requires db.groups[id].scan.job == JobQueued ==> db.groups[id].scan.fence == 0
    ensures Evolves(db.groups[id], db'.groups[id])
  {
    hide Inv, GroupOk, RowFinished, RowEvolves, JobEdge, AttemptEdge;
    JobEdges();
    InvGroup(db, id);
    WorkLeftBounds(id, db.groups[id]);
    forall a | a in db.groups[id].attempts
      ensures RowEvolves(db.groups[id].attempts[a], db'.groups[id].attempts[a])
    {
      FinishedEvolves(db.groups[id].attempts[a], db'.groups[id].attempts[a], now);
    }
    assert JobEdge(JobRunning, JobRunning) by {
      SameJobEdge(JobRunning);
    }
  }

  lemma SameJobEdge(s: JobState)
    ensures JobEdge(s, s)
  {
  }

  /** The step of one live row of a running job. */
  lemma LiveRowEvolves(g: ScanGroup, a: Id, row: Attempt)
    requires g.scan.job == JobRunning && g.scan.current == Some(a) && a in g.attempts
    requires LiveAttempt(g.attempts[a].state)
    requires SameAttemptIdentity(g.attempts[a], row)
    requires (g.attempts[a].state == Leased && row.state == Running && row.leaseVersion == g.attempts[a].leaseVersion)
             || (g.attempts[a].state == Running && row.state == Running
                 && row.leaseVersion == g.attempts[a].leaseVersion + 1)
    ensures Evolves(g, g.(attempts := g.attempts[a := row]))
  {
    AttemptEdges();
  }

  lemma CommitEvolves(g: ScanGroup, g': ScanGroup, id: Id, submitted: Identity, projection: Projection, now: int)
    requires GroupOk(id, g) && Acceptable(g, submitted, now)
    requires g'.scan == AcceptedScan(g, submitted, now)
    requires g'.attempts == CommittedGroup(g, submitted, projection, now).attempts
    ensures Evolves(g, g')
  {
    hide GroupOk, JobEdge, RowEvolves;
    JobEdges();
    WorkLeftBounds(id, g);
    var t := g.attempts[submitted.attempt];
    assert RowEvolves(t, FinishedRow(t, Succeeded, now)) by {
      SucceededEvolves(t, now);
    }
    forall a | a in g.attempts
      ensures RowEvolves(g.attempts[a], g'.attempts[a])
    {
      if a != submitted.attempt {
        SameRowEvolves(g.attempts[a]);
      }
    }
  }

  lemma SucceededEvolves(t: Attempt, now: int)
    requires t.state == Running
    ensures RowEvolves(t, FinishedRow(t, Succeeded, now))
  {
    AttemptEdges();
  }

  lemma SameRowEvolves(t: Attempt)
    ensures RowEvolves(t, t)
  {
  }

  // ---- the effect of each transaction on every scan -----------------------

  /** Every scan present before and after evolved, and only `id` changed. */
  ghost predicate OneEvolves(db: Db, db': Db, id: Id) {
    && db'.groups.Keys == db.groups.Keys
    && (forall x | x in db.groups && x != id :: db'.groups[x] == db.groups[x])
    && (id in db.groups ==> Evolves(db.groups[id], db'.groups[id]))
  }

  lemma UnchangedEvolves(db: Db, id: Id)
    ensures OneEvolves(db, db, id)
  {
    if id in db.groups {
      EvolvesRefl(db.groups[id]);
    }
  }

  lemma AcquireEvolves(db: Db, id: Id, now: int, newAttempt: Id)
    requires Inv(db)
    ensures OneEvolves(db, AcquireStep(db, id, now, newAttempt).0, id)
  {
    hide Inv, GroupOk, AcquireTx, Evolves, GroupShape, ReadableScan, Retired, AttemptIdTaken;
    UnchangedEvolves(db, id);
    if ValidId(id) && ReadableClock(now) {
      AcquireEffect(db, id, now, newAttempt);
      var r := AcquireTx(db, id, now, newAttempt);
      if r.Done? && AcquireWrites(db, id, now) {
        InvGroup(db, id);
        CurrentIsOk(id, db.groups[id]);
        if AcquireEnds(db, id, now) {
          EndedEvolves(db, r.value.0, id, if now >= db.groups[id].scan.accessExpires then JobExpired else JobFailed, now);
        } else {
          AttachedEvolves(db, r.value.0, id, newAttempt, now);
        }
      }
    }
  }

  lemma StartEvolves(db: Db, c: LeaseCommand, now: int)
    requires Inv(db)
    ensures OneEvolves(db, StartStep(db, c, now).0, c.scan)
  {
    hide Inv, Evolves, StartTx, ReadableAttempt;
    UnchangedEvolves(db, c.scan);
    StartEffect(db, c, now);
    var r := StartTx(db, c, now);
    if r.Done? && r.value.1 == Started {
      LiveRowEvolves(db.groups[c.scan], c.attempt, StartedRow(db.groups[c.scan].attempts[c.attempt], now));
    }
  }

  lemma RenewEvolves(db: Db, c: LeaseCommand, now: int)
    requires Inv(db)
    ensures OneEvolves(db, RenewStep(db, c, now).0, c.scan)
  {
    hide Inv, Evolves, RenewTx, ReadableAttempt;
    UnchangedEvolves(db, c.scan);
    RenewEffect(db, c, now);
    var r := RenewTx(db, c, now);
    if r.Done? && r.value.1.Renewed? {
      var t := db.groups[c.scan].attempts[c.attempt];
      LiveRowEvolves(db.groups[c.scan], c.attempt, RenewedRow(t, Min(now + LEASE_SECONDS, t.hardDeadline), now));
    }
  }

  lemma CancelEvolves(db: Db, id: Id, now: int)
    requires Inv(db)
    ensures OneEvolves(db, CancelStep(db, id, now).0, id)
  {
    hide Inv, Evolves, CancelTx, TerminationClockOk;
    UnchangedEvolves(db, id);
    CancelEffect(db, id, now);
    var r := CancelTx(db, id, now);
    if r.Done? && r.value.1 == ScanCancelled {
      EndedEvolves(db, r.value.0, id, JobCancelled, now);
    }
  }

  lemma CommitStepEvolves(db: Db, id: Id, submitted: Identity, projection: Projection, now: int)
    requires Inv(db)
    ensures OneEvolves(db, CommitStep(db, id, submitted, projection, now).0, id)
  {
    hide Inv, GroupOk, Evolves, CommitTx, ValidIdentity;
    UnchangedEvolves(db, id);
    CommitEffect(db, id, submitted, projection, now);
    var r := CommitTx(db, id, submitted, projection, now);
    if r.Done? && r.value.1 == Committed {
      InvGroup(db, id);
      CommitEvolves(db.groups[id], r.value.0.groups[id], id, submitted, projection, now);
    }
  }
}
