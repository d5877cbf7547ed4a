/** What acquire, start, renew and cancel answer, exactly when, and what each answer
    says of the rows; and what the holder of a lease may rely on over a run. */
module LeaseAnswers {
  import opened Basics
  import opened ScanProtocol
  import opened GuestOutput
  import opened Tables
  import opened Quota
  import opened Transactions
  import opened Invariant
  import opened StepProofs
  import opened CommitProofs
  import opened Evolution
  import opened Runs

  /** The current attempt of a running job. */
  ghost predicate HasLive(g: ScanGroup) {
    g.scan.job == JobRunning && g.scan.current.Some? && g.scan.current.value in g.attempts
  }

  ghost function Current(g: ScanGroup): Attempt
    requires HasLive(g)
  {
    g.attempts[g.scan.current.value]
  }

  lemma RunningFacts(db: Db, id: Id)
    requires Inv(db) && id in db.groups
    ensures ValidId(id) && ReadableScan(id, db.groups[id].scan)
    ensures db.groups[id].scan.job == JobRunning <==> HasLive(db.groups[id])
    ensures HasLive(db.groups[id]) ==>
              var g := db.groups[id];
              var t := Current(g);
              && LiveAttempt(t.state) && ValidId(g.scan.current.value) && ReadableAttempt(g.scan.current.value, t)
              && t.leaseExpires.Some? && t.created < t.leaseExpires.value <= t.hardDeadline <= g.scan.accessExpires
              && t.no == t.fence == g.scan.fence && 1 <= t.fence <= 3 && 1 <= t.leaseVersion <= 31
              && g.scan.accessExpires <= MAX_UNIX_SECONDS
  {
    hide Inv, GroupOk, ReadableScan, ReadableAttempt, ValidId;
    var g := db.groups[id];
    InvGroup(db, id);
    CurrentIsOk(id, g);
    ShapeFacts(id, g);
    if HasLive(g) {
      OkIsBounded(id, g, g.scan.current.value);
    }
  }

  lemma ShapeFacts(id: Id, g: ScanGroup)
    requires GroupOk(id, g)
    ensures ValidId(id) && g.scan.accessExpires <= MAX_UNIX_SECONDS
    ensures forall a | a in g.attempts :: ValidId(a)
  {
    forall a | a in g.attempts
      ensures ValidId(a)
    {
      assert AttemptShape(g, a);
    }
  }

  // ---- the answers of acquire ---------------------------------------------

  /** Somebody holds the lease: it runs on, and so does the access to the result. */
  ghost predicate LeaseRunsOn(db: Db, id: Id, now: int) {
    && id in db.groups && HasLive(db.groups[id])
    && now < db.groups[id].scan.accessExpires
    && Current(db.groups[id]).leaseExpires.Some? && now < Current(db.groups[id]).leaseExpires.value
  }

  /** Every answer of acquire is given exactly when its reason holds. */
  lemma AcquireAnswers(db: Db, id: Id, now: int, a: Id)
    requires Inv(db) && ValidId(id) && ReadableClock(now)
    ensures var answer := AcquireStep(db, id, now, a).1;
            && (answer == NotAcquirable <==> id !in db.groups || !LiveJob(db.groups[id].scan.job))
            && (answer.LeaseHeld? <==> LeaseRunsOn(db, id, now))
            && (answer.LeaseHeld? ==> now + answer.retryAfter == Current(db.groups[id]).leaseExpires.value)
            && (answer == JobTerminated(JobExpired) <==>
                  AcquireWrites(db, id, now) && now >= db.groups[id].scan.accessExpires && !AcquireBlocked(db, id, now, a))
            && (answer == JobTerminated(JobFailed) <==>
                  && AcquireWrites(db, id, now) && now < db.groups[id].scan.accessExpires && db.groups[id].scan.fence >= 3
                  && !AcquireBlocked(db, id, now, a))
            && (answer.LeaseGranted? <==>
                  && AcquireWrites(db, id, now) && now < db.groups[id].scan.accessExpires && db.groups[id].scan.fence < 3
                  && !AcquireBlocked(db, id, now, a))
            && (answer.AcquireUnavailable? <==> AcquireBlocked(db, id, now, a))
  {
    hide Inv, ReadableScan, ReadableAttempt, ValidId, TerminateJob, GrantLease, AcquireBlocked, JobEnded, LeaseAttached,
         NamesRow, FinishAttempt;
    AcquireEffect(db, id, now, a);
    if id in db.groups {
      RunningFacts(db, id);
      InvGroup(db, id);
      CurrentIsOk(id, db.groups[id]);
      BlockedWrites(db, id, now, a);
      hide GroupOk, GroupShape;
    }
  }

  lemma BlockedWrites(db: Db, id: Id, now: int, a: Id)
    ensures AcquireBlocked(db, id, now, a) ==> AcquireWrites(db, id, now)
  {
    hide AcquireWrites;
  }

  /** Nothing but the row of one attempt differs, which ended in `state`. */
  ghost predicate OneEnded(g: ScanGroup, g': ScanGroup, a: Id, state: AttemptState, now: int) {
    && a in g.attempts && a in g'.attempts
    && g'.attempts[a] == FinishedRow(g.attempts[a], state, now)
    && forall b | b in g.attempts && b != a :: b in g'.attempts && g'.attempts[b] == g.attempts[b]
  }

  ghost predicate NoneEnded(g: ScanGroup, g': ScanGroup) {
    forall b | b in g.attempts :: b in g'.attempts && g'.attempts[b] == g.attempts[b]
  }

  /** The reservation was returned at `now` for this reason. */
  ghost predicate ReturnedFor(g: ScanGroup, g': ScanGroup, now: int, reason: ReleaseReason) {
    g.reservation.Some? && g'.reservation == Some(g.reservation.value.(released := Some((now, reason))))
  }

  lemma ReleasedAs(db: Db, id: Id, now: int, reason: ReleaseReason)
    requires id in db.groups && db.groups[id].reservation.Some? && Unreleased(db.groups[id])
    ensures ReleaseTx(db, id, now, reason).Some? ==>
              var db' := ReleaseTx(db, id, now, reason).value;
              && id in db'.groups && ReturnedFor(db.groups[id], db'.groups[id], now, reason)
              && db'.groups[id].attempts == db.groups[id].attempts
              && db'.groups[id].result == db.groups[id].result && db'.groups[id].scan == db.groups[id].scan
  {
    hide Decrement;
  }

  /** How a job ends: which state its live attempt takes, and why its quota is
      returned. */
  lemma TerminateRows(db: Db, id: Id, now: int, terminal: JobState)
    requires id in db.groups && Unreleased(db.groups[id]) && terminal in {JobFailed, JobExpired}
    ensures var r := TerminateJob(db, id, now, terminal);
            r.Done? ==>
              && id in r.value.0.groups
              && var g, g' := db.groups[id], r.value.0.groups[id];
                 && ReturnedFor(g, g', now, if terminal == JobFailed then FailedRelease else ExpiredRelease)
                 && if HasLive(g) && LiveAttempt(Current(g).state) then
                      OneEnded(g, g', g.scan.current.value,
                               if Current(g).state == Leased then Superseded
                               else if now >= Current(g).hardDeadline then TimedOut
                               else Cancelled, now)
                    else NoneEnded(g, g')
  {
    hide AttemptCheck, AttemptUpdateAllowed, ScanCheck, ScanUpdateAllowed, ReadableAttempt, ReleaseTx;
    var g := db.groups[id];
    forall g2: ScanGroup | g2.reservation == g.reservation
      ensures ReleasedAsGroup(db, id, g2, now, FailedRelease) && ReleasedAsGroup(db, id, g2, now, ExpiredRelease)
    {
      ReleasedAs(db.(groups := db.groups[id := g2]), id, now, FailedRelease);
      ReleasedAs(db.(groups := db.groups[id := g2]), id, now, ExpiredRelease);
    }
  }

  /** What releasing leaves of a group that was written just before. */
  ghost predicate ReleasedAsGroup(db: Db, id: Id, g: ScanGroup, now: int, reason: ReleaseReason) {
    var r := ReleaseTx(db.(groups := db.groups[id := g]), id, now, reason);
    r.Some? ==>
      && id in r.value.groups && ReturnedFor(g, r.value.groups[id], now, reason)
      && r.value.groups[id].attempts == g.attempts
      && r.value.groups[id].result == g.result && r.value.groups[id].scan == g.scan
  }

  /** An attempt that acquire displaces has timed out exactly if it was running
      past its hard deadline, and is superseded otherwise; every other attempt
      stays; a job that ends returns its quota for that reason. */
  ghost predicate DisplacedAsTold(g: ScanGroup, g': ScanGroup, answer: AcquireResult, now: int) {
    && (if HasLive(g) then
          OneEnded(g, g', g.scan.current.value,
                   if Current(g).state == Running && now >= Current(g).hardDeadline then TimedOut else Superseded, now)
        else NoneEnded(g, g'))
    && (answer == JobTerminated(JobExpired) ==> ReturnedFor(g, g', now, ExpiredRelease))
    && (answer == JobTerminated(JobFailed) ==> ReturnedFor(g, g', now, FailedRelease))
    && (answer.LeaseGranted? ==> g'.reservation == g.reservation)
  }

  lemma ExpiredRows(db: Db, id: Id, now: int)
    requires Inv(db) && id in db.groups && LiveJob(db.groups[id].scan.job) && now >= db.groups[id].scan.accessExpires
    ensures var r := TerminateJob(db, id, now, JobExpired);
            r.Done? ==> id in r.value.0.groups
                        && r.value.1 == JobTerminated(JobExpired)
                        && DisplacedAsTold(db.groups[id], r.value.0.groups[id], r.value.1, now)
  {
    hide Inv, GroupOk, GroupShape, Unreleased, ReadableScan, ReadableAttempt, ValidId, OneEnded, NoneEnded, ReturnedFor, ReleaseTx,
         ScanCheck, ScanUpdateAllowed, AttemptCheck, AttemptUpdateAllowed, FinishAttempt;
    RunningFacts(db, id);
    InvGroup(db, id);
    CurrentIsOk(id, db.groups[id]);
    TerminateRows(db, id, now, JobExpired);
  }

  /** The current attempt is retired before the job fails or goes on. */
  lemma RetiredRows(db: Db, id: Id, now: int, g1: ScanGroup, g2: ScanGroup, answer: AcquireResult)
    requires Inv(db) && id in db.groups && HasLive(db.groups[id])
    requires var g := db.groups[id];
             FinishAttempt(g, g.scan.current.value,
                           if Current(g).state == Running && now >= Current(g).hardDeadline then TimedOut else Superseded, now)
             == Done(g1)
    requires NoneEnded(g1, g2)
    requires if answer.LeaseGranted? then g2.reservation == g1.reservation
             else answer == JobTerminated(JobFailed) && ReturnedFor(g1, g2, now, FailedRelease)
    ensures DisplacedAsTold(db.groups[id], g2, answer, now)
  {
    hide Inv, AttemptCheck, AttemptUpdateAllowed;
  }

  lemma RunOutRows(db: Db, id: Id, now: int, a: Id)
    requires Inv(db) && id in db.groups && HasLive(db.groups[id])
    requires now < db.groups[id].scan.accessExpires && !LeaseRunsOn(db, id, now)
    ensures var r := AcquireTx(db, id, now, a);
            r.Done? ==> id in r.value.0.groups && (r.value.1.LeaseGranted? || r.value.1 == JobTerminated(JobFailed))
                        && DisplacedAsTold(db.groups[id], r.value.0.groups[id], r.value.1, now)
  {
    hide Inv, GroupOk, GroupShape, ReadableScan, ReadableAttempt, ValidId, OneEnded, NoneEnded, ReturnedFor,
         TerminateJob, GrantLease, AttemptCheck, AttemptUpdateAllowed, DisplacedAsTold, Unreleased, FinishAttempt;
    var g := db.groups[id];
    RunningFacts(db, id);
    InvGroup(db, id);
    CurrentIsOk(id, g);
    var t := Current(g);
    var state := if t.state == Running && now >= t.hardDeadline then TimedOut else Superseded;
    var finished := FinishAttempt(g, g.scan.current.value, state, now);
    if finished.Done? {
      FinishedFacts(g, g.scan.current.value, state, now);
      var mid := db.(groups := db.groups[id := finished.value]);
      if t.no >= MAX_ATTEMPTS {
        SameReservation(g, finished.value);
        TerminateRows(mid, id, now, JobFailed);
        var r := TerminateJob(mid, id, now, JobFailed);
        if r.Done? {
          FailedAnswer(mid, id, now);
          RetiredRows(db, id, now, finished.value, r.value.0.groups[id], r.value.1);
        }
      } else {
        GrantRows(mid, id, a, t.no + 1, t.fence + 1, now);
        var r := GrantLease(mid, id, a, t.no + 1, t.fence + 1, now);
        if r.Done? {
          RetiredRows(db, id, now, finished.value, r.value.0.groups[id], r.value.1);
        }
      }
    }
  }

  lemma FinishedFacts(g: ScanGroup, a: Id, state: AttemptState, now: int)
    requires a in g.attempts && state in {TimedOut, Superseded} && FinishAttempt(g, a, state, now).Done?
    ensures var g' := FinishAttempt(g, a, state, now).value;
            && g'.scan == g.scan && g'.reservation == g.reservation && a in g'.attempts
            && g'.attempts[a].state == state
  {
    hide AttemptCheck, AttemptUpdateAllowed;
  }

  lemma FailedAnswer(db: Db, id: Id, now: int)
    requires id in db.groups
    ensures TerminateJob(db, id, now, JobFailed).Done? ==>
              TerminateJob(db, id, now, JobFailed).value.1 == JobTerminated(JobFailed)
  {
    hide ReleaseTx, ScanCheck, ScanUpdateAllowed, FinishAttempt, ReadableAttempt;
  }

  /** What acquire does to the attempts that were there and to the quota. */
  lemma AcquireRows(db: Db, id: Id, now: int, a: Id)
    requires Inv(db)
    requires AcquireStep(db, id, now, a).1.LeaseGranted? || AcquireStep(db, id, now, a).1.JobTerminated?
    ensures var (db', answer) := AcquireStep(db, id, now, a);
            && id in db.groups && id in db'.groups
            && DisplacedAsTold(db.groups[id], db'.groups[id], answer, now)
  {
    hide Inv, ReadableScan, ReadableAttempt, ValidId, TerminateJob, GrantLease, AttemptCheck, AttemptUpdateAllowed,
         DisplacedAsTold, FinishAttempt;
    if id in db.groups && LiveJob(db.groups[id].scan.job) {
      RunningFacts(db, id);
      var g := db.groups[id];
      if now >= g.scan.accessExpires {
        ExpiredRows(db, id, now);
      } else if g.scan.job == JobQueued {
        GrantRows(db, id, a, 1, 1, now);
        QueuedRows(db, id, now, a);
      } else if !LeaseRunsOn(db, id, now) {
        RunOutRows(db, id, now, a);
      }
    }
  }

  lemma QueuedRows(db: Db, id: Id, now: int, a: Id)
    requires Inv(db) && id in db.groups && db.groups[id].scan.job == JobQueued
    ensures var r := GrantLease(db, id, a, 1, 1, now);
            r.Done? ==> id in r.value.0.groups && r.value.1.LeaseGranted?
                        && DisplacedAsTold(db.groups[id], r.value.0.groups[id], r.value.1, now)
  {
    hide Inv, GrantLease, OneEnded, NoneEnded, ReturnedFor;
    GrantRows(db, id, a, 1, 1, now);
  }

  lemma SameReservation(g: ScanGroup, g': ScanGroup)
    requires Unreleased(g) && g'.reservation == g.reservation
    ensures Unreleased(g')
  {
  }

  lemma GrantRows(db: Db, id: Id, attempt: Id, no: int, fence: int, now: int)
    requires id in db.groups
    ensures var r := GrantLease(db, id, attempt, no, fence, now);
            r.Done? ==>
              && r.value.1.LeaseGranted?
              && id in r.value.0.groups && NoneEnded(db.groups[id], r.value.0.groups[id])
              && r.value.0.groups[id].reservation == db.groups[id].reservation
  {
    hide AttemptCheck, AttemptUpdateAllowed, ScanCheck, ScanUpdateAllowed, ValidId;
    assert attempt in db.groups[id].attempts ==> AttemptIdTaken(db, attempt);
  }

  // ---- the answers of start and renew -------------------------------------

  /** The command is the present holder's: it names the current attempt of a
      running job, its fence and the version of its lease. */
  ghost predicate Holder(db: Db, c: LeaseCommand) {
    && c.scan in db.groups
    && var g := db.groups[c.scan];
       && HasLive(g) && g.scan.current == Some(c.attempt)
       && Current(g).fence == c.fence && Current(g).leaseVersion == c.version
  }

  lemma CurrentIsHolder(db: Db, c: LeaseCommand)
    requires Inv(db)
    ensures CommandIsCurrent(db, c) <==> Holder(db, c)
    ensures Holder(db, c) ==> ValidCommand(c)
  {
    hide Inv, GroupOk, ReadableScan, ReadableAttempt, ValidId;
    if c.scan in db.groups {
      RunningFacts(db, c.scan);
    }
  }

  /** Start: each answer exactly when its fact about the row holds. */
  lemma StartAnswers(db: Db, c: LeaseCommand, now: int)
    requires Inv(db) && ValidCommand(c) && ReadableClock(now)
    ensures var answer := StartStep(db, c, now).1;
            && (answer == StaleLease <==> !Holder(db, c))
            && (Holder(db, c) ==>
                  var t := Current(db.groups[c.scan]);
                  && (answer == DeadlineRunOut <==> now >= t.hardDeadline)
                  && (answer == LeaseRunOut <==> t.leaseExpires.value <= now < t.hardDeadline)
                  && (answer == AlreadyRunning <==> now < t.leaseExpires.value && t.state == Running)
                  && (answer == Started <==> t.updated <= now < t.leaseExpires.value && t.state == Leased)
                  && (answer.HeartbeatUnavailable? <==> now < t.updated && now < t.leaseExpires.value && t.state == Leased))
  {
    hide Inv, GroupOk, ReadableScan, ReadableAttempt, ValidId, ValidCommand, CommandIsCurrent, AttemptCheck;
    CurrentIsHolder(db, c);
    StartEffect(db, c, now);
    if Holder(db, c) {
      RunningFacts(db, c.scan);
      InvGroup(db, c.scan);
      CurrentShape(c.scan, db.groups[c.scan], c.attempt);
      if Current(db.groups[c.scan]).state == Leased {
        StartedRowOk(db.groups[c.scan], c.attempt, now);
      }
    }
  }

  /** What a renewal would move the expiry to. */
  function NextExpiry(t: Attempt, now: int): int {
    if now + 15 < t.hardDeadline then now + 15 else t.hardDeadline
  }

  /** Renew: the lease is extended exactly when the attempt runs, is within its lease,
      and the expiry strictly grows; each refusal exactly when its fact holds. */
  lemma RenewAnswers(db: Db, c: LeaseCommand, now: int)
    requires Inv(db) && ValidCommand(c) && ReadableClock(now)
    ensures var answer := RenewStep(db, c, now).1;
            && (answer == StaleLease <==> !Holder(db, c) || Current(db.groups[c.scan]).state != Running)
            && (Holder(db, c) && Current(db.groups[c.scan]).state == Running ==>
                  var t := Current(db.groups[c.scan]);
                  && (answer == DeadlineRunOut <==> now >= t.hardDeadline)
                  && (answer == LeaseRunOut <==> t.leaseExpires.value <= now < t.hardDeadline)
                  && (answer == LeaseNotExtended <==>
                        now < t.leaseExpires.value && NextExpiry(t, now) <= t.leaseExpires.value)
                  && (answer == Renewed(c.version + 1, NextExpiry(t, now)) <==>
                        t.updated <= now < t.leaseExpires.value < NextExpiry(t, now))
                  && (answer.Renewed? ==> answer == Renewed(c.version + 1, NextExpiry(t, now)))
                  && (answer.HeartbeatUnavailable? <==>
                        now < t.updated && now < t.leaseExpires.value < NextExpiry(t, now)))
  {
    hide Inv, GroupOk, ReadableScan, ReadableAttempt, ValidId, ValidCommand, CommandIsCurrent, AttemptCheck;
    CurrentIsHolder(db, c);
    RenewEffect(db, c, now);
    if Holder(db, c) {
      RunningFacts(db, c.scan);
      InvGroup(db, c.scan);
      CurrentShape(c.scan, db.groups[c.scan], c.attempt);
      var t := Current(db.groups[c.scan]);
      if t.state == Running && t.leaseExpires.value < NextExpiry(t, now) {
        RenewedRowOk(db.groups[c.scan], c.attempt, NextExpiry(t, now), now);
      }
    }
  }

  // ---- the answers of cancel ----------------------------------------------

  /** Cancel: each answer exactly when its reason holds. */
  lemma CancelAnswers(db: Db, id: Id, now: int)
    requires Inv(db) && ValidId(id) && ReadableClock(now)
    ensures var answer := CancelStep(db, id, now).1;
            && (answer == NotCancellable <==>
                  id !in db.groups || db.groups[id].scan.job in {JobSucceeded, JobFailed, JobExpired})
            && (answer == AlreadyCancelled <==> id in db.groups && db.groups[id].scan.job == JobCancelled)
            && (answer == ScanCancelled <==>
                  id in db.groups && LiveJob(db.groups[id].scan.job) && TerminationClockOk(db.groups[id], now))
            && (answer.CancelUnavailable? <==>
                  id in db.groups && LiveJob(db.groups[id].scan.job) && !TerminationClockOk(db.groups[id], now))
  {
    hide Inv, GroupOk, JobEnded, ReadableScan, ReadableAttempt, ValidId, ReleaseTx, CancelAttempt, ScanCheck, ScanUpdateAllowed,
         TerminationClockOk;
    CancelEffect(db, id, now);
    if id in db.groups {
      RunningFacts(db, id);
    }
  }

  /** A cancelled attempt that ran is cancelled, one that was only leased is
      superseded, and the quota is returned as cancelled. */
  lemma CancelRows(db: Db, id: Id, now: int)
    requires Inv(db) && CancelStep(db, id, now).1 == ScanCancelled
    ensures var db' := CancelStep(db, id, now).0;
            && id in db.groups && id in db'.groups
            && var g, g' := db.groups[id], db'.groups[id];
               && ReturnedFor(g, g', now, CancelledRelease)
               && if HasLive(g) then
                    OneEnded(g, g', g.scan.current.value, if Current(g).state == Running then Cancelled else Superseded, now)
                  else NoneEnded(g, g')
  {
    hide Inv, GroupOk, GroupShape, ReadableScan, ReadableAttempt, ValidId, ReleaseTx, ScanCheck, ScanUpdateAllowed, Unreleased,
         AttemptCheck, AttemptUpdateAllowed;
    CancelEffect(db, id, now);
    if id in db.groups && LiveJob(db.groups[id].scan.job) {
      var g := db.groups[id];
      RunningFacts(db, id);
      InvGroup(db, id);
      CurrentIsOk(id, g);
      forall g2: ScanGroup | g2.reservation == g.reservation
        ensures ReleasedAsGroup(db, id, g2, now, CancelledRelease)
      {
        SameReservation(g, g2);
        ReleasedAs(db.(groups := db.groups[id := g2]), id, now, CancelledRelease);
      }
    }
  }

  // ---- fencing ------------------------------------------------------------

  /** A newer attempt was leased, or the lease was renewed since. */
  ghost predicate Outdated(db: Db, c: LeaseCommand) {
    && c.scan in db.groups
    && var g := db.groups[c.scan];
       c.fence < g.scan.fence || (c.attempt in g.attempts && c.version < g.attempts[c.attempt].leaseVersion)
  }

  lemma {:induction false} StaysOutdated(db: Db, es: seq<Event>, c: LeaseCommand)
    requires Inv(db) && Outdated(db, c) && NeverCreates(es, c.scan) && c.scan in Run(db, es).groups
    ensures Outdated(Run(db, es), c)
  {
    hide Inv, Step, WorkLeft, JobEdge, AttemptEdge;
    if es != [] {
      var init := es[..|es| - 1];
      PresentThroughout(db, es, c.scan);
      StaysOutdated(db, init, c);
      RunKeepsInv(db, init);
      StepEvolves(Run(db, init), es[|es| - 1], c.scan);
    }
  }

  /** Fencing: a command that a renewal or a newer attempt has overtaken is refused
      as stale for ever, whatever runs and whatever the clocks say. */
  lemma OvertakenIsStale(db: Db, es: seq<Event>, c: LeaseCommand, now: int)
    requires Inv(db) && Outdated(db, c) && NeverCreates(es, c.scan) && ValidCommand(c) && ReadableClock(now)
    ensures StartStep(Run(db, es), c, now) == (Run(db, es), StaleLease)
    ensures RenewStep(Run(db, es), c, now) == (Run(db, es), StaleLease)
  {
    hide Inv, Run, StartStep, RenewStep, ValidCommand;
    RunKeepsInv(db, es);
    var after := Run(db, es);
    if c.scan in after.groups {
      StaysOutdated(db, es, c);
      RunningFacts(after, c.scan);
    }
    StartAnswers(after, c, now);
    RenewAnswers(after, c, now);
    StaleWritesNothing(after, c, now);
  }

  lemma StaleWritesNothing(db: Db, c: LeaseCommand, now: int)
    ensures StartStep(db, c, now).1 == StaleLease ==> StartStep(db, c, now).0 == db
    ensures RenewStep(db, c, now).1 == StaleLease ==> RenewStep(db, c, now).0 == db
  {
    hide CommandIsCurrent, AttemptCheck, AttemptUpdateAllowed;
  }

  // ---- a worker that keeps its times --------------------------------------

  /** The attempt of the lease runs, under this version and expiry. */
  ghost predicate RunsUnder(db: Db, l: Lease, version: int, expires: int, since: int) {
    && Inv(db) && Holder(db, CommandOf(l).(version := version))
    && var g := db.groups[l.scan];
       && Current(g).state == Running && Current(g).leaseExpires == Some(expires)
       && Current(g).hardDeadline == l.hardDeadline && g.scan.target == l.target
       && g.scan.updated <= since && Current(g).updated <= since
  }

  /** Nothing in the run touched the scan's rows. */
  ghost predicate Untouched(db: Db, es: seq<Event>, id: Id) {
    id in db.groups && id in Run(db, es).groups && Run(db, es).groups[id] == db.groups[id]
  }

  lemma RunsOnUntouched(db: Db, es: seq<Event>, l: Lease, version: int, expires: int, since: int)
    requires RunsUnder(db, l, version, expires, since) && Untouched(db, es, l.scan)
    ensures RunsUnder(Run(db, es), l, version, expires, since)
  {
    hide Inv, Run;
    RunKeepsInv(db, es);
  }

  /** What a freshly granted lease says, and that its holder's command is current. */
  ghost predicate FreshLease(db: Db, l: Lease, id: Id, a: Id, now: int) {
    && l.scan == id && l.attempt == a && l.version == 1 && Holder(db, CommandOf(l))
    && var g := db.groups[id];
       && Current(g).state == Leased && Current(g).leaseExpires == Some(l.leaseExpires)
       && Current(g).hardDeadline == l.hardDeadline && g.scan.target == l.target
       && g.scan.updated == now && Current(g).updated == now
       && l.hardDeadline == (if now + 45 < g.scan.accessExpires then now + 45 else g.scan.accessExpires)
       && l.leaseExpires == (if now + 15 < l.hardDeadline then now + 15 else l.hardDeadline)
  }

  lemma GrantedIsHolder(db: Db, id: Id, now: int, a: Id, db1: Db, l: Lease)
    requires Inv(db) && AcquireStep(db, id, now, a) == (db1, LeaseGranted(l))
    ensures Inv(db1) && FreshLease(db1, l, id, a, now) && ReadableClock(now)
  {
    hide Inv, ReadableScan, ReadableAttempt, ValidId, AcquireTx, AcquireBlocked, CurrentRunOut;
    AcquireEffect(db, id, now, a);
    AcquireAnswers(db, id, now, a);
  }

  /** The start of a granted lease succeeds from its grant until it expires. */
  lemma LeaseStarts(db: Db, id: Id, now: int, a: Id, db1: Db, l: Lease, es: seq<Event>, later: int)
    requires Inv(db) && AcquireStep(db, id, now, a) == (db1, LeaseGranted(l))
    requires Untouched(db1, es, id) && now <= later < l.leaseExpires
    ensures StartStep(Run(db1, es), CommandOf(l), later).1 == Started
    ensures RunsUnder(StartStep(Run(db1, es), CommandOf(l), later).0, l, 1, l.leaseExpires, later)
  {
    hide Inv, Run, AcquireStep, StartTx, CommandIsCurrent, ValidCommand;
    GrantedIsHolder(db, id, now, a, db1, l);
    RunKeepsInv(db1, es);
    var before := Run(db1, es);
    RunningFacts(before, id);
    CurrentIsHolder(before, CommandOf(l));
    StartAnswers(before, CommandOf(l), later);
    StartEffect(before, CommandOf(l), later);
  }

  /** A renewal in time that gains something succeeds. */
  lemma RenewalSucceeds(db: Db, l: Lease, version: int, expires: int, since: int, now: int)
    requires RunsUnder(db, l, version, expires, since)
    requires 0 <= since <= now < expires < Min(now + 15, l.hardDeadline)
    ensures var (db', answer) := RenewStep(db, CommandOf(l).(version := version), now);
            && answer == Renewed(version + 1, Min(now + 15, l.hardDeadline))
            && RunsUnder(db', l, version + 1, Min(now + 15, l.hardDeadline), now)
  {
    hide Inv, RenewTx, CommandIsCurrent, ValidCommand;
    var c := CommandOf(l).(version := version);
    RunningFacts(db, l.scan);
    CurrentIsHolder(db, c);
    RenewAnswers(db, c, now);
    RenewEffect(db, c, now);
  }

  /** A commit in time, for the scan's own host, is the primary one. */
  lemma CommitSucceeds(db: Db, l: Lease, version: int, expires: int, since: int, now: int, digest: Digest, projection: Projection)
    requires RunsUnder(db, l, version, expires, since)
    requires 0 < since <= now < expires && ValidDigest(digest) && projection.host == l.target
    ensures CommitStep(db, l.scan, Identity(l.attempt, l.fence, digest), projection, now).1 == Committed
  {
    hide Inv, CommitTx, ValidDigest, ReadableScan, ReadableAttempt, ValidId;
    RunningFacts(db, l.scan);
    CommitEffect(db, l.scan, Identity(l.attempt, l.fence, digest), projection, now);
    CommitAnswers(db, l.scan, Identity(l.attempt, l.fence, digest), projection, now);
  }

  /** A tick of the heartbeat: what others did before it, and its clock reading. */
  datatype Tick = Tick(others: seq<Event>, at: int)

  /** The state after the renewals, each with the version last answered. */
  ghost function Beaten(db: Db, l: Lease, ticks: seq<Tick>): Db {
    if ticks == [] then db
    else
      var n := |ticks| - 1;
      Step(Run(Beaten(db, l, ticks[..n]), ticks[n].others), RenewEvent(CommandOf(l).(version := 1 + n), ticks[n].at)).0
  }

  /** When the lease expires after these renewals, and when its row was last written. */
  function ExpiryAfter(l: Lease, ticks: seq<Tick>): int {
    if ticks == [] then l.leaseExpires else Min(ticks[|ticks| - 1].at + 15, l.hardDeadline)
  }

  function LastWrite(started: int, ticks: seq<Tick>): int {
    if ticks == [] then started else ticks[|ticks| - 1].at
  }

  /** The tick comes before the lease expires and moves the expiry on; others
      leave the scan alone. */
  ghost predicate TickOnTime(db: Db, l: Lease, started: int, ticks: seq<Tick>, n: nat)
    requires n < |ticks|
  {
    && LastWrite(started, ticks[..n]) <= ticks[n].at < ExpiryAfter(l, ticks[..n]) < ExpiryAfter(l, ticks[..n + 1])
    && Untouched(Beaten(db, l, ticks[..n]), ticks[n].others, l.scan)
  }

  ghost predicate OnTime(db: Db, l: Lease, started: int, ticks: seq<Tick>) {
    forall n | 0 <= n < |ticks| :: TickOnTime(db, l, started, ticks, n)
  }

  lemma EarlierOnTime(db: Db, l: Lease, started: int, ticks: seq<Tick>)
    requires ticks != [] && OnTime(db, l, started, ticks)
    ensures OnTime(db, l, started, ticks[..|ticks| - 1])
  {
    hide Untouched, Beaten, ExpiryAfter, LastWrite;
    var init := ticks[..|ticks| - 1];
    forall m | 0 <= m < |init|
      ensures TickOnTime(db, l, started, init, m)
    {
      assert init[..m] == ticks[..m] && init[..m + 1] == ticks[..m + 1];
      assert TickOnTime(db, l, started, ticks, m);
    }
  }

  lemma OneBeat(db: Db, l: Lease, version: int, expires: int, since: int, tick: Tick)
    requires RunsUnder(db, l, version, expires, since) && Untouched(db, tick.others, l.scan)
    requires 0 <= since <= tick.at < expires < Min(tick.at + 15, l.hardDeadline)
    ensures RunsUnder(Step(Run(db, tick.others), RenewEvent(CommandOf(l).(version := version), tick.at)).0, l, version + 1,
                      Min(tick.at + 15, l.hardDeadline), tick.at)
  {
    hide RunsUnder, Untouched, RenewStep, Run;
    RunsOnUntouched(db, tick.others, l, version, expires, since);
    RenewalSucceeds(Run(db, tick.others), l, version, expires, since, tick.at);
  }

  lemma {:induction false} BeatsSucceed(db: Db, l: Lease, started: int, ticks: seq<Tick>)
    requires RunsUnder(db, l, 1, l.leaseExpires, started) && 0 <= started && OnTime(db, l, started, ticks)
    ensures RunsUnder(Beaten(db, l, ticks), l, 1 + |ticks|, ExpiryAfter(l, ticks), LastWrite(started, ticks))
    ensures started <= LastWrite(started, ticks)
  {
    hide RunsUnder, Untouched, Step, Run;
    if ticks != [] {
      var n := |ticks| - 1;
      var init := ticks[..n];
      assert ticks[..n + 1] == ticks;
      assert TickOnTime(db, l, started, ticks, n);
      EarlierOnTime(db, l, started, ticks);
      hide OnTime;
      BeatsSucceed(db, l, started, init);
      OneBeat(Beaten(db, l, init), l, 1 + n, ExpiryAfter(l, init), LastWrite(started, init), ticks[n]);
    }
  }

  /** A worker that keeps its times is never turned away: leased, started within
      the lease, renewed in time, its commit within the last expiry is the primary
      one, as long as nobody else touches the scan. */
  lemma TimelyWorkerCommits(db: Db, id: Id, now: int, a: Id, db1: Db, l: Lease, idle: seq<Event>, started: int,
                            ticks: seq<Tick>, last: seq<Event>, at: int, digest: Digest, projection: Projection)
    requires Inv(db) && 0 < now && AcquireStep(db, id, now, a) == (db1, LeaseGranted(l))
    requires Untouched(db1, idle, id) && now <= started < l.leaseExpires
    requires var db2 := StartStep(Run(db1, idle), CommandOf(l), started).0;
             OnTime(db2, l, started, ticks) && Untouched(Beaten(db2, l, ticks), last, id)
    requires LastWrite(started, ticks) <= at < ExpiryAfter(l, ticks)
    requires ValidDigest(digest) && projection.host == l.target
    ensures var db3 := Beaten(StartStep(Run(db1, idle), CommandOf(l), started).0, l, ticks);
            CommitStep(Run(db3, last), id, Identity(a, l.fence, digest), projection, at).1 == Committed
  {
    hide Inv, AcquireStep, StartStep, CommitStep, Run, RunsUnder, Beaten, OnTime, Untouched, ValidDigest;
    GrantedIsHolder(db, id, now, a, db1, l);
    LeaseStarts(db, id, now, a, db1, l, idle, started);
    var db2 := StartStep(Run(db1, idle), CommandOf(l), started).0;
    BeatsSucceed(db2, l, started, ticks);
    var db3 := Beaten(db2, l, ticks);
    RunsOnUntouched(db3, last, l, 1 + |ticks|, ExpiryAfter(l, ticks), LastWrite(started, ticks));
    CommitSucceeds(Run(db3, last), l, 1 + |ticks|, ExpiryAfter(l, ticks), LastWrite(started, ticks), at, digest, projection);
  }

  // ---- the answers of the result commit -----------------------------------

  ghost predicate NamesCurrent(g: ScanGroup, submitted: Identity) {
    g.scan.current == Some(submitted.attempt) && g.scan.fence == submitted.fence
  }

  /** Every answer of the committer's transaction is given exactly when its reason
      holds; the deadline code is never needed, for no lease outlives its deadline. */
  lemma CommitAnswers(db: Db, id: Id, submitted: Identity, projection: Projection, now: int)
    requires Inv(db) && ValidIdentity(submitted) && PositiveSafe(now)
    ensures var answer := CommitStep(db, id, submitted, projection, now).1;
            && (answer == CommitDenied(InvalidState, true) <==> id !in db.groups || db.groups[id].scan.current.None?)
            && answer != CommitDenied(AttemptDeadlineExceeded, false)
            && (id in db.groups && db.groups[id].scan.current.Some? ==>
                  var g := db.groups[id];
                  && (answer == CommitDenied(JobNotRunning, false) <==> g.scan.job in {JobFailed, JobCancelled, JobExpired})
                  && (g.scan.job == JobSucceeded ==>
                        && g.scan.accepted.Some?
                        && answer == ClassifyLate(g.scan.accepted.value, submitted))
                  && (HasLive(g) ==>
                        var t := Current(g);
                        && (answer == CommitDenied(StaleAttempt, false) <==> !NamesCurrent(g, submitted))
                        && (NamesCurrent(g, submitted) ==>
                              && (answer == CommitDenied(AttemptNotRunning, false) <==> t.state == Leased)
                              && (answer == CommitDenied(LeaseExpired, false) <==>
                                    t.state == Running && now >= t.leaseExpires.value)
                              && (answer == SubmissionRejected <==>
                                    t.state == Running && now < t.leaseExpires.value && projection.host != g.scan.target)
                              && (answer == Committed <==>
                                    && t.state == Running && now < t.leaseExpires.value && projection.host == g.scan.target
                                    && g.scan.updated <= now && t.updated <= now)
                              && (answer.CommitUnavailable? <==>
                                    && t.state == Running && now < t.leaseExpires.value && projection.host == g.scan.target
                                    && (now < g.scan.updated || now < t.updated)))))
  {
    hide Inv, GroupOk, ReadableScan, ReadableAttempt, ValidId, ValidDigest, StoreResult, ValidIdentity;
    LockedFacts(db, id, now);
    CommitEffect(db, id, submitted, projection, now);
    if id in db.groups && db.groups[id].scan.current.Some? {
      RunningFacts(db, id);
      InvGroup(db, id);
      CurrentIsOk(id, db.groups[id]);
      AcceptedFacts(id, db.groups[id]);
      if Acceptable(db.groups[id], submitted, now) && projection.host == db.groups[id].scan.target {
        StoreEffect(db, id, submitted, projection, now);
      }
    }
  }
}
