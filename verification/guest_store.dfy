/** The persistence layer as the program it is: statements that update tables
    row by row, loops over counter rows, and a rollback to the state the
    transaction began with. Each transaction is proved to be the one specified,
    so what is proved about runs holds of the tables it updates in place. */
module GuestStore {
  import opened Basics
  import opened ScanProtocol
  import opened GuestOutput
  import opened Tables
  import opened Quota
  import T = Transactions
  import opened Transactions
  import opened Invariant
  import opened LedgerProofs
  import opened CreateProofs
  import opened RetentionProofs
  import opened Runs
  import opened RunRates
  import opened UsageLoading

  // ---- one iteration of each counter loop ---------------------------------

  lemma RefreshOneMore(ws: Windows, keys: seq<WindowKey>, i: nat, now: int)
    requires i < |keys|
    ensures var done := RefreshWindows(ws, keys[..i], now);
            RefreshWindows(ws, keys[..i + 1], now)
            == (if LiveWindow(done, keys[i], now) then done else done[keys[i] := Window(0, now + WindowSeconds(keys[i].dimension))])
  {
    hide RefreshWindows;
    var done := RefreshWindows(ws, keys[..i], now);
    var more := RefreshWindows(ws, keys[..i + 1], now);
    assert keys[..i + 1] == keys[..i] + [keys[i]];
    assert LiveWindow(done, keys[i], now) <==> keys[i] in keys[..i] || LiveWindow(ws, keys[i], now) by {
      WindowLater(ws, keys[..i], keys[i], now);
    }
    WindowLater(ws, keys[..i], keys[i], now);
    forall k
      ensures k in more <==> k in done || k == keys[i]
      ensures k in more && k != keys[i] ==> more[k] == done[k]
    {
      WindowLater(ws, keys[..i], k, now);
      WindowLater(ws, keys[..i + 1], k, now);
    }
    WindowLater(ws, keys[..i + 1], keys[i], now);
  }

  lemma WindowLater(ws: Windows, keys: seq<WindowKey>, k: WindowKey, now: int)
    ensures k in RefreshWindows(ws, keys, now) <==> k in keys || k in ws
    ensures k in keys ==> RefreshWindows(ws, keys, now)[k] == RefreshedWindow(ws, k, now)
    ensures k in ws && k !in keys ==> RefreshWindows(ws, keys, now)[k] == ws[k]
  {
  }

  lemma ZeroOneMore(active: Active, keys: seq<ActiveKey>, i: nat)
    requires i < |keys|
    ensures var done := ZeroActive(active, keys[..i]);
            ZeroActive(active, keys[..i + 1]) == (if keys[i] in done then done else done[keys[i] := 0])
  {
    assert keys[..i + 1] == keys[..i] + [keys[i]];
  }

  lemma IncrementOneMore(ws: Windows, keys: seq<WindowKey>, i: nat)
    requires i < |keys| && keys[i] in ws && keys[i] !in keys[..i]
    ensures var done := IncrementWindows(ws, keys[..i]);
            && keys[i] in done
            && IncrementWindows(ws, keys[..i + 1]) == done[keys[i] := Window(done[keys[i]].count + 1, done[keys[i]].reset)]
  {
    assert keys[..i + 1] == keys[..i] + [keys[i]];
  }

  lemma IncrementActiveOneMore(active: Active, keys: seq<ActiveKey>, i: nat)
    requires i < |keys| && keys[i] in active && keys[i] !in keys[..i]
    ensures var done := IncrementActive(active, keys[..i]);
            && keys[i] in done
            && IncrementActive(active, keys[..i + 1]) == done[keys[i] := done[keys[i]] + 1]
  {
    assert keys[..i + 1] == keys[..i] + [keys[i]];
  }

  /** The aggregate of the rows seen so far, per dimension. */
  ghost predicate Aggregates(
    sums: map<WindowDimension, Usage>, ws: Windows, session: Digest, networks: seq<Digest>, now: int, seen: set<WindowKey>)
  {
    forall d :: DimensionSum(sums, ws, d, DigestsOf(d, session, networks), now, seen)
  }

  ghost predicate DimensionSum(
    sums: map<WindowDimension, Usage>, ws: Windows, d: WindowDimension, digests: seq<Digest>, now: int, seen: set<WindowKey>)
  {
    SeenUsage(ws, d, digests, now, seen) == (if d in sums then Some(sums[d]) else None)
  }

  lemma AggregatesNone(ws: Windows, session: Digest, networks: seq<Digest>, now: int)
    ensures Aggregates(map[], ws, session, networks, now, {})
  {
    forall d
      ensures DimensionSum(map[], ws, d, DigestsOf(d, session, networks), now, {})
    {
      NothingSeen(ws, d, DigestsOf(d, session, networks), now);
    }
  }

  lemma AggregatesOneMore(sums: map<WindowDimension, Usage>, ws: Windows, session: Digest, networks: seq<Digest>,
                          now: int,
                          seen: set<WindowKey>, k: WindowKey)
    requires Aggregates(sums, ws, session, networks, now, seen) && DistinctDigests(networks)
    requires k in WindowRows(ws, session, networks) && k !in seen
    ensures var sums' := if ws[k].reset <= now then sums
                         else sums[k.dimension := AddUsage(if k.dimension in sums then Some(sums[k.dimension]) else None, ws[k])];
            Aggregates(sums', ws, session, networks, now, seen + {k})
  {
    var sums' := if ws[k].reset <= now then sums
                 else sums[k.dimension := AddUsage(if k.dimension in sums then Some(sums[k.dimension]) else None, ws[k])];
    forall d
      ensures DimensionSum(sums', ws, d, DigestsOf(d, session, networks), now, seen + {k})
    {
      assert DimensionSum(sums, ws, d, DigestsOf(d, session, networks), now, seen);
      if d == k.dimension && ws[k].reset > now {
        OneMoreSeen(ws, DigestsOf(d, session, networks), now, seen, k);
      } else {
        SameSeen(ws, d, DigestsOf(d, session, networks), now, seen, seen + {k});
      }
    }
  }

  lemma AggregatesAll(sums: map<WindowDimension, Usage>, ws: Windows, session: Digest, networks: seq<Digest>, now: int,
                      d: WindowDimension)
    requires Aggregates(sums, ws, session, networks, now, WindowRows(ws, session, networks))
    ensures WindowUsage(ws, d, DigestsOf(d, session, networks), now) == (if d in sums then Some(sums[d]) else None)
  {
    assert DimensionSum(sums, ws, d, DigestsOf(d, session, networks), now, WindowRows(ws, session, networks));
    AllSeen(ws, d, DigestsOf(d, session, networks), now, WindowRows(ws, session, networks));
  }

  lemma SaneRowsAre(ws: Windows, session: Digest, networks: seq<Digest>, now: int)
    ensures SaneRows(ws, session, networks, now)
            <==> forall k | k in WindowRows(ws, session, networks) :: SaneWindow(ws, k, now)
  {
    if SaneRows(ws, session, networks, now) {
      forall k | k in WindowRows(ws, session, networks)
        ensures SaneWindow(ws, k, now)
      {
        assert k == WindowKey(k.dimension, k.digest);
        if k.dimension in {NetworkBurst, NetworkDaily} {
          var i :| 0 <= i < |networks| && networks[i] == k.digest;
          assert SaneWindow(ws, WindowKey(NetworkBurst, networks[i]), now);
          assert SaneWindow(ws, WindowKey(NetworkDaily, networks[i]), now);
        } else {
          assert k.digest == session by {
            assert k.digest in DigestsOf(k.dimension, session, networks);
          }
          assert k.dimension == SessionBurst || k.dimension == SessionDaily;
          assert SaneWindow(ws, WindowKey(SessionBurst, session), now);
        }
      }
    }
  }

  lemma SaneActiveAre(active: Active, session: Digest, networks: seq<Digest>)
    ensures (SaneActive(active, SessionActive(session))
             && forall i | 0 <= i < |networks| :: SaneActive(active, NetworkActive(networks[i])))
            <==> forall k | k in ActiveRows(active, session, networks) :: SaneActive(active, k)
  {
  }

  /** Scans deleted, decrements and inconsistencies so far add up. */
  lemma DeleteOneMore(db: Db, due: seq<Id>, i: nat)
    requires forall j | 0 <= j < |due| :: due[j] in db.groups
    requires forall j, k | 0 <= j < k < |due| :: due[j] != due[k]
    requires i < |due|
    ensures due[i] in DeleteDue(db, due[..i]).0.groups
    ensures var before := DeleteDue(db, due[..i]);
            var released := ReleaseDue(before.0.active, before.0.groups[due[i]].reservation);
            && DeleteDue(db, due[..i + 1]).0 == DeleteScan(before.0.(active := released.0), due[i])
            && DeleteDue(db, due[..i + 1]).1 == before.1 + released.1
            && DeleteDue(db, due[..i + 1]).2 == before.2 + released.2
  {
    hide ReleaseDue, DeleteScan;
    var upto := due[..i + 1];
    assert upto != [] && upto[..|upto| - 1] == due[..i] && upto[|upto| - 1] == due[i];
  }

  lemma DeleteNone(db: Db)
    ensures DeleteDue(db, []) == (db, 0, 0)
  {
  }

  function Plus(sum: Option<int>, count: int): int {
    if sum.Some? then sum.value + count else count
  }

  class Store {
    var groups: map<Id, ScanGroup>
    var index: map<(Digest, string), Id>
    var active: Active
    var windows: Windows
    var paused: bool

    constructor ()
      ensures View() == EMPTY && Valid()
    {
      groups, index, active, windows, paused := map[], map[], map[], map[], false;
      new;
      EmptyInv();
    }

    function View(): Db
      reads this
    {
      Db(groups, index, active, windows, paused)
    }

    ghost predicate Valid()
      reads this
    {
      Inv(View())
    }

    /** What the transaction computes on `before` is what was done and answered. */
    ghost predicate Follows<R>(spec: Tx<(Db, R)>, r: Tx<R>)
      reads this
    {
      match spec
      case Throw(fault) => r == Throw(fault)
      case Done(out) => r == Done(out.1) && View() == out.0
    }

    method Rollback(before: Db)
      modifies this
      ensures View() == before
    {
      groups, index, active, windows, paused := before.groups, before.index, before.active, before.windows, before.paused;
    }

    // ---- statements -------------------------------------------------------

    /** UPDATE of one scan row; `matched` is its WHERE clause, `cas` the error for
        an update that matched no row. */
    method UpdateScanRow(id: Id, matched: bool, row: Scan, cas: Fault) returns (r: Tx<()>)
      requires id in groups
      modifies this`groups
      ensures !matched ==> r == Throw(cas)
      ensures matched ==>
                match UpdateScan(old(groups[id]), row)
                case Throw(fault) => r == Throw(fault)
                case Done(g) => r == Done(()) && groups == old(groups)[id := g]
    {
      if !matched {
        return Throw(cas);
      }
      if !(ScanCheck(row) && ScanUpdateAllowed(groups[id].scan, row)) {
        return Throw(ConstraintViolation);
      }
      groups := groups[id := groups[id].(scan := row)];
      return Done(());
    }

    method UpdateAttemptRow(id: Id, a: Id, matched: bool, row: Attempt, cas: Fault) returns (r: Tx<()>)
      requires id in groups && a in groups[id].attempts
      modifies this`groups
      ensures !matched ==> r == Throw(cas)
      ensures matched ==>
                match UpdateAttempt(old(groups[id]), a, row)
                case Throw(fault) => r == Throw(fault)
                case Done(g) => r == Done(()) && groups == old(groups)[id := g]
    {
      if !matched {
        return Throw(cas);
      }
      if !(AttemptCheck(row) && AttemptUpdateAllowed(groups[id].attempts[a], row)) {
        return Throw(ConstraintViolation);
      }
      groups := groups[id := groups[id].(attempts := groups[id].attempts[a := row])];
      return Done(());
    }

    /** UPDATE ... SET active_count = active_count - 1 ... WHERE active_count > 0,
        then DELETE of a row that reached zero. */
    method DecrementAndRemove(k: ActiveKey) returns (ok: bool)
      modifies this`active
      ensures match Decrement(old(active), k)
              case None => !ok && active == old(active)
              case Some(after) => ok && active == after
    {
      if k !in active || active[k] <= 0 {
        return false;
      }
      active := active[k := active[k] - 1];
      if active[k] == 0 {
        active := active - {k};
        assert active == old(active) - {k};
      }
      return true;
    }

    method ReleaseReservation(id: Id, now: int, reason: ReleaseReason) returns (ok: bool)
      modifies this
      ensures match ReleaseTx(old(View()), id, now, reason)
              case None => !ok
              case Some(after) => ok && View() == after
    {
      if id !in groups || groups[id].reservation.None? {
        return false;
      }
      var r := groups[id].reservation.value;
      if r.released.Some? {
        return true;
      }
      if now < r.reservedAt || now > r.deletion {
        return false;
      }
      var specs := ActiveSpecs(r.session, r.network);
      var i := 0;
      while i < |specs|
        invariant 0 <= i <= |specs|
        invariant groups == old(groups) && index == old(index) && windows == old(windows) && paused == old(paused)
        invariant i == 0 ==> active == old(active)
        invariant i >= 1 ==> Decrement(old(active), specs[0]).Some?
        invariant i == 1 ==> active == Decrement(old(active), specs[0]).value
        invariant i == 2 ==> Some(active) == Decrement(Decrement(old(active), specs[0]).value, specs[1])
      {
        var decremented := DecrementAndRemove(specs[i]);
        if !decremented {
          return false;
        }
        i := i + 1;
      }
      groups := groups[id := groups[id].(reservation := Some(r.(released := Some((now, reason)))))];
      return true;
    }

    // ---- leases -----------------------------------------------------------

    method CreateAttempt(id: Id, attempt: Id, no: int, fence: int, now: int) returns (r: Tx<AcquireResult>)
      requires id in groups
      modifies this
      ensures Follows(GrantLease(old(View()), id, attempt, no, fence, now), r)
    {
      var scan := groups[id].scan;
      if !ValidId(attempt) {
        return Throw(AttemptIdFault);
      }
      var hardDeadline := if now + HARD_DEADLINE_SECONDS < scan.accessExpires then now + HARD_DEADLINE_SECONDS
                          else scan.accessExpires;
      var leaseExpiry := if now + LEASE_SECONDS < hardDeadline then now + LEASE_SECONDS else hardDeadline;
      if leaseExpiry <= now || hardDeadline <= now {
        return Throw(NoTime);
      }
      var row := Attempt(no, fence, 0, None, hardDeadline, Created, now, now, None, None);
      if AttemptIdTaken(View(), attempt) || AttemptNumberTaken(groups[id], no, fence) {
        return Throw(UniqueViolation);
      }
      if !AttemptCheck(row) {
        return Throw(ConstraintViolation);
      }
      groups := groups[id := groups[id].(attempts := groups[id].attempts[attempt := row])];
      var _ :- UpdateAttemptRow(id, attempt, groups[id].attempts[attempt].state == Created
                                && groups[id].attempts[attempt].leaseVersion == 0,
                                row.(state := Leased, leaseVersion := 1, leaseExpires := Some(leaseExpiry)), LeaseCas);
      var _ :- UpdateScanRow(id, LiveJob(groups[id].scan.job),
                             groups[id].scan.(job := JobRunning, current := Some(attempt), fence := fence, updated := now),
                             JobCas);
      assert groups == old(groups)[id := groups[id]];
      return Done(LeaseGranted(Lease(id, attempt, no, fence, 1, scan.target, leaseExpiry, hardDeadline)));
    }

    method TerminateJob(id: Id, now: int, terminal: JobState) returns (r: Tx<AcquireResult>)
      requires id in groups && terminal in {JobFailed, JobExpired}
      modifies this
      ensures Follows(T.TerminateJob(old(View()), id, now, terminal), r)
    {
      hide ReleaseTx, ReadableAttempt, AttemptCheck, AttemptUpdateAllowed, ScanCheck, ScanUpdateAllowed;
      var scan := groups[id].scan;
      if scan.job == JobRunning && scan.current.Some? {
        var a := scan.current.value;
        if a !in groups[id].attempts || !ReadableAttempt(a, groups[id].attempts[a]) {
          return Throw(AttemptStateFault);
        }
        var t := groups[id].attempts[a];
        if LiveAttempt(t.state) {
          var next := if t.state == Leased then Superseded else if now >= t.hardDeadline then TimedOut else Cancelled;
          var _ :- UpdateAttemptRow(id, a, LiveAttempt(groups[id].attempts[a].state),
                                    t.(state := next, finished := Some(now), updated := now), AttemptCas);
        } else if t.state !in {Failed, TimedOut, Cancelled, Superseded} {
          return Throw(AttemptStateFault);
        }
      }
      var _ :- UpdateScanRow(id, LiveJob(groups[id].scan.job), groups[id].scan.(job := terminal, updated := now),
                             JobTerminalCas);
      assert groups == old(groups)[id := groups[id]];
      var released := ReleaseReservation(id, now, if terminal == JobFailed then FailedRelease else ExpiredRelease);
      if !released {
        return Throw(AbuseRelease);
      }
      return Done(JobTerminated(terminal));
    }

    method AcquireInTransaction(id: Id, now: int, newAttempt: Id) returns (r: Tx<AcquireResult>)
      modifies this
      ensures Follows(AcquireTx(old(View()), id, now, newAttempt), r)
    {
      hide GrantLease, T.TerminateJob, ReadableScan, ReadableAttempt, AttemptCheck, AttemptUpdateAllowed, AttemptIdTaken;
      if id !in groups || !ReadableScan(id, groups[id].scan) {
        return Done(NotAcquirable);
      }
      var scan := groups[id].scan;
      if !LiveJob(scan.job) {
        return Done(NotAcquirable);
      }
      if now >= scan.accessExpires {
        r := TerminateJob(id, now, JobExpired);
        return;
      }
      var attemptNo, fence := 1, 1;
      if scan.job == JobRunning {
        if scan.current.None? || scan.current.value !in groups[id].attempts
           || !ReadableAttempt(scan.current.value, groups[id].attempts[scan.current.value]) {
          return Throw(AttemptStateFault);
        }
        var a := scan.current.value;
        var t := groups[id].attempts[a];
        if !LiveAttempt(t.state) || t.leaseExpires.None? || t.fence != scan.fence {
          return Throw(AttemptStateFault);
        }
        if now < t.leaseExpires.value && now < t.hardDeadline {
          return Done(LeaseHeld((if t.leaseExpires.value < t.hardDeadline then t.leaseExpires.value else t.hardDeadline) - now));
        }
        var next := if t.state == Running && now >= t.hardDeadline then TimedOut else Superseded;
        var _ :- UpdateAttemptRow(id, a, LiveAttempt(groups[id].attempts[a].state),
                                  t.(state := next, finished := Some(now), updated := now), AttemptCas);
        if t.no >= MAX_ATTEMPTS {
          r := TerminateJob(id, now, JobFailed);
          return;
        }
        attemptNo, fence := t.no + 1, t.fence + 1;
      }
      r := CreateAttempt(id, newAttempt, attemptNo, fence, now);
    }

    method Acquire(id: Id, now: int, newAttempt: Id) returns (r: AcquireResult)
      modifies this
      ensures (View(), r) == AcquireStep(old(View()), id, now, newAttempt)
      ensures old(Valid()) ==> Valid()
    {
      hide Inv, AcquireTx, ValidId;
      var before := View();
      KeepsValid(AcquireEvent(id, now, newAttempt));
      if !ValidId(id) {
        return AcquireInvalid;
      }
      if !ReadableClock(now) {
        return AcquireUnavailable(None);
      }
      var result := AcquireInTransaction(id, now, newAttempt);
      match result {
        case Done(value) => r := value;
        case Throw(fault) =>
          Rollback(before);
          r := AcquireUnavailable(Some(fault));
      }
    }

    /** Whatever follows the specification of a step keeps the invariant. */
    lemma KeepsValid(e: Event)
      ensures Valid() ==> Inv(Step(View(), e).0)
    {
      hide Inv, Step;
      if Valid() {
        StepKeepsInv(View(), e);
      }
    }

    method StartInTransaction(c: LeaseCommand, now: int) returns (r: Tx<HeartbeatResult>)
      modifies this
      ensures Follows(StartTx(old(View()), c, now), r)
    {
      if !CommandIsCurrent(View(), c) {
        return Done(StaleLease);
      }
      var t := groups[c.scan].attempts[c.attempt];
      if now >= t.hardDeadline {
        return Done(DeadlineRunOut);
      }
      if now >= t.leaseExpires.value {
        return Done(LeaseRunOut);
      }
      if t.state == Running {
        return Done(AlreadyRunning);
      }
      if t.state != Leased {
        return Done(StaleLease);
      }
      var _ :- UpdateAttemptRow(c.scan, c.attempt, t.fence == c.fence && t.leaseVersion == c.version && t.state == Leased,
                                t.(state := Running, started := Some(now), updated := now), StartCas);
      return Done(Started);
    }

    method Start(c: LeaseCommand, now: int) returns (r: HeartbeatResult)
      modifies this
      ensures (View(), r) == StartStep(old(View()), c, now)
      ensures old(Valid()) ==> Valid()
    {
      hide Inv, StartTx, ValidCommand;
      var before := View();
      KeepsValid(StartEvent(c, now));
      if !ValidCommand(c) {
        return HeartbeatInvalid;
      }
      if !ReadableClock(now) {
        return HeartbeatUnavailable(None);
      }
      var result := StartInTransaction(c, now);
      match result {
        case Done(value) => r := value;
        case Throw(fault) =>
          Rollback(before);
          r := HeartbeatUnavailable(Some(fault));
      }
    }

    method RenewInTransaction(c: LeaseCommand, now: int) returns (r: Tx<HeartbeatResult>)
      modifies this
      ensures Follows(RenewTx(old(View()), c, now), r)
    {
      if !CommandIsCurrent(View(), c) || groups[c.scan].attempts[c.attempt].state != Running {
        return Done(StaleLease);
      }
      var t := groups[c.scan].attempts[c.attempt];
      if now >= t.hardDeadline {
        return Done(DeadlineRunOut);
      }
      if now >= t.leaseExpires.value {
        return Done(LeaseRunOut);
      }
      var candidate := now + LEASE_SECONDS;
      var nextExpiry := if candidate < t.hardDeadline then candidate else t.hardDeadline;
      if nextExpiry <= t.leaseExpires.value {
        return Done(LeaseNotExtended);
      }
      var nextVersion := c.version + 1;
      var _ :- UpdateAttemptRow(c.scan, c.attempt, t.fence == c.fence && t.leaseVersion == c.version && t.state == Running,
                                t.(leaseVersion := nextVersion, leaseExpires := Some(nextExpiry), updated := now), RenewCas);
      return Done(Renewed(nextVersion, nextExpiry));
    }

    method Renew(c: LeaseCommand, now: int) returns (r: HeartbeatResult)
      modifies this
      ensures (View(), r) == RenewStep(old(View()), c, now)
      ensures old(Valid()) ==> Valid()
    {
      hide Inv, RenewTx, ValidCommand;
      var before := View();
      KeepsValid(RenewEvent(c, now));
      if !ValidCommand(c) {
        return HeartbeatInvalid;
      }
      if !ReadableClock(now) {
        return HeartbeatUnavailable(None);
      }
      var result := RenewInTransaction(c, now);
      match result {
        case Done(value) => r := value;
        case Throw(fault) =>
          Rollback(before);
          r := HeartbeatUnavailable(Some(fault));
      }
    }

    // ---- cancellation -----------------------------------------------------

    method CancelCurrentAttempt(id: Id, now: int) returns (r: Tx<()>)
      requires id in groups
      modifies this`groups
      ensures match CancelAttempt(old(groups[id]), now)
              case Throw(fault) => r == Throw(fault)
              case Done(g) => r == Done(()) && groups == old(groups)[id := g]
    {
      var scan := groups[id].scan;
      if scan.current.None? {
        assert groups == groups[id := groups[id]];
        return Done(());
      }
      var a := scan.current.value;
      if a !in groups[id].attempts || !ReadableAttempt(a, groups[id].attempts[a]) {
        return Throw(AttemptStateFault);
      }
      var t := groups[id].attempts[a];
      var next := match t.state
                  case Running => Some(Cancelled)
                  case Leased => Some(Superseded)
                  case Created => Some(Cancelled)
                  case _ => None;
      if next.None? {
        return Throw(AttemptStateFault);
      }
      r := UpdateAttemptRow(id, a, groups[id].attempts[a].state == t.state,
                            t.(state := next.value, finished := Some(now), updated := now), AttemptCas);
    }

    method CancelInTransaction(id: Id, now: int) returns (r: Tx<CancelResult>)
      modifies this
      ensures Follows(CancelTx(old(View()), id, now), r)
    {
      hide ReleaseTx, ReadableScan, ScanCheck, ScanUpdateAllowed, ReadableAttempt;
      if id !in groups || !ReadableScan(id, groups[id].scan) {
        return Done(NotCancellable);
      }
      var released: bool;
      if groups[id].scan.job == JobCancelled {
        released := ReleaseReservation(id, now, CancelledRelease);
        if !released {
          return Throw(AbuseRelease);
        }
        return Done(AlreadyCancelled);
      }
      if !LiveJob(groups[id].scan.job) {
        return Done(NotCancellable);
      }
      var _ :- CancelCurrentAttempt(id, now);
      var _ :- UpdateScanRow(id, LiveJob(groups[id].scan.job), groups[id].scan.(job := JobCancelled, updated := now),
                             JobCancelCas);
      assert groups == old(groups)[id := groups[id]];
      released := ReleaseReservation(id, now, CancelledRelease);
      if !released {
        return Throw(AbuseRelease);
      }
      return Done(ScanCancelled);
    }

    method Cancel(id: Id, now: int) returns (r: CancelResult)
      modifies this
      ensures (View(), r) == CancelStep(old(View()), id, now)
      ensures old(Valid()) ==> Valid()
    {
      hide Inv, CancelTx, ValidId;
      var before := View();
      KeepsValid(CancelEvent(id, now));
      if !ValidId(id) {
        return CancelInvalid;
      }
      if !ReadableClock(now) {
        return CancelUnavailable(None);
      }
      var result := CancelInTransaction(id, now);
      match result {
        case Done(value) => r := value;
        case Throw(fault) =>
          Rollback(before);
          r := CancelUnavailable(Some(fault));
      }
    }

    // ---- result commit ----------------------------------------------------

    method PersistResult(id: Id, submitted: Identity, projection: Projection, now: int) returns (r: Tx<CommitResult>)
      modifies this
      ensures Follows(CommitTx(old(View()), id, submitted, projection, now), r)
    {
      var locked := LockedState(View(), id, now);
      if locked.None? {
        return Done(CommitDenied(InvalidState, true));
      }
      var decision := DecideCommit(locked.value, submitted, now);
      match decision {
        case Deny(code, audit) => return Done(CommitDenied(code, audit));
        case AlreadyCommitted => return Done(CommitReplayed);
        case PrimaryCommit =>
      }
      if projection.host != groups[id].scan.target {
        return Done(SubmissionRejected);
      }
      if submitted.attempt !in groups[id].attempts {
        return Throw(CommitCas);
      }
      var t := groups[id].attempts[submitted.attempt];
      var _ :- UpdateAttemptRow(id, submitted.attempt,
                                t.fence == submitted.fence && t.state == Running
                                && t.leaseExpires.Some? && t.leaseExpires.value > now && t.hardDeadline > now,
                                t.(state := Succeeded, finished := Some(now), updated := now), CommitCas);
      var s := groups[id].scan;
      var _ :- UpdateScanRow(id, s.job == JobRunning && s.current == Some(submitted.attempt)
                             && s.fence == submitted.fence && s.accepted.None?,
                             s.(job := JobSucceeded, accepted := Some(submitted), updated := now), CommitCas);
      var row := ResultRow(submitted.attempt, submitted.fence, submitted.digest, now, projection);
      if groups[id].result.Some? {
        return Throw(UniqueViolation);
      }
      if !ResultInsertAllowed(groups[id], row) {
        return Throw(ConstraintViolation);
      }
      groups := groups[id := groups[id].(result := Some(row))];
      assert groups == old(groups)[id := groups[id]];
      var released := ReleaseReservation(id, now, TerminalResult);
      if !released {
        return Throw(AbuseRelease);
      }
      return Done(Committed);
    }

    method Commit(id: Id, submitted: Identity, projection: Projection, now: int) returns (r: CommitResult)
      modifies this
      ensures (View(), r) == CommitStep(old(View()), id, submitted, projection, now)
      ensures old(Valid()) ==> Valid()
    {
      hide Inv, CommitTx;
      var before := View();
      KeepsValid(CommitEvent(id, submitted, projection, now));
      var result := PersistResult(id, submitted, projection, now);
      match result {
        case Done(value) => r := value;
        case Throw(fault) =>
          Rollback(before);
          r := CommitUnavailable(fault);
      }
    }

    // ---- quota ------------------------------------------------------------

    method InsertCurrentRows(session: Digest, network: Digest, now: int)
      modifies this`windows, this`active
      ensures windows == RefreshWindows(old(windows), WindowSpecs(session, network), now)
      ensures active == ZeroActive(old(active), ActiveSpecs(session, network))
    {
      var windowSpecs := WindowSpecs(session, network);
      var activeSpecs := ActiveSpecs(session, network);
      assert RefreshWindows(windows, [], now) == windows && ZeroActive(active, []) == active;
      for i := 0 to |windowSpecs|
        invariant windows == RefreshWindows(old(windows), windowSpecs[..i], now)
        invariant active == old(active)
      {
        RefreshOneMore(old(windows), windowSpecs, i, now);
        var k := windowSpecs[i];
        if k !in windows || windows[k].reset <= now {
          windows := windows[k := Window(0, now + WindowSeconds(k.dimension))];
        }
      }
      assert windowSpecs[..|windowSpecs|] == windowSpecs;
      for i := 0 to |activeSpecs|
        invariant windows == RefreshWindows(old(windows), windowSpecs, now)
        invariant active == ZeroActive(old(active), activeSpecs[..i])
      {
        ZeroOneMore(old(active), activeSpecs, i);
        if activeSpecs[i] !in active {
          active := active[activeSpecs[i] := 0];
        }
      }
      assert activeSpecs[..|activeSpecs|] == activeSpecs;
    }

    /** The window rows of a request, met in any order, summed per dimension. */
    method LoadWindows(session: Digest, networks: seq<Digest>, now: int) returns (r: Tx<map<WindowDimension, Usage>>)
      requires DistinctDigests(networks)
      ensures r.Done? <==> SaneRows(windows, session, networks, now)
      ensures r.Throw? ==> r.fault == AbuseState
      ensures r.Done? ==> forall d ::
                WindowUsage(windows, d, DigestsOf(d, session, networks), now)
                == (if d in r.value then Some(r.value[d]) else None)
    {
      var sums: map<WindowDimension, Usage> := map[];
      var rows := WindowRows(windows, session, networks);
      var todo := rows;
      AggregatesNone(windows, session, networks, now);
      assert rows - todo == {};
      SaneRowsAre(windows, session, networks, now);
      while todo != {}
        invariant todo <= rows
        invariant forall k | k in rows - todo :: SaneWindow(windows, k, now)
        invariant Aggregates(sums, windows, session, networks, now, rows - todo)
        decreases todo
      {
        var k :| k in todo;
        AggregatesOneMore(sums, windows, session, networks, now, rows - todo, k);
        assert (rows - todo) + {k} == rows - (todo - {k});
        todo := todo - {k};
        var row := windows[k];
        if row.count < 0 || row.count > MAX_COUNTER || row.reset > now + WindowSeconds(k.dimension) {
          assert !SaneWindow(windows, k, now);
          return Throw(AbuseState);
        }
        if row.reset > now {
          var previous := if k.dimension in sums then Some(sums[k.dimension]) else None;
          sums := sums[k.dimension := AddUsage(previous, row)];
        }
      }
      assert rows - todo == rows;
      forall d
        ensures WindowUsage(windows, d, DigestsOf(d, session, networks), now) == (if d in sums then Some(sums[d]) else None)
      {
        AggregatesAll(sums, windows, session, networks, now, d);
      }
      return Done(sums);
    }

    /** The active rows of a request, met in any order: the session's count and the
        sum over the network's digests, or None for a dimension without a row. */
    method LoadActive(session: Digest, networks: seq<Digest>) returns (r: Tx<(Option<int>, Option<int>)>)
      requires DistinctDigests(networks)
      ensures r.Done? <==> SaneActive(active, SessionActive(session))
                           && forall i | 0 <= i < |networks| :: SaneActive(active, NetworkActive(networks[i]))
      ensures r.Throw? ==> r.fault == AbuseState
      ensures r.Done? ==> r.value.0 == if SessionActive(session) in active then Some(active[SessionActive(session)]) else None
      ensures r.Done? ==> (r.value.1.Some? <==> exists i | 0 <= i < |networks| :: NetworkActive(networks[i]) in active)
      ensures r.Done? && r.value.1.Some? ==> r.value.1.value == NetworkUsage(active, networks)
    {
      var sessionSum, networkSum := None, None;
      var rows := ActiveRows(active, session, networks);
      var todo := rows;
      NoActiveSeen(active, networks);
      assert rows - todo == {};
      SaneActiveAre(active, session, networks);
      while todo != {}
        invariant todo <= rows
        invariant forall k | k in rows - todo :: SaneActive(active, k)
        invariant sessionSum == if SessionActive(session) in rows - todo then Some(active[SessionActive(session)]) else None
        invariant networkSum.Some? <==> exists k | k in rows - todo :: k.NetworkActive?
        invariant SeenActive(active, networks, rows - todo) == if networkSum.Some? then networkSum.value else 0
        decreases todo
      {
        var k :| k in todo;
        assert (rows - todo) + {k} == rows - (todo - {k});
        if k.NetworkActive? {
          OneMoreActive(active, networks, rows - todo, k);
        } else {
          SameActiveSeen(active, networks, rows - todo, k);
        }
        todo := todo - {k};
        var count := active[k];
        if count < 0 || count > MAX_COUNTER {
          assert !SaneActive(active, k);
          return Throw(AbuseState);
        }
        if k.SessionActive? {
          sessionSum := Some(Plus(sessionSum, count));
        } else {
          networkSum := Some(Plus(networkSum, count));
        }
      }
      assert rows - todo == rows;
      AllActiveSeen(active, networks, rows);
      if i :| 0 <= i < |networks| && NetworkActive(networks[i]) in active {
        assert NetworkActive(networks[i]) in rows;
      }
      return Done((sessionSum, networkSum));
    }

    method LoadAbuseCounterState(session: Digest, networks: seq<Digest>, now: int) returns (r: Tx<UsageSnapshot>)
      requires DistinctDigests(networks) && networks != []
      modifies this`windows, this`active
      ensures windows == RefreshWindows(old(windows), WindowSpecs(session, networks[0]), now)
      ensures active == ZeroActive(old(active), ActiveSpecs(session, networks[0]))
      ensures r == LoadUsage(windows, active, session, networks, now)
    {
      hide RefreshWindows, ZeroActive, WindowUsage, SaneRows, SaneActive, NetworkUsage;
      InsertCurrentRows(session, networks[0], now);
      var sums :- LoadWindows(session, networks, now);
      var counts :- LoadActive(session, networks);
      forall d: WindowDimension
        ensures WindowUsage(windows, d, DigestsOf(d, session, networks), now) == (if d in sums then Some(sums[d]) else None)
      {
      }
      assert DigestsOf(SessionBurst, session, networks) == [session] && DigestsOf(SessionDaily, session, networks) == [session];
      assert DigestsOf(NetworkBurst, session, networks) == networks && DigestsOf(NetworkDaily, session, networks) == networks;
      if SessionBurst !in sums || SessionDaily !in sums || NetworkBurst !in sums || NetworkDaily !in sums {
        return Throw(AbuseState);
      }
      if counts.0.None? || counts.1.None? {
        return Throw(AbuseState);
      }
      return Done(UsageSnapshot(sums[SessionBurst], sums[SessionDaily], sums[NetworkBurst], sums[NetworkDaily],
                                counts.0.value, counts.1.value));
    }

    method IncrementWindowRows(keys: seq<WindowKey>)
      requires forall i | 0 <= i < |keys| :: keys[i] in windows
      requires forall i, j | 0 <= i < j < |keys| :: keys[i] != keys[j]
      modifies this`windows
      ensures windows == IncrementWindows(old(windows), keys)
    {
      assert IncrementWindows(windows, []) == windows;
      for i := 0 to |keys|
        invariant windows == IncrementWindows(old(windows), keys[..i])
      {
        IncrementOneMore(old(windows), keys, i);
        windows := windows[keys[i] := Window(windows[keys[i]].count + 1, windows[keys[i]].reset)];
      }
      assert keys[..|keys|] == keys;
    }

    method IncrementActiveRows(keys: seq<ActiveKey>)
      requires forall i | 0 <= i < |keys| :: keys[i] in active
      requires forall i, j | 0 <= i < j < |keys| :: keys[i] != keys[j]
      modifies this`active
      ensures active == IncrementActive(old(active), keys)
    {
      assert IncrementActive(active, []) == active;
      for i := 0 to |keys|
        invariant active == IncrementActive(old(active), keys[..i])
      {
        IncrementActiveOneMore(old(active), keys, i);
        active := active[keys[i] := active[keys[i]] + 1];
      }
      assert keys[..|keys|] == keys;
    }

    /** None when the scan was charged, otherwise the decision not to charge it. */
    method ReserveCounters(id: Id, session: Digest, networks: seq<Digest>, now: int) returns (r: Tx<Option<Admission>>)
      requires id in groups && DistinctDigests(networks)
      modifies this
      ensures match ReserveTx(old(View()), id, session, networks, now)
              case Throw(fault) => r == Throw(fault)
              case Done(Reserved(after)) => r == Done(None) && View() == after
              case Done(NotReserved(admission)) => r == Done(Some(admission))
    {
      hide LoadUsage, RefreshWindows, ZeroActive, IncrementWindows, IncrementActive, DecideAdmission;
      if networks == [] {
        return Throw(AbuseState);
      }
      var usage :- LoadAbuseCounterState(session, networks, now);
      var decision := DecideAdmission(paused, usage, now);
      if !decision.Admit? {
        return Done(Some(decision));
      }
      var windowSpecs, activeSpecs := WindowSpecs(session, networks[0]), ActiveSpecs(session, networks[0]);
      forall i | 0 <= i < |windowSpecs|
        ensures windowSpecs[i] in windows
      {
        RefreshedIsLive(old(windows), windowSpecs, windowSpecs[i], now);
      }
      forall i | 0 <= i < |activeSpecs|
        ensures activeSpecs[i] in active
      {
        ZeroActiveKeeps(old(active), activeSpecs, activeSpecs[i]);
      }
      IncrementWindowRows(WindowSpecs(session, networks[0]));
      IncrementActiveRows(ActiveSpecs(session, networks[0]));
      if groups[id].reservation.Some? {
        return Throw(UniqueViolation);
      }
      groups := groups[id := groups[id].(reservation := Some(Reservation(session, networks[0], now, now + RETENTION_SECONDS, None)))];
      return Done(None);
    }

    // ---- create, replay or replace ----------------------------------------

    method DeleteScanRow(id: Id) returns (removed: bool)
      modifies this`groups, this`index
      ensures removed <==> id in old(groups)
      ensures removed ==> View() == DeleteScan(old(View()), id)
      ensures !removed ==> View() == old(View())
    {
      if id !in groups {
        return false;
      }
      index := index - {(groups[id].scan.session, groups[id].scan.key)};
      groups := groups - {id};
      return true;
    }

    /** A replaced predecessor returns its quota and is deleted. */
    method RemoveReplaced(existing: Option<(Id, Scan)>, now: int) returns (r: Tx<()>)
      modifies this
      ensures match ReleaseReplaced(old(View()), existing, now)
              case Throw(fault) => r == Throw(fault)
              case Done(after) => r == Done(()) && View() == after
    {
      hide ReleaseTx;
      if existing.Some? {
        var released := ReleaseReservation(existing.value.0, now, ExpiredReplacement);
        if !released {
          return Throw(AbuseRelease);
        }
        var removed := DeleteScanRow(existing.value.0);
        if !removed {
          return Throw(ReplaceCas);
        }
      }
      return Done(());
    }

    method InsertScanRow(req: CreateRequest, c: CreateInputs) returns (r: Tx<()>)
      modifies this`groups, this`index
      ensures match InsertScan(old(View()), req, c)
              case Throw(fault) => r == Throw(fault)
              case Done(after) => r == Done(()) && View() == after && c.freshScan in groups
    {
      hide ScanCheck;
      if c.freshScan in groups || (req.session, req.key) in index {
        return Throw(UniqueViolation);
      }
      if !ScanCheck(NewScan(req, c)) {
        return Throw(ConstraintViolation);
      }
      groups := groups[c.freshScan := ScanGroup(NewScan(req, c), map[], None, None)];
      index := index[(req.session, req.key) := c.freshScan];
      return Done(());
    }

    method CreateInTransaction(req: CreateRequest, c: CreateInputs) returns (r: Tx<CreateResult>, committed: bool)
      requires DistinctDigests(req.networks)
      modifies this
      ensures match CreateTx(old(View()), req, c)
              case Throw(fault) => r == Throw(fault)
              case Done(out) => r == Done(out.1) && (if committed then View() == out.0 else out.0 == old(View()))
    {
      hide DecideIdempotency, ReserveTx, ReleaseReplaced, InsertScan, ValidId, Existing;
      committed := true;
      var existing := Existing(View(), req.session, req.key);
      var decision := DecideIdempotency(existing, req.requestHash, req.now, c.keyring);
      if decision.DecideDeny? {
        return Done(decision.result), true;
      }
      if decision.DecideReplay? {
        return Done(ScanReplayed(decision.token.scan, decision.token, decision.token.accessExpires,
                                 decision.token.accessExpires - req.now)), true;
      }
      if !ValidId(c.freshScan) || |c.freshNonce| != TOKEN_NONCE_BYTES || !UsableKey(c.keyring, c.activeKey) {
        return Done(TokenUnavailable), false;
      }
      var expires := req.now + ACCESS_SECONDS;
      var token := Token(c.freshScan, c.freshNonce, expires, c.keyring[c.activeKey]);
      var removed := RemoveReplaced(existing, req.now);
      if removed.Throw? {
        return Throw(removed.fault), false;
      }
      var inserted := InsertScanRow(req, c);
      if inserted.Throw? {
        return Throw(inserted.fault), false;
      }
      var abuse := ReserveCounters(c.freshScan, req.session, req.networks, req.now);
      if abuse.Throw? {
        return Throw(abuse.fault), false;
      }
      match abuse.value {
        case None => return Done(ScanCreated(c.freshScan, token, expires, decision.DecideReplace?)), true;
        case Some(Refuse(denial)) => return Done(AbuseLimited(denial)), false;
        case Some(_) => return Throw(InvalidAbuseContext), false;
      }
    }

    method CreateOrReplay(req: CreateRequest, c: CreateInputs) returns (r: CreateResult)
      modifies this
      ensures (View(), r) == CreateStep(old(View()), req, c)
      ensures old(Valid()) ==> Valid()
    {
      hide Inv, CreateTx;
      var before := View();
      KeepsValid(CreateEvent(req, c));
      if !ValidCreateRequest(req) {
        return CreateInvalidRequest;
      }
      var result, committed := CreateInTransaction(req, c);
      match result {
        case Done(value) =>
          if !committed {
            Rollback(before);
          }
          r := value;
        case Throw(fault) =>
          Rollback(before);
          r := CreateUnavailable(fault);
      }
    }

    // ---- retention --------------------------------------------------------

    method ReleaseDueReservation(id: Id) returns (decrements: int, inconsistencies: int)
      requires id in groups
      modifies this`active
      ensures (active, decrements, inconsistencies) == ReleaseDue(old(active), groups[id].reservation)
    {
      if groups[id].reservation.None? {
        return 0, 1;
      }
      var reservation := groups[id].reservation.value;
      if reservation.released.Some? {
        return 0, 0;
      }
      decrements, inconsistencies := 0, 0;
      var ok := DecrementAndRemove(SessionActive(reservation.session));
      if ok {
        decrements := decrements + 1;
      } else {
        inconsistencies := inconsistencies + 1;
      }
      ok := DecrementAndRemove(NetworkActive(reservation.network));
      if ok {
        decrements := decrements + 1;
      } else {
        inconsistencies := inconsistencies + 1;
      }
    }

    method DeleteDueScans(due: seq<Id>) returns (scansDeleted: int, decrements: int, inconsistencies: int)
      requires forall i | 0 <= i < |due| :: due[i] in groups
      requires forall i, j | 0 <= i < j < |due| :: due[i] != due[j]
      modifies this
      ensures (View(), decrements, inconsistencies) == DeleteDue(old(View()), due)
      ensures scansDeleted == |due|
    {
      hide ReleaseDue, DeleteDue;
      ghost var before := View();
      scansDeleted, decrements, inconsistencies := 0, 0, 0;
      assert due[..0] == [];
      DeleteNone(before);
      for i := 0 to |due|
        invariant (View(), decrements, inconsistencies) == DeleteDue(before, due[..i])
        invariant scansDeleted == i
      {
        DeleteOneMore(before, due, i);
        var d, n := ReleaseDueReservation(due[i]);
        decrements, inconsistencies := decrements + d, inconsistencies + n;
        var _ := DeleteScanRow(due[i]);
        scansDeleted := scansDeleted + 1;
      }
      assert due[..|due|] == due;
    }

    method RunBatch(now: int, batch: int, visitScans: seq<Id>, visitWindows: seq<WindowKey>) returns (r: RetainResult)
      modifies this
      ensures (View(), r) == RetainStep(old(View()), now, batch, visitScans, visitWindows)
      ensures old(Valid()) ==> Valid()
    {
      hide Inv, DeleteDue, SelectDue, SelectStale, MoreWork;
      KeepsValid(RetainEvent(now, batch, visitScans, visitWindows));
      if batch < 1 || batch > MAX_BATCH_SIZE {
        return BatchInvalid;
      }
      if !ReadableClock(now) {
        return BatchUnavailable;
      }
      var due := SelectDue(View(), visitScans, now, batch);
      var scansDeleted, decrements, inconsistencies := DeleteDueScans(due);
      var stale := SelectStale(View(), visitWindows, now, batch);
      windows := windows - (set k | k in stale);
      return BatchDone(BatchTotals(now, |due|, scansDeleted, decrements, |stale|, inconsistencies,
                                   MoreWork(View(), now), inconsistencies > 0));
    }

    // ---- any transaction --------------------------------------------------

    /** The transaction that an event stands for. */
    method Apply(e: Event) returns (answer: Answer)
      modifies this
      ensures (View(), answer) == Step(old(View()), e)
      ensures old(Valid()) ==> Valid()
    {
      hide Inv, AcquireStep, StartStep, RenewStep, CommitStep, CancelStep, CreateStep, RetainStep;
      KeepsValid(e);
      match e {
        case CreateEvent(r, c) =>
          var o := CreateOrReplay(r, c);
          answer := OfCreate(o);
        case AcquireEvent(id, now, a) =>
          var o := Acquire(id, now, a);
          answer := OfAcquire(o);
        case StartEvent(c, now) =>
          var o := Start(c, now);
          answer := OfHeartbeat(o);
        case RenewEvent(c, now) =>
          var o := Renew(c, now);
          answer := OfHeartbeat(o);
        case CommitEvent(id, i, p, now) =>
          var o := Commit(id, i, p, now);
          answer := OfCommit(o);
        case CancelEvent(id, now) =>
          var o := Cancel(id, now);
          answer := OfCancel(o);
        case RetainEvent(now, n, vs, vw) =>
          var o := RunBatch(now, n, vs, vw);
          answer := OfRetain(o);
        case ServiceEvent(p, _) =>
          paused := p;
          answer := OfService;
      }
    }
  }
}
