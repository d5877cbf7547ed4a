/** Window rows that are over are as good as absent: no later answer depends on
    whether retention has deleted them. */
module RunPruning {
  import opened Basics
  import opened ScanProtocol
  import opened GuestOutput
  import opened Tables
  import opened Quota
  import opened Transactions
  import opened Invariant
  import opened LedgerProofs
  import opened CreateProofs
  import opened RetentionProofs
  import opened Runs
  import opened RunFaults

  ghost predicate LiveRowAgrees(a: Windows, b: Windows, k: WindowKey, t: int) {
    && (LiveWindow(a, k, t) <==> LiveWindow(b, k, t))
    && (LiveWindow(a, k, t) ==> a[k] == b[k])
  }

  ghost predicate SameLive(a: Windows, b: Windows, t: int) {
    forall k :: LiveRowAgrees(a, b, k, t)
  }

  /** Equal except for window rows that are over at `t`. */
  ghost predicate Alike(db: Db, other: Db, t: int) {
    other == db.(windows := other.windows) && SameLive(db.windows, other.windows, t)
  }

  lemma AlikeLater(db: Db, other: Db, t: int, t': int)
    requires Alike(db, other, t) && t <= t'
    ensures Alike(db, other, t')
  {
    forall k
      ensures LiveRowAgrees(db.windows, other.windows, k, t')
    {
      assert LiveRowAgrees(db.windows, other.windows, k, t);
    }
  }

  // ---- transactions that never look at windows ----------------------------

  /** The step does the same, and leaves the windows alone, with other windows. */
  ghost predicate Blind<R>(out: (Db, R), other: (Db, R), ws: Windows) {
    other == (out.0.(windows := ws), out.1)
  }

  /** A transaction and the same transaction over other windows. */
  ghost predicate BlindTx<R>(out: Tx<(Db, R)>, other: Tx<(Db, R)>, before: Windows, ws: Windows) {
    if out.Throw? then other == out
    else other.Done? && Blind(out.value, other.value, ws) && out.value.0.windows == before
  }

  lemma ReleaseBlind(db: Db, ws: Windows, id: Id, now: int, reason: ReleaseReason)
    ensures ReleaseTx(db.(windows := ws), id, now, reason).Some? <==> ReleaseTx(db, id, now, reason).Some?
    ensures ReleaseTx(db, id, now, reason).Some? ==>
              ReleaseTx(db.(windows := ws), id, now, reason).value == ReleaseTx(db, id, now, reason).value.(windows := ws)
    ensures ReleaseTx(db, id, now, reason).Some? ==> ReleaseTx(db, id, now, reason).value.windows == db.windows
  {
  }

  lemma GrantBlind(db: Db, ws: Windows, id: Id, attempt: Id, no: int, fence: int, now: int)
    requires id in db.groups
    ensures BlindTx(GrantLease(db, id, attempt, no, fence, now), GrantLease(db.(windows := ws), id, attempt, no, fence, now),
                    db.windows, ws)
  {
    hide ValidId, AttemptCheck, UpdateAttempt, UpdateScan;
    assert AttemptIdTaken(db.(windows := ws), attempt) <==> AttemptIdTaken(db, attempt);
  }

  lemma TerminateBlind(db: Db, ws: Windows, id: Id, now: int, terminal: JobState)
    requires id in db.groups && terminal in {JobFailed, JobExpired}
    ensures BlindTx(TerminateJob(db, id, now, terminal), TerminateJob(db.(windows := ws), id, now, terminal), db.windows, ws)
  {
    hide FinishAttempt, ReadableAttempt, UpdateScan, ReleaseTx;
    forall g: ScanGroup, reason {:trigger ReleaseTx(db.(groups := db.groups[id := g]), id, now, reason)}
      ensures ReleaseTx(db.(windows := ws).(groups := db.groups[id := g]), id, now, reason).Some?
              <==> ReleaseTx(db.(groups := db.groups[id := g]), id, now, reason).Some?
      ensures ReleaseTx(db.(groups := db.groups[id := g]), id, now, reason).Some? ==>
                ReleaseTx(db.(windows := ws).(groups := db.groups[id := g]), id, now, reason).value
                == ReleaseTx(db.(groups := db.groups[id := g]), id, now, reason).value.(windows := ws)
      ensures ReleaseTx(db.(groups := db.groups[id := g]), id, now, reason).Some? ==>
                ReleaseTx(db.(groups := db.groups[id := g]), id, now, reason).value.windows == db.windows
    {
      var mid := db.(groups := db.groups[id := g]);
      assert db.(windows := ws).(groups := db.groups[id := g]) == mid.(windows := ws);
      ReleaseBlind(mid, ws, id, now, reason);
    }
  }

  /** Acquiring when the live attempt was first retired to `g`. */
  lemma RetiredBlind(db: Db, ws: Windows, id: Id, g: ScanGroup, attempt: Id, no: int, fence: int, now: int)
    ensures var mid := db.(groups := db.groups[id := g]);
            var mid' := db.(windows := ws).(groups := db.groups[id := g]);
            && BlindTx(TerminateJob(mid, id, now, JobFailed), TerminateJob(mid', id, now, JobFailed), db.windows, ws)
            && BlindTx(GrantLease(mid, id, attempt, no, fence, now), GrantLease(mid', id, attempt, no, fence, now),
                       db.windows, ws)
  {
    hide GrantLease, TerminateJob, Blind;
    var mid := db.(groups := db.groups[id := g]);
    assert db.(windows := ws).(groups := db.groups[id := g]) == mid.(windows := ws);
    TerminateBlind(mid, ws, id, now, JobFailed);
    GrantBlind(mid, ws, id, attempt, no, fence, now);
  }

  lemma AcquireTxBlind(db: Db, ws: Windows, id: Id, now: int, a: Id)
    ensures BlindTx(AcquireTx(db, id, now, a), AcquireTx(db.(windows := ws), id, now, a), db.windows, ws)
  {
    hide FinishAttempt, ReadableAttempt, ReadableScan, GrantLease, TerminateJob;
    if id in db.groups {
      var g := db.groups[id];
      TerminateBlind(db, ws, id, now, JobExpired);
      GrantBlind(db, ws, id, a, 1, 1, now);
      if g.scan.current.Some? && g.scan.current.value in g.attempts {
        var t := g.attempts[g.scan.current.value];
        var finished := FinishAttempt(g, g.scan.current.value,
                                      if t.state == Running && now >= t.hardDeadline then TimedOut else Superseded, now);
        if finished.Done? {
          RetiredBlind(db, ws, id, finished.value, a, t.no + 1, t.fence + 1, now);
        }
      }
    }
  }

  lemma AcquireBlind(db: Db, ws: Windows, id: Id, now: int, a: Id)
    ensures Blind(AcquireStep(db, id, now, a), AcquireStep(db.(windows := ws), id, now, a), ws)
    ensures AcquireStep(db, id, now, a).0.windows == db.windows
  {
    hide AcquireTx, ValidId;
    AcquireTxBlind(db, ws, id, now, a);
  }

  lemma StartTxBlind(db: Db, ws: Windows, c: LeaseCommand, now: int)
    ensures BlindTx(StartTx(db, c, now), StartTx(db.(windows := ws), c, now), db.windows, ws)
  {
    hide UpdateAttempt, ReadableAttempt;
  }

  lemma RenewTxBlind(db: Db, ws: Windows, c: LeaseCommand, now: int)
    ensures BlindTx(RenewTx(db, c, now), RenewTx(db.(windows := ws), c, now), db.windows, ws)
  {
    hide UpdateAttempt, ReadableAttempt;
  }

  lemma HeartbeatBlind(db: Db, ws: Windows, c: LeaseCommand, now: int)
    ensures Blind(StartStep(db, c, now), StartStep(db.(windows := ws), c, now), ws)
    ensures Blind(RenewStep(db, c, now), RenewStep(db.(windows := ws), c, now), ws)
    ensures StartStep(db, c, now).0.windows == db.windows && RenewStep(db, c, now).0.windows == db.windows
  {
    hide StartTx, RenewTx, ValidCommand;
    StartTxBlind(db, ws, c, now);
    RenewTxBlind(db, ws, c, now);
  }

  /** The last two statements of a cancellation. */
  lemma CancelledBlind(db: Db, ws: Windows, id: Id, g: ScanGroup, now: int)
    ensures var mid := db.(groups := db.groups[id := g]);
            var mid' := db.(windows := ws).(groups := db.groups[id := g]);
            && (ReleaseTx(mid', id, now, CancelledRelease).Some? <==> ReleaseTx(mid, id, now, CancelledRelease).Some?)
            && (ReleaseTx(mid, id, now, CancelledRelease).Some? ==>
                  && ReleaseTx(mid', id, now, CancelledRelease).value
                     == ReleaseTx(mid, id, now, CancelledRelease).value.(windows := ws)
                  && ReleaseTx(mid, id, now, CancelledRelease).value.windows == db.windows)
  {
    hide ReleaseTx;
    var mid := db.(groups := db.groups[id := g]);
    assert db.(windows := ws).(groups := db.groups[id := g]) == mid.(windows := ws);
    ReleaseBlind(mid, ws, id, now, CancelledRelease);
  }

  lemma CancelTxBlind(db: Db, ws: Windows, id: Id, now: int)
    ensures BlindTx(CancelTx(db, id, now), CancelTx(db.(windows := ws), id, now), db.windows, ws)
  {
    hide CancelAttempt, ReadableScan, UpdateScan, ReleaseTx;
    ReleaseBlind(db, ws, id, now, CancelledRelease);
    if id in db.groups {
      var g1 := CancelAttempt(db.groups[id], now);
      if g1.Done? {
        var g2 := UpdateScan(g1.value, g1.value.scan.(job := JobCancelled, updated := now));
        if g2.Done? {
          CancelledBlind(db, ws, id, g2.value, now);
        }
      }
    }
  }

  lemma CancelBlind(db: Db, ws: Windows, id: Id, now: int)
    ensures Blind(CancelStep(db, id, now), CancelStep(db.(windows := ws), id, now), ws)
    ensures CancelStep(db, id, now).0.windows == db.windows
  {
    hide CancelTx, ValidId;
    CancelTxBlind(db, ws, id, now);
  }

  lemma StoreBlind(db: Db, ws: Windows, id: Id, submitted: Identity, p: Projection, now: int)
    requires id in db.groups
    ensures BlindTx(StoreResult(db, id, submitted, p, now), StoreResult(db.(windows := ws), id, submitted, p, now),
                    db.windows, ws)
  {
    hide FinishAttempt, UpdateScan, ReleaseTx, ResultInsertAllowed;
    forall g: ScanGroup {:trigger ReleaseTx(db.(groups := db.groups[id := g]), id, now, TerminalResult)}
      ensures ReleaseTx(db.(windows := ws).(groups := db.groups[id := g]), id, now, TerminalResult).Some?
              <==> ReleaseTx(db.(groups := db.groups[id := g]), id, now, TerminalResult).Some?
      ensures ReleaseTx(db.(groups := db.groups[id := g]), id, now, TerminalResult).Some? ==>
                && ReleaseTx(db.(windows := ws).(groups := db.groups[id := g]), id, now, TerminalResult).value
                   == ReleaseTx(db.(groups := db.groups[id := g]), id, now, TerminalResult).value.(windows := ws)
                && ReleaseTx(db.(groups := db.groups[id := g]), id, now, TerminalResult).value.windows == db.windows
    {
      var mid := db.(groups := db.groups[id := g]);
      assert db.(windows := ws).(groups := db.groups[id := g]) == mid.(windows := ws);
      ReleaseBlind(mid, ws, id, now, TerminalResult);
    }
  }

  lemma CommitBlind(db: Db, ws: Windows, id: Id, submitted: Identity, p: Projection, now: int)
    ensures Blind(CommitStep(db, id, submitted, p, now), CommitStep(db.(windows := ws), id, submitted, p, now), ws)
    ensures CommitStep(db, id, submitted, p, now).0.windows == db.windows
  {
    hide StoreResult, DecideCommit;
    assert LockedState(db.(windows := ws), id, now) == LockedState(db, id, now) by {
      hide ValidDigest;
    }
    hide LockedState;
    if id in db.groups {
      StoreBlind(db, ws, id, submitted, p, now);
    }
    LockedIn(db, id, now);
  }

  lemma LockedIn(db: Db, id: Id, now: int)
    ensures LockedState(db, id, now).Some? ==> id in db.groups
  {
    hide ValidDigest;
  }

  // ---- retention ----------------------------------------------------------

  lemma {:induction false} SelectBlind(db: Db, ws: Windows, visit: seq<Id>, now: int, limit: nat)
    ensures SelectDue(db.(windows := ws), visit, now, limit) == SelectDue(db, visit, now, limit)
  {
    if visit != [] {
      SelectBlind(db, ws, visit[..|visit| - 1], now, limit);
    }
  }

  lemma {:induction false} DeleteBlind(db: Db, ws: Windows, due: seq<Id>)
    requires forall i | 0 <= i < |due| :: due[i] in db.groups
    requires forall i, j | 0 <= i < j < |due| :: due[i] != due[j]
    ensures DeleteDue(db.(windows := ws), due).0 == DeleteDue(db, due).0.(windows := ws)
    ensures DeleteDue(db, due).0.windows == db.windows
  {
    hide ReleaseDue;
    if due != [] {
      DeleteBlind(db, ws, due[..|due| - 1]);
    }
  }

  lemma StaleIsOver(db: Db, other: Db, visit: seq<WindowKey>, visit': seq<WindowKey>, t: int, now: int, limit: nat)
    requires Alike(db, other, t) && t <= now
    ensures Alike(DeleteWindows(db, SelectStale(db, visit, now, limit)),
                  DeleteWindows(other, SelectStale(other, visit', now, limit)), now)
  {
    var a := DeleteWindows(db, SelectStale(db, visit, now, limit));
    var b := DeleteWindows(other, SelectStale(other, visit', now, limit));
    forall k
      ensures LiveRowAgrees(a.windows, b.windows, k, now)
    {
      assert LiveRowAgrees(db.windows, other.windows, k, t);
    }
  }

  lemma RetainAlike(db: Db, other: Db, t: int, now: int, batch: int, vs: seq<Id>, vw: seq<WindowKey>,
                    vw': seq<WindowKey>)
    requires Alike(db, other, t) && t <= now
    ensures Alike(RetainStep(db, now, batch, vs, vw).0, RetainStep(other, now, batch, vs, vw').0, now)
  {
    hide Alike, SelectDue, SelectStale, DeleteDue, DeleteWindows, MoreWork;
    AlikeLater(db, other, t, now);
    if 1 <= batch <= MAX_BATCH_SIZE {
      OthersWindows(db, other, t);
      var due := SelectDue(db, vs, now, batch);
      SelectBlind(db, other.windows, vs, now, batch);
      DeleteBlind(db, other.windows, due);
      AlikeFrom(db, other, DeleteDue(db, due).0, DeleteDue(other, due).0, t);
      StaleIsOver(DeleteDue(db, due).0, DeleteDue(other, due).0, vw, vw', t, now, batch);
    }
  }

  lemma OthersWindows(db: Db, other: Db, t: int)
    requires Alike(db, other, t)
    ensures other == db.(windows := other.windows)
  {
  }

  lemma AlikeFrom(db: Db, other: Db, db': Db, other': Db, t: int)
    requires Alike(db, other, t)
    requires db'.windows == db.windows && other' == db'.(windows := other.windows)
    ensures Alike(db', other', t)
  {
  }

  // ---- create -------------------------------------------------------------

  lemma RefreshAgrees(a: Windows, b: Windows, keys: seq<WindowKey>, k: WindowKey, now: int)
    requires LiveRowAgrees(a, b, k, now)
    ensures RefreshedWindow(a, k, now) == RefreshedWindow(b, k, now)
    ensures LiveRowAgrees(RefreshWindows(a, keys, now), RefreshWindows(b, keys, now), k, now)
  {
    if k in keys {
      RefreshedIsLive(a, keys, k, now);
      RefreshedIsLive(b, keys, k, now);
    } else {
      RefreshedElsewhere(a, keys, k, now);
      RefreshedElsewhere(b, keys, k, now);
    }
  }

  lemma {:induction false} UsageAgrees(a: Windows, b: Windows, d: WindowDimension, digests: seq<Digest>, now: int)
    requires SameLive(a, b, now)
    ensures WindowUsage(a, d, digests, now) == WindowUsage(b, d, digests, now)
  {
    if digests != [] {
      UsageAgrees(a, b, d, digests[..|digests| - 1], now);
      assert LiveRowAgrees(a, b, WindowKey(d, digests[|digests| - 1]), now);
    }
  }

  lemma AheadAgrees(a: Windows, b: Windows, session: Digest, networks: seq<Digest>, now: int)
    requires SameLive(a, b, now)
    ensures WindowsAhead(a, session, networks, now) <==> WindowsAhead(b, session, networks, now)
  {
    forall k
      ensures AheadRow(a, k, now) <==> AheadRow(b, k, now)
    {
      assert LiveRowAgrees(a, b, k, now);
    }
  }

  lemma LoadAgrees(a: Windows, b: Windows, active: Active, session: Digest, networks: seq<Digest>, now: int)
    requires WindowsOk(a) && WindowsOk(b) && SameLive(a, b, now) && networks != []
    ensures LoadUsage(RefreshWindows(a, WindowSpecs(session, networks[0]), now), active, session, networks, now)
         == LoadUsage(RefreshWindows(b, WindowSpecs(session, networks[0]), now), active, session, networks, now)
  {
    hide WindowsOk, RefreshWindows, SaneRows, WindowUsage, NetworkUsage, LiveRowAgrees;
    var keys := WindowSpecs(session, networks[0]);
    var a', b' := RefreshWindows(a, keys, now), RefreshWindows(b, keys, now);
    forall k
      ensures LiveRowAgrees(a', b', k, now)
    {
      assert LiveRowAgrees(a, b, k, now);
      RefreshAgrees(a, b, keys, k, now);
    }
    AheadAgrees(a, b, session, networks, now);
    SaneRowsExactly(a, session, networks, now);
    SaneRowsExactly(b, session, networks, now);
    UsageAgrees(a', b', SessionBurst, [session], now);
    UsageAgrees(a', b', SessionDaily, [session], now);
    UsageAgrees(a', b', NetworkBurst, networks, now);
    UsageAgrees(a', b', NetworkDaily, networks, now);
  }

  lemma AdmittedAgrees(a: Windows, b: Windows, session: Digest, network: Digest, now: int)
    requires SameLive(a, b, now)
    ensures SameLive(AdmittedWindows(a, session, network, now), AdmittedWindows(b, session, network, now), now)
  {
    hide AdmittedWindows, RefreshedWindow;
    forall k
      ensures LiveRowAgrees(AdmittedWindows(a, session, network, now), AdmittedWindows(b, session, network, now), k, now)
    {
      assert LiveRowAgrees(a, b, k, now);
      RefreshAgrees(a, b, [], k, now);
      WindowsAfterAdmission(a, session, network, now, k);
      WindowsAfterAdmission(b, session, network, now, k);
    }
  }

  lemma ReserveAgrees(db: Db, other: Db, id: Id, session: Digest, networks: seq<Digest>, now: int)
    requires Alike(db, other, now) && WindowsOk(db.windows) && WindowsOk(other.windows) && id in db.groups
    ensures var one, two := ReserveTx(db, id, session, networks, now), ReserveTx(other, id, session, networks, now);
            if one.Done? && one.value.Reserved? then
              two.Done? && two.value.Reserved? && Alike(one.value.db, two.value.db, now)
            else two == one
  {
    hide LoadUsage, RefreshWindows, ZeroActive, DecideAdmission, AdmittedWindows, AdmittedActive, WindowsOk, SameLive;
    if networks != [] {
      LoadAgrees(db.windows, other.windows, ZeroActive(db.active, ActiveSpecs(session, networks[0])), session, networks, now);
      AdmittedAgrees(db.windows, other.windows, session, networks[0], now);
    }
  }

  lemma ClearBlind(db: Db, ws: Windows, existing: Option<(Id, Scan)>, now: int)
    ensures ReleaseReplaced(db, existing, now).Throw? ==>
              ReleaseReplaced(db.(windows := ws), existing, now) == ReleaseReplaced(db, existing, now)
    ensures ReleaseReplaced(db, existing, now).Done? ==>
              && ReleaseReplaced(db.(windows := ws), existing, now)
                 == Done(ReleaseReplaced(db, existing, now).value.(windows := ws))
              && ReleaseReplaced(db, existing, now).value.windows == db.windows
  {
    hide ReleaseTx;
    if existing.Some? {
      ReleaseBlind(db, ws, existing.value.0, now, ExpiredReplacement);
    }
  }

  lemma InsertBlind(db: Db, ws: Windows, r: CreateRequest, c: CreateInputs)
    ensures InsertScan(db, r, c).Throw? ==> InsertScan(db.(windows := ws), r, c) == InsertScan(db, r, c)
    ensures InsertScan(db, r, c).Done? ==>
              && InsertScan(db.(windows := ws), r, c) == Done(InsertScan(db, r, c).value.(windows := ws))
              && InsertScan(db, r, c).value.windows == db.windows
              && c.freshScan in InsertScan(db, r, c).value.groups
  {
    hide ScanCheck;
  }

  lemma CreateAlike(db: Db, other: Db, r: CreateRequest, c: CreateInputs)
    requires Alike(db, other, r.now) && WindowsOk(db.windows) && WindowsOk(other.windows)
    ensures CreateStep(other, r, c).1 == CreateStep(db, r, c).1
    ensures Alike(CreateStep(db, r, c).0, CreateStep(other, r, c).0, r.now)
  {
    hide ReleaseReplaced, InsertScan, ReserveTx, DecideIdempotency, ValidId, SameLive, WindowsOk;
    assert Existing(other, r.session, r.key) == Existing(db, r.session, r.key);
    hide Existing;
    var existing := Existing(db, r.session, r.key);
    ClearBlind(db, other.windows, existing, r.now);
    var cleared := ReleaseReplaced(db, existing, r.now);
    if cleared.Done? {
      InsertBlind(cleared.value, other.windows, r, c);
      var inserted := InsertScan(cleared.value, r, c);
      if inserted.Done? {
        AlikeFrom(db, other, inserted.value, inserted.value.(windows := other.windows), r.now);
        ReserveAgrees(inserted.value, inserted.value.(windows := other.windows), c.freshScan, r.session, r.networks, r.now);
      }
    }
  }

  // ---- every step and every run -------------------------------------------

  lemma BlindAlike<R>(db: Db, other: Db, out: (Db, R), out': (Db, R), t: int, now: int)
    requires Alike(db, other, t) && t <= now
    requires Blind(out, out', other.windows) && out.0.windows == db.windows
    ensures Alike(out.0, out'.0, now) && out'.1 == out.1
  {
    AlikeLater(db, other, t, now);
  }

  lemma StepAlike(db: Db, other: Db, e: Event, t: int)
    requires Inv(db) && Inv(other) && Alike(db, other, t) && t <= TimeOf(e)
    ensures Alike(Step(db, e).0, Step(other, e).0, TimeOf(e))
    ensures e.RetainEvent? || Step(other, e).1 == Step(db, e).1
  {
    hide Alike, CreateStep, AcquireStep, StartStep, RenewStep, CommitStep, CancelStep, RetainStep, Blind,
         GroupOk, Balanced, WithinLimits, WindowsOk, IndexOk, AttemptsApart;
    OthersWindows(db, other, t);
    AlikeLater(db, other, t, TimeOf(e));
    var ws := other.windows;
    match e
    case CreateEvent(r, c) => CreateAlike(db, other, r, c);
    case AcquireEvent(id, now, a) =>
      AcquireBlind(db, ws, id, now, a);
      BlindAlike(db, other, AcquireStep(db, id, now, a), AcquireStep(other, id, now, a), t, now);
    case StartEvent(c, now) =>
      HeartbeatBlind(db, ws, c, now);
      BlindAlike(db, other, StartStep(db, c, now), StartStep(other, c, now), t, now);
    case RenewEvent(c, now) =>
      HeartbeatBlind(db, ws, c, now);
      BlindAlike(db, other, RenewStep(db, c, now), RenewStep(other, c, now), t, now);
    case CommitEvent(id, i, p, now) =>
      CommitBlind(db, ws, id, i, p, now);
      BlindAlike(db, other, CommitStep(db, id, i, p, now), CommitStep(other, id, i, p, now), t, now);
    case CancelEvent(id, now) =>
      CancelBlind(db, ws, id, now);
      BlindAlike(db, other, CancelStep(db, id, now), CancelStep(other, id, now), t, now);
    case RetainEvent(now, n, vs, vw) => RetainAlike(db, other, t, now, n, vs, vw, vw);
    case ServiceEvent(paused, now) => AlikeFrom(db, other, db.(paused := paused), other.(paused := paused), now);
  }

  lemma {:induction false} RunAlike(db: Db, other: Db, es: seq<Event>, t: int)
    requires Inv(db) && Inv(other) && Alike(db, other, t)
    requires Monotone(es) && (es != [] ==> t <= TimeOf(es[0]))
    ensures Alike(Run(db, es), Run(other, es), if es == [] then t else TimeOf(es[|es| - 1]))
  {
    hide Inv, Step, Alike;
    if es != [] {
      var init := es[..|es| - 1];
      RunAlike(db, other, init, t);
      RunKeepsInv(db, init);
      RunKeepsInv(other, init);
      StepAlike(Run(db, init), Run(other, init), es[|es| - 1], if init == [] then t else TimeOf(init[|init| - 1]));
    }
  }

  /** Deleting any selection of windows that are over at `t` changes no answer of
      any transaction from `t` on, after any further run. */
  lemma PruningIsInvisible(db: Db, t: int, stale: seq<WindowKey>, es: seq<Event>, e: Event)
    requires Inv(db) && forall i | 0 <= i < |stale| :: StaleWindow(db, stale[i], t)
    requires Monotone(es + [e]) && t <= TimeOf((es + [e])[0])
    requires !e.RetainEvent?
    ensures Step(Run(DeleteWindows(db, stale), es), e).1 == Step(Run(db, es), e).1
  {
    var pruned := DeleteWindows(db, stale);
    DeleteWindowsKeepsInv(db, stale);
    forall k
      ensures LiveRowAgrees(db.windows, pruned.windows, k, t)
    {
    }
    assert Alike(db, pruned, t);
    hide Inv, Step, Run, Alike, DeleteWindows;
    assert forall i | 0 <= i < |es| :: (es + [e])[i] == es[i];
    assert (es + [e])[|es|] == e;
    RunAlike(db, pruned, es, t);
    RunKeepsInv(db, es);
    RunKeepsInv(pruned, es);
    StepAlike(Run(db, es), Run(pruned, es), e, if es == [] then t else TimeOf(es[|es| - 1]));
  }
}
