/** Admission rates over runs under one monotone clock. */
module RunRates {
  import opened Basics
  import opened ScanProtocol
  import opened Tables
  import opened Quota
  import opened Transactions
  import opened Invariant
  import opened LedgerProofs
  import opened StepProofs
  import opened CommitProofs
  import opened CreateProofs
  import opened RetentionProofs
  import opened Runs
  import opened RunFaults
  import opened RateWindows

  /** The event creates a scan that is counted in the window row `k`. */
  ghost predicate Admits(db: Db, e: Event, k: WindowKey) {
    && e.CreateEvent?
    && CreateStep(db, e.request, e.inputs).1.ScanCreated?
    && e.request.networks != []
    && k in WindowSpecs(e.request.session, e.request.networks[0])
  }

  /** When the run admitted scans that count in `k`. */
  ghost function AdmissionTimes(es: seq<Event>, k: WindowKey): seq<int> {
    if es == [] then []
    else
      var init := es[..|es| - 1];
      AdmissionTimes(init, k) + (if Admits(Run(EMPTY, init), es[|es| - 1], k) then [TimeOf(es[|es| - 1])] else [])
  }

  lemma {:induction false} TimesInOrder(es: seq<Event>, k: WindowKey)
    requires Monotone(es)
    ensures Sorted(AdmissionTimes(es, k))
    ensures forall i | 0 <= i < |AdmissionTimes(es, k)| ::
              es != [] && AdmissionTimes(es, k)[i] <= TimeOf(es[|es| - 1])
  {
    hide Admits, Run;
    if es != [] {
      var init := es[..|es| - 1];
      TimesInOrder(init, k);
    }
  }

  /** What a step does to one window row. */
  ghost predicate RowStep(ws: Windows, ws': Windows, k: WindowKey, now: int, admitted: bool) {
    if admitted then
      && RefreshedWindow(ws, k, now).count < WindowLimit(k.dimension)
      && k in ws' && ws'[k] == Window(RefreshedWindow(ws, k, now).count + 1, RefreshedWindow(ws, k, now).reset)
    else
      && (k in ws' ==> k in ws && ws'[k] == ws[k])
      && (k in ws && k !in ws' ==> ws[k].reset <= now)
  }

  lemma CreateRowStep(db: Db, r: CreateRequest, c: CreateInputs, k: WindowKey)
    requires Inv(db)
    ensures RowStep(db.windows, CreateStep(db, r, c).0.windows, k, r.now, Admits(db, CreateEvent(r, c), k))
  {
    hide Inv, CreateTx, NeedsNewScan, FreshIdTaken, ReplacesTooLate, Predecessor, AdmittedWindows, RefreshedWindow;
    if ValidCreateRequest(r) {
      CreateEffect(db, r, c);
      WindowsAfterAdmission(db.windows, r.session, r.networks[0], r.now, k);
    }
  }

  lemma WindowRowStep(db: Db, e: Event, k: WindowKey)
    requires Inv(db)
    ensures RowStep(db.windows, Step(db, e).0.windows, k, TimeOf(e), Admits(db, e, k))
  {
    hide Inv, CreateStep, AcquireTx, StartTx, RenewTx, CommitTx, CancelTx, RetainTx, AcquireWrites, TerminationClockOk,
         Acceptable, CommandIsCurrent, RefreshedWindow, RowsFinished;
    match e
    case CreateEvent(r, c) => CreateRowStep(db, r, c, k);
    case AcquireEvent(id, now, a) =>
      if ReadableClock(now) {
        AcquireEffect(db, id, now, a);
      }
    case StartEvent(c, now) => StartEffect(db, c, now);
    case RenewEvent(c, now) => RenewEffect(db, c, now);
    case CommitEvent(id, i, p, now) => CommitEffect(db, id, i, p, now);
    case CancelEvent(id, now) => CancelEffect(db, id, now);
    case RetainEvent(now, n, vs, vw) =>
      if 1 <= n <= MAX_BATCH_SIZE {
        RetainEffect(db, now, n, vs, vw);
      }
    case ServiceEvent(_, _) =>
  }

  /** The stored row is the last counting window, or that window is over. */
  ghost predicate Tracks(ws: Windows, k: WindowKey, ts: seq<int>, now: int) {
    var s := LastSegment(ts, WindowSeconds(k.dimension));
    && (k in ws ==> s.count > 0 && ws[k] == Window(s.count, s.start + WindowSeconds(k.dimension)))
    && (k !in ws && s.count > 0 ==> s.start + WindowSeconds(k.dimension) <= now)
  }

  lemma TracksStep(ws: Windows, ws': Windows, k: WindowKey, ts: seq<int>, before: int, now: int, admitted: bool)
    requires Tracks(ws, k, ts, before) && before <= now
    requires RowStep(ws, ws', k, now, admitted)
    requires Limited(ts, WindowSeconds(k.dimension), WindowLimit(k.dimension))
    ensures var ts' := ts + (if admitted then [now] else []);
            Tracks(ws', k, ts', now) && Limited(ts', WindowSeconds(k.dimension), WindowLimit(k.dimension))
  {
    hide Limited;
    if admitted {
      assert (ts + [now])[..|ts|] == ts;
      LimitedExtends(ts, now, WindowSeconds(k.dimension), WindowLimit(k.dimension));
    } else {
      assert ts + [] == ts;
    }
  }

  lemma {:induction false} RunTracks(es: seq<Event>, k: WindowKey, now: int)
    requires Monotone(es) && (es != [] ==> TimeOf(es[|es| - 1]) <= now)
    ensures Tracks(Run(EMPTY, es).windows, k, AdmissionTimes(es, k), now)
    ensures Limited(AdmissionTimes(es, k), WindowSeconds(k.dimension), WindowLimit(k.dimension))
  {
    hide Inv, Step, Admits, RowStep, Limited;
    if es == [] {
      EmptyLimited(k);
    } else {
      var init := es[..|es| - 1];
      var last := es[|es| - 1];
      var before := if init == [] then TimeOf(last) else TimeOf(init[|init| - 1]);
      RunTracks(init, k, before);
      EmptyInv();
      RunKeepsInv(EMPTY, init);
      WindowRowStep(Run(EMPTY, init), last, k);
      TracksStep(Run(EMPTY, init).windows, Run(EMPTY, es).windows, k, AdmissionTimes(init, k), before, TimeOf(last),
                 Admits(Run(EMPTY, init), last, k));
    }
  }

  lemma EmptyLimited(k: WindowKey)
    ensures Limited([], WindowSeconds(k.dimension), WindowLimit(k.dimension))
  {
  }

  /** In any half-open interval of one window length fewer than twice the limit
      is admitted: at most 5 scans per session in ten minutes and 19 in a day,
      39 and 199 per network digest. */
  lemma RateBound(es: seq<Event>, k: WindowKey, from: int)
    requires Monotone(es)
    ensures var n := Within(AdmissionTimes(es, k), from, from + WindowSeconds(k.dimension));
            && n <= 2 * WindowLimit(k.dimension) - 1
            && (k.dimension == SessionBurst ==> n <= 5) && (k.dimension == SessionDaily ==> n <= 19)
            && (k.dimension == NetworkBurst ==> n <= 39) && (k.dimension == NetworkDaily ==> n <= 199)
  {
    hide Run, Limited, Sorted, Within;
    TimesInOrder(es, k);
    RunTracks(es, k, if es == [] then 0 else TimeOf(es[|es| - 1]));
    FewerThanTwice(AdmissionTimes(es, k), WindowSeconds(k.dimension), WindowLimit(k.dimension), from);
  }

  // ---- waiting as long as advertised --------------------------------------

  /** What the admission decision is given, or the fault of loading it. */
  function AdmissionAt(db: Db, session: Digest, networks: seq<Digest>, now: int): Tx<Admission>
    requires networks != []
  {
    var ws := RefreshWindows(db.windows, WindowSpecs(session, networks[0]), now);
    var active := ZeroActive(db.active, ActiveSpecs(session, networks[0]));
    var usage :- LoadUsage(ws, active, session, networks, now);
    Done(DecideAdmission(db.paused, usage, now))
  }

  /** The digests whose windows one dimension is summed over. */
  function DigestsOf(d: WindowDimension, session: Digest, networks: seq<Digest>): seq<Digest> {
    if d in {NetworkBurst, NetworkDaily} then networks else [session]
  }

  lemma {:induction false} UsageReset(ws: Windows, d: WindowDimension, digests: seq<Digest>, now: int, i: nat)
    requires i < |digests| && LiveWindow(ws, WindowKey(d, digests[i]), now)
    ensures WindowUsage(ws, d, digests, now).Some?
    ensures ws[WindowKey(d, digests[i])].reset <= WindowUsage(ws, d, digests, now).value.reset
  {
    if i < |digests| - 1 {
      UsageReset(ws, d, digests[..|digests| - 1], now, i);
    }
  }

  /** With every listed row over, only the row of the active digest is live, and
      it is empty. */
  lemma {:induction false} NothingLive(ws: Windows, d: WindowDimension, digests: seq<Digest>, session: Digest,
                                       network: Digest, now: int)
    requires forall i | 0 <= i < |digests| :: !LiveWindow(ws, WindowKey(d, digests[i]), now)
    ensures var u := WindowUsage(RefreshWindows(ws, WindowSpecs(session, network), now), d, digests, now);
            u.Some? ==> u.value.count == 0
  {
    if digests != [] {
      NothingLive(ws, d, digests[..|digests| - 1], session, network, now);
      var k := WindowKey(d, digests[|digests| - 1]);
      if k in WindowSpecs(session, network) {
        RefreshedIsLive(ws, WindowSpecs(session, network), k, now);
      } else {
        RefreshedElsewhere(ws, WindowSpecs(session, network), k, now);
      }
    }
  }

  function UsageOf(u: UsageSnapshot, d: WindowDimension): Usage {
    match d
    case SessionBurst => u.sessionBurst
    case SessionDaily => u.sessionDaily
    case NetworkBurst => u.networkBurst
    case NetworkDaily => u.networkDaily
  }

  /** The usage that an admission was decided on. */
  lemma DecidedOn(db: Db, session: Digest, networks: seq<Digest>, now: int,
                  d: WindowDimension) returns (u: UsageSnapshot)
    requires networks != [] && AdmissionAt(db, session, networks, now).Done?
    ensures AdmissionAt(db, session, networks, now).value == DecideAdmission(db.paused, u, now)
    ensures Some(UsageOf(u, d)) == WindowUsage(RefreshWindows(db.windows, WindowSpecs(session, networks[0]), now), d,
                                               DigestsOf(d, session, networks), now)
  {
    hide LoadUsage, RefreshWindows, ZeroActive, WindowUsage, SaneRows, SaneActive, DecideAdmission;
    var ws := RefreshWindows(db.windows, WindowSpecs(session, networks[0]), now);
    var active := ZeroActive(db.active, ActiveSpecs(session, networks[0]));
    LoadedUsage(ws, active, session, networks, now);
    u := LoadUsage(ws, active, session, networks, now).value;
  }

  lemma RefusedBy(paused: bool, u: UsageSnapshot, now: int, d: WindowDimension, wait: int)
    requires DecideAdmission(paused, u, now) == Refuse(WindowExhausted(d, wait))
    ensures UsageOf(u, d).count >= WindowLimit(d) && wait == UsageOf(u, d).reset - now > 0
  {
  }

  lemma ExhaustedNeverAdmits(paused: bool, u: UsageSnapshot, now: int, d: WindowDimension)
    requires UsageOf(u, d).count >= WindowLimit(d)
    ensures DecideAdmission(paused, u, now) != Admit
  {
  }

  /** The wait an exhausted dimension reports runs to the latest reset. */
  lemma ReportedWait(db: Db, session: Digest, networks: seq<Digest>, now: int, d: WindowDimension, retryAfter: int)
    requires networks != []
    requires AdmissionAt(db, session, networks, now) == Done(Refuse(WindowExhausted(d, retryAfter)))
    ensures var u := WindowUsage(RefreshWindows(db.windows, WindowSpecs(session, networks[0]), now), d,
                                 DigestsOf(d, session, networks), now);
            u.Some? && u.value.reset == now + retryAfter && retryAfter > 0
  {
    hide AdmissionAt, DecideAdmission, RefreshWindows, WindowUsage;
    var u := DecidedOn(db, session, networks, now, d);
    RefusedBy(db.paused, u, now, d, retryAfter);
  }

  lemma ExhaustedReset(db: Db, session: Digest, networks: seq<Digest>, now: int, d: WindowDimension,
                       retryAfter: int, i: nat)
    requires networks != []
    requires AdmissionAt(db, session, networks, now) == Done(Refuse(WindowExhausted(d, retryAfter)))
    requires i < |DigestsOf(d, session, networks)|
    ensures LiveWindow(db.windows, WindowKey(d, DigestsOf(d, session, networks)[i]), now) ==>
              db.windows[WindowKey(d, DigestsOf(d, session, networks)[i])].reset <= now + retryAfter
    ensures retryAfter > 0
  {
    hide AdmissionAt, RefreshWindows;
    ReportedWait(db, session, networks, now, d, retryAfter);
    var keys := WindowSpecs(session, networks[0]);
    var k := WindowKey(d, DigestsOf(d, session, networks)[i]);
    if LiveWindow(db.windows, k, now) {
      if k in keys {
        RefreshedIsLive(db.windows, keys, k, now);
      } else {
        RefreshedElsewhere(db.windows, keys, k, now);
      }
      UsageReset(RefreshWindows(db.windows, keys, now), d, DigestsOf(d, session, networks), now, i);
    }
  }

  /** Nothing that the run does is an admission counted in the row. */
  ghost predicate NoneAdmitted(db: Db, es: seq<Event>, k: WindowKey) {
    forall i | 0 <= i < |es| :: !Admits(Run(db, es[..i]), es[i], k)
  }

  /** Such a run, whatever its clocks, leaves the row as it was or deletes it. */
  lemma {:induction false} RowKept(db: Db, es: seq<Event>, k: WindowKey)
    requires Inv(db) && NoneAdmitted(db, es, k)
    ensures var ws := Run(db, es).windows; k in ws ==> k in db.windows && ws[k] == db.windows[k]
  {
    hide Inv, Step, Admits;
    if es != [] {
      var init := es[..|es| - 1];
      assert forall i | 0 <= i < |init| :: init[..i] == es[..i];
      RowKept(db, init, k);
      RunKeepsInv(db, init);
      WindowRowStep(Run(db, init), es[|es| - 1], k);
    }
  }

  /** No admission counts towards the dimension as the request sees it. */
  ghost predicate NoneAdmittedOn(db: Db, es: seq<Event>, d: WindowDimension, session: Digest, networks: seq<Digest>) {
    forall i | 0 <= i < |DigestsOf(d, session, networks)| ::
      NoneAdmitted(db, es, WindowKey(d, DigestsOf(d, session, networks)[i]))
  }

  /** After the advertised wait, and any run that admits nothing which counts in
      the dimension that refused, that dimension refuses no more. The run may admit
      other sessions and networks, and retention may prune windows. */
  lemma RetryAfterClears(db: Db, es: seq<Event>, session: Digest, networks: seq<Digest>, now: int, d: WindowDimension,
                         retryAfter: int, later: int)
    requires Inv(db) && networks != []
    requires AdmissionAt(db, session, networks, now) == Done(Refuse(WindowExhausted(d, retryAfter)))
    requires NoneAdmittedOn(db, es, d, session, networks) && later >= now + retryAfter
    ensures forall wait :: AdmissionAt(Run(db, es), session, networks, later) != Done(Refuse(WindowExhausted(d, wait)))
  {
    hide AdmissionAt, Inv, NoneAdmitted, Run;
    forall i | 0 <= i < |DigestsOf(d, session, networks)|
      ensures var k := WindowKey(d, DigestsOf(d, session, networks)[i]);
              k in Run(db, es).windows ==> k in db.windows && Run(db, es).windows[k] == db.windows[k]
    {
      RowKept(db, es, WindowKey(d, DigestsOf(d, session, networks)[i]));
    }
    RowsOver(db, Run(db, es), session, networks, now, d, retryAfter, later);
  }

  /** Of the rows that refused none is live after the wait, so none refuses. */
  lemma RowsOver(db: Db, db': Db, session: Digest, networks: seq<Digest>, now: int, d: WindowDimension,
                 retryAfter: int, later: int)
    requires networks != []
    requires AdmissionAt(db, session, networks, now) == Done(Refuse(WindowExhausted(d, retryAfter)))
    requires later >= now + retryAfter
    requires forall i | 0 <= i < |DigestsOf(d, session, networks)| ::
               var k := WindowKey(d, DigestsOf(d, session, networks)[i]);
               k in db'.windows ==> k in db.windows && db'.windows[k] == db.windows[k]
    ensures forall wait :: AdmissionAt(db', session, networks, later) != Done(Refuse(WindowExhausted(d, wait)))
  {
    hide AdmissionAt;
    var digests := DigestsOf(d, session, networks);
    forall i | 0 <= i < |digests|
      ensures !LiveWindow(db'.windows, WindowKey(d, digests[i]), later)
    {
      ExhaustedReset(db, session, networks, now, d, retryAfter, i);
    }
    NothingLive(db'.windows, d, digests, session, networks[0], later);
    ClearedDimension(db', session, networks, later, d);
  }

  lemma ClearedDimension(db: Db, session: Digest, networks: seq<Digest>, now: int, d: WindowDimension)
    requires networks != []
    requires var u := WindowUsage(RefreshWindows(db.windows, WindowSpecs(session, networks[0]), now), d,
                                  DigestsOf(d, session, networks), now);
             u.Some? ==> u.value.count == 0
    ensures forall wait :: AdmissionAt(db, session, networks, now) != Done(Refuse(WindowExhausted(d, wait)))
  {
    hide AdmissionAt, DecideAdmission, RefreshWindows, WindowUsage;
    forall wait
      ensures AdmissionAt(db, session, networks, now) != Done(Refuse(WindowExhausted(d, wait)))
    {
      if AdmissionAt(db, session, networks, now) == Done(Refuse(WindowExhausted(d, wait))) {
        var u := DecidedOn(db, session, networks, now, d);
        RefusedBy(db.paused, u, now, d, wait);
      }
    }
  }

  /** The session row behind a decision: exhausted when refused, and when it is
      exhausted nothing is admitted. */
  lemma SessionDecision(db: Db, session: Digest, networks: seq<Digest>, now: int, d: WindowDimension)
    requires networks != [] && d in {SessionBurst, SessionDaily}
    ensures var row := RefreshedWindow(db.windows, WindowKey(d, session), now);
            var decided := AdmissionAt(db, session, networks, now);
            && (row.count >= WindowLimit(d) ==> decided != Done(Admit))
            && forall wait :: decided == Done(Refuse(WindowExhausted(d, wait))) ==>
                 row.count >= WindowLimit(d) && wait == row.reset - now
  {
    hide AdmissionAt, DecideAdmission, RefreshWindows, WindowUsage, RefreshedWindow;
    SessionUsage(db.windows, d, session, networks[0], now);
    if AdmissionAt(db, session, networks, now).Done? {
      var u := DecidedOn(db, session, networks, now, d);
      if UsageOf(u, d).count >= WindowLimit(d) {
        ExhaustedNeverAdmits(db.paused, u, now, d);
      }
      forall wait | AdmissionAt(db, session, networks, now) == Done(Refuse(WindowExhausted(d, wait)))
        ensures UsageOf(u, d).count >= WindowLimit(d) && wait == UsageOf(u, d).reset - now
      {
        RefusedBy(db.paused, u, now, d, wait);
      }
    }
  }

  /** Not a second sooner: a session that is over its limit is still refused at
      every earlier time. */
  lemma RetryAfterIsExact(db: Db, session: Digest, networks: seq<Digest>, now: int, d: WindowDimension,
                          retryAfter: int, later: int)
    requires networks != [] && d in {SessionBurst, SessionDaily}
    requires AdmissionAt(db, session, networks, now) == Done(Refuse(WindowExhausted(d, retryAfter)))
    requires now <= later < now + retryAfter
    ensures AdmissionAt(db, session, networks, later) != Done(Admit)
  {
    hide AdmissionAt;
    SessionDecision(db, session, networks, now, d);
    SessionDecision(db, session, networks, later, d);
  }

  /** A session dimension is read from its one, refreshed row. */
  lemma SessionUsage(ws: Windows, d: WindowDimension, session: Digest, network: Digest, now: int)
    requires d in {SessionBurst, SessionDaily}
    ensures var row := RefreshedWindow(ws, WindowKey(d, session), now);
            WindowUsage(RefreshWindows(ws, WindowSpecs(session, network), now), d, [session], now)
            == Some(Usage(row.count, row.reset))
  {
    var k := WindowKey(d, session);
    RefreshedIsLive(ws, WindowSpecs(session, network), k, now);
    var fresh' := RefreshWindows(ws, WindowSpecs(session, network), now);
    assert [session][..0] == [];
    assert WindowUsage(fresh', d, [session][..0], now) == None;
  }

  /** The state on which a refused create took its decision: the one it found,
      with the expired predecessor removed and the new scan inserted. */
  lemma RefusedOn(db: Db, r: CreateRequest, c: CreateInputs, denial: Denial) returns (mid: Db)
    requires CreateStep(db, r, c).1 == AbuseLimited(denial)
    ensures ValidCreateRequest(r) && mid.windows == db.windows
    ensures AdmissionAt(mid, r.session, r.networks, r.now) == Done(Refuse(denial))
  {
    hide LoadUsage, RefreshWindows, ZeroActive, DecideAdmission, ReleaseReplaced, ScanCheck, Existing, ValidId;
    var cleared := ReleaseReplaced(db, Existing(db, r.session, r.key), r.now);
    ClearedWindows(db, Existing(db, r.session, r.key), r.now);
    mid := InsertScan(cleared.value, r, c).value;
  }

  lemma ClearedWindows(db: Db, existing: Option<(Id, Scan)>, now: int)
    ensures ReleaseReplaced(db, existing, now).Done? ==>
              ReleaseReplaced(db, existing, now).value.windows == db.windows
  {
  }

  /** The answer is a refusal by this dimension. */
  predicate RefusedOver(answer: CreateResult, d: WindowDimension) {
    answer.AbuseLimited? && answer.denial.WindowExhausted? && answer.denial.dimension == d
  }

  /** A create refused by a window may be tried again after the advertised wait:
      through any run in which nothing was admitted that counts in the dimension,
      that dimension refuses no more. */
  lemma WaitingHelps(db: Db, r: CreateRequest, c: CreateInputs, d: WindowDimension, wait: int,
                     es: seq<Event>, again: CreateRequest, c': CreateInputs)
    requires Inv(db) && CreateStep(db, r, c).1 == AbuseLimited(WindowExhausted(d, wait))
    requires NoneAdmittedOn(db, es, d, r.session, r.networks)
    requires again.session == r.session && again.networks == r.networks && again.now >= r.now + wait
    ensures !RefusedOver(CreateStep(Run(db, es), again, c').1, d)
  {
    hide Inv, CreateStep, AdmissionAt, NoneAdmitted, Run;
    var mid := RefusedOn(db, r, c, WindowExhausted(d, wait));
    var answer := CreateStep(Run(db, es), again, c').1;
    if RefusedOver(answer, d) {
      var mid' := RefusedOn(Run(db, es), again, c', answer.denial);
      forall i | 0 <= i < |DigestsOf(d, r.session, r.networks)|
        ensures var k := WindowKey(d, DigestsOf(d, r.session, r.networks)[i]);
                k in mid'.windows ==> k in mid.windows && mid'.windows[k] == mid.windows[k]
      {
        RowKept(db, es, WindowKey(d, DigestsOf(d, r.session, r.networks)[i]));
      }
      RowsOver(mid, mid', r.session, r.networks, r.now, d, wait, again.now);
    }
  }
}
