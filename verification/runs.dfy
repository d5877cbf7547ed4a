/** Runs: any sequence of transactions by any number of clients and workers,
    each with its own clock reading. */
module Runs {
  import opened Basics
  import opened ScanProtocol
  import opened GuestOutput
  import opened Tables
  import opened Quota
  import opened Transactions
  import opened Invariant
  import opened StepProofs
  import opened CommitProofs
  import opened CreateProofs
  import opened RetentionProofs
  import opened Evolution

  datatype Event =
    | CreateEvent(request: CreateRequest, inputs: CreateInputs)
    | AcquireEvent(scan: Id, at: int, newAttempt: Id)
    | StartEvent(command: LeaseCommand, at: int)
    | RenewEvent(command: LeaseCommand, at: int)
    | CommitEvent(scan: Id, submitted: Identity, projection: Projection, at: int)
    | CancelEvent(scan: Id, at: int)
    | RetainEvent(at: int, batch: int, visitScans: seq<Id>, visitWindows: seq<WindowKey>)
    | ServiceEvent(paused: bool, at: int)

  datatype Answer =
    | OfCreate(create: CreateResult)
    | OfAcquire(acquire: AcquireResult)
    | OfHeartbeat(heartbeat: HeartbeatResult)
    | OfCommit(commit: CommitResult)
    | OfCancel(cancel: CancelResult)
    | OfRetain(retain: RetainResult)
    | OfService

  function Step(db: Db, e: Event): (Db, Answer) {
    match e
    case CreateEvent(r, c) => var (db', o) := CreateStep(db, r, c); (db', OfCreate(o))
    case AcquireEvent(id, now, a) => var (db', o) := AcquireStep(db, id, now, a); (db', OfAcquire(o))
    case StartEvent(c, now) => var (db', o) := StartStep(db, c, now); (db', OfHeartbeat(o))
    case RenewEvent(c, now) => var (db', o) := RenewStep(db, c, now); (db', OfHeartbeat(o))
    case CommitEvent(id, i, p, now) => var (db', o) := CommitStep(db, id, i, p, now); (db', OfCommit(o))
    case CancelEvent(id, now) => var (db', o) := CancelStep(db, id, now); (db', OfCancel(o))
    case RetainEvent(now, n, vs, vw) => var (db', o) := RetainStep(db, now, n, vs, vw); (db', OfRetain(o))
    case ServiceEvent(paused, _) => (db.(paused := paused), OfService)
  }

  function Run(db: Db, es: seq<Event>): Db {
    if es == [] then db else Step(Run(db, es[..|es| - 1]), es[|es| - 1]).0
  }

  lemma RunOne(db: Db, es: seq<Event>, e: Event)
    ensures Run(db, es + [e]) == Step(Run(db, es), e).0
  {
    assert (es + [e])[..|es|] == es;
  }

  // ---- the invariant over every run ---------------------------------------

  lemma ServiceKeepsInv(db: Db, paused: bool)
    requires Inv(db)
    ensures Inv(db.(paused := paused))
  {
    hide GroupOk, Balanced, WithinLimits, WindowsOk, AttemptsApart, IndexOk;
    assert IndexOk(db.(paused := paused)) by {
      IndexIgnoresService(db, paused);
    }
  }

  lemma IndexIgnoresService(db: Db, paused: bool)
    requires IndexOk(db)
    ensures IndexOk(db.(paused := paused))
  {
  }

  lemma StepKeepsInv(db: Db, e: Event)
    requires Inv(db)
    ensures Inv(Step(db, e).0)
  {
    hide Inv, CreateTx, AcquireTx, StartTx, RenewTx, CommitTx, CancelTx, RetainTx, NeedsNewScan, FreshIdTaken,
         ReplacesTooLate, AcquireWrites, TerminationClockOk, Acceptable, JobEnded, CommandIsCurrent, OnlyGroup;
    match e
    case CreateEvent(r, c) =>
      if ValidCreateRequest(r) {
        CreateEffect(db, r, c);
      }
    case AcquireEvent(id, now, a) =>
      if ReadableClock(now) {
        AcquireEffect(db, id, now, a);
      }
    case StartEvent(c, now) => StartEffect(db, c, now);
    case RenewEvent(c, now) => RenewEffect(db, c, now);
    case CommitEvent(id, i, p, now) => CommitEffect(db, id, i, p, now);
    case CancelEvent(id, now) => CancelEffect(db, id, now);
    case RetainEvent(now, n, vs, vw) =>
      if 1 <= n <= MAX_BATCH_SIZE {
        RetainEffect(db, now, n, vs, vw);
      }
    case ServiceEvent(paused, _) => ServiceKeepsInv(db, paused);
  }

  lemma {:induction false} RunKeepsInv(db: Db, es: seq<Event>)
    requires Inv(db)
    ensures Inv(Run(db, es))
  {
    hide Inv, Step;
    if es != [] {
      RunKeepsInv(db, es[..|es| - 1]);
      StepKeepsInv(Run(db, es[..|es| - 1]), es[|es| - 1]);
    }
  }

  /** Scans of one session, or of one network digest, whose job is still live. */
  ghost function LiveScans(db: Db, k: ActiveKey): set<Id> {
    set id | id in db.groups && LiveJob(db.groups[id].scan.job) && db.groups[id].reservation.Some?
             && (k == SessionActive(db.groups[id].reservation.value.session)
                 || k == NetworkActive(db.groups[id].reservation.value.network))
  }

  /** Quota conservation: after any run each active counter equals the number of
      live scans charged to it, has a row only when positive, and so a session
      has at most one live scan and a network digest at most four. */
  lemma QuotaConserved(es: seq<Event>, k: ActiveKey)
    ensures var db := Run(EMPTY, es);
            && ActiveOf(db.active, k) == |LiveScans(db, k)| <= ActiveLimit(k)
            && (k in db.active <==> LiveScans(db, k) != {})
            && ActiveLimit(k) == (if k.SessionActive? then 1 else 4)
  {
    EmptyInv();
    RunKeepsInv(EMPTY, es);
    var db := Run(EMPTY, es);
    hide Run;
    assert LedgerRow(db.active, db.groups, k);
    LiveAreHolders(db, k);
  }

  lemma LiveAreHolders(db: Db, k: ActiveKey)
    requires Inv(db)
    ensures LiveScans(db, k) == Holders(db.groups, k)
  {
    forall id | id in db.groups
      ensures id in LiveScans(db, k) <==> id in Holders(db.groups, k)
    {
      InvGroup(db, id);
      ChargedIffLive(id, db.groups[id]);
    }
  }

  lemma ChargedIffLive(id: Id, g: ScanGroup)
    requires GroupOk(id, g)
    ensures LiveJob(g.scan.job) <==> Unreleased(g)
    ensures g.reservation.Some?
  {
  }

  // ---- evolution over runs ------------------------------------------------

  /** The event brings a scan with this id into existence. */
  ghost predicate Creates(e: Event, id: Id) {
    e.CreateEvent? && e.inputs.freshScan == id
  }

  /** Every scan that a step neither removes nor creates evolves. */
  lemma StepEvolves(db: Db, e: Event, id: Id)
    requires Inv(db) && id in db.groups && !Creates(e, id)
    requires id in Step(db, e).0.groups
    ensures Evolves(db.groups[id], Step(db, e).0.groups[id])
  {
    hide Inv, Evolves, CreateTx, RetainTx, AcquireStep, StartStep, RenewStep, CommitStep, CancelStep,
         NeedsNewScan, FreshIdTaken, ReplacesTooLate;
    EvolvesRefl(db.groups[id]);
    match e
    case CreateEvent(r, c) =>
      if ValidCreateRequest(r) {
        CreateEffect(db, r, c);
      }
    case AcquireEvent(s, now, a) => AcquireEvolves(db, s, now, a);
    case StartEvent(c, now) => StartEvolves(db, c, now);
    case RenewEvent(c, now) => RenewEvolves(db, c, now);
    case CommitEvent(s, i, p, now) => CommitStepEvolves(db, s, i, p, now);
    case CancelEvent(s, now) => CancelEvolves(db, s, now);
    case RetainEvent(now, n, vs, vw) =>
      if 1 <= n <= MAX_BATCH_SIZE {
        RetainEffect(db, now, n, vs, vw);
      }
    case ServiceEvent(paused, _) =>
  }

  /** Only a create with its id brings a scan into existence. */
  lemma StepAppears(db: Db, e: Event, id: Id)
    requires Inv(db) && id !in db.groups && !Creates(e, id)
    ensures id !in Step(db, e).0.groups
  {
    hide Inv, Evolves, CreateTx, RetainTx, AcquireStep, StartStep, RenewStep, CommitStep, CancelStep,
         NeedsNewScan, FreshIdTaken, ReplacesTooLate;
    match e
    case CreateEvent(r, c) =>
      if ValidCreateRequest(r) {
        CreateEffect(db, r, c);
      }
    case AcquireEvent(s, now, a) => AcquireEvolves(db, s, now, a);
    case StartEvent(c, now) => StartEvolves(db, c, now);
    case RenewEvent(c, now) => RenewEvolves(db, c, now);
    case CommitEvent(s, i, p, now) => CommitStepEvolves(db, s, i, p, now);
    case CancelEvent(s, now) => CancelEvolves(db, s, now);
    case RetainEvent(now, n, vs, vw) =>
      if 1 <= n <= MAX_BATCH_SIZE {
        RetainEffect(db, now, n, vs, vw);
      }
    case ServiceEvent(paused, _) =>
  }

  ghost predicate NeverCreates(es: seq<Event>, id: Id) {
    forall i | 0 <= i < |es| :: !Creates(es[i], id)
  }

  /** A scan present at the end of a run that never creates it was there throughout. */
  lemma {:induction false} PresentThroughout(db: Db, es: seq<Event>, id: Id)
    requires Inv(db) && NeverCreates(es, id) && id in Run(db, es).groups
    ensures id in db.groups
    ensures es != [] ==> id in Run(db, es[..|es| - 1]).groups
  {
    hide Inv, Step;
    if es != [] {
      var init := es[..|es| - 1];
      RunKeepsInv(db, init);
      if id !in Run(db, init).groups {
        StepAppears(Run(db, init), es[|es| - 1], id);
      }
      PresentThroughout(db, init, id);
    }
  }

  // ---- bounded lifecycle --------------------------------------------------

  /** Transactions of the run that changed a row of the scan. */
  ghost function Changes(db: Db, es: seq<Event>, id: Id): nat {
    if es == [] then 0
    else
      var before := Run(db, es[..|es| - 1]);
      var after := Run(db, es);
      Changes(db, es[..|es| - 1], id)
      + (if id in before.groups && id in after.groups && before.groups[id] != after.groups[id] then 1 else 0)
  }

  lemma {:induction false} ChangesSpendWork(db: Db, es: seq<Event>, id: Id)
    requires Inv(db) && id in db.groups && NeverCreates(es, id)
    ensures id in Run(db, es).groups ==> Changes(db, es, id) + WorkLeft(Run(db, es).groups[id]) <= WorkLeft(db.groups[id])
    ensures Changes(db, es, id) <= WorkLeft(db.groups[id])
  {
    hide Inv, Step, WorkLeft;
    InvGroup(db, id);
    WorkLeftBounds(id, db.groups[id]);
    if es != [] {
      var init := es[..|es| - 1];
      ChangesSpendWork(db, init, id);
      RunKeepsInv(db, init);
      var before := Run(db, init);
      if id in Run(db, es).groups {
        PresentThroughout(db, es, id);
        StepEvolves(before, es[|es| - 1], id);
        RunKeepsInv(db, es);
        InvGroup(Run(db, es), id);
        WorkLeftBounds(id, Run(db, es).groups[id]);
      }
    }
  }

  /** Whatever the clocks and however many workers take part, at most 97
      transactions ever change the rows of one scan after it was created. */
  lemma BoundedLifecycle(db: Db, es: seq<Event>, id: Id)
    requires Inv(db) && id in db.groups && NeverCreates(es, id)
    ensures Changes(db, es, id) <= 97
  {
    hide Inv;
    ChangesSpendWork(db, es, id);
    InvGroup(db, id);
    WorkLeftBounds(id, db.groups[id]);
  }

  /** One attempt of a scan: its lease version and expiry are bounded, and only
      the current attempt of a running job is live. */
  ghost predicate LeaseBounded(g: ScanGroup, a: Id)
    requires a in g.attempts
  {
    var t := g.attempts[a];
    && 1 <= t.no == t.fence <= g.scan.fence <= 3
    && 1 <= t.leaseVersion <= 31
    && t.leaseExpires.Some?
    && t.created < t.leaseExpires.value <= t.hardDeadline
    && t.hardDeadline <= Min(t.created + 45, g.scan.accessExpires)
    && (LiveAttempt(t.state) <==> g.scan.job == JobRunning && g.scan.current == Some(a))
    && (t.fence == g.scan.fence <==> g.scan.current == Some(a))
    && (g.scan.current != Some(a) ==> TerminalAttempt(t.state))
  }

  lemma OkIsBounded(id: Id, g: ScanGroup, a: Id)
    requires GroupOk(id, g) && a in g.attempts
    ensures LeaseBounded(g, a)
  {
    assert AttemptShape(g, a);
    LeaseVersionBound(g, a);
  }

  /** Leases: three attempts, thirty renewals each, never past the hard deadline. */
  lemma LeasesBounded(es: seq<Event>, id: Id, a: Id)
    requires id in Run(EMPTY, es).groups && a in Run(EMPTY, es).groups[id].attempts
    ensures LeaseBounded(Run(EMPTY, es).groups[id], a)
  {
    hide Run, Inv, GroupOk, LeaseBounded;
    EmptyInv();
    RunKeepsInv(EMPTY, es);
    InvGroup(Run(EMPTY, es), id);
    OkIsBounded(id, Run(EMPTY, es).groups[id], a);
  }

  // ---- exactly one result -------------------------------------------------

  /** Once its job has ended, a scan's rows never change until they are deleted. */
  lemma {:induction false} EndedForever(db: Db, es: seq<Event>, id: Id)
    requires Inv(db) && id in db.groups && !LiveJob(db.groups[id].scan.job) && NeverCreates(es, id)
    ensures id in Run(db, es).groups ==> Run(db, es).groups[id] == db.groups[id]
  {
    hide Inv, Step, WorkLeft;
    if es != [] && id in Run(db, es).groups {
      var init := es[..|es| - 1];
      PresentThroughout(db, es, id);
      EndedForever(db, init, id);
      RunKeepsInv(db, init);
      StepEvolves(Run(db, init), es[|es| - 1], id);
    }
  }

  /** Every change of a surviving scan follows the abstract machines; retired
      attempts and the accepted result never change again. */
  lemma {:induction false} RunEvolution(db: Db, es: seq<Event>, id: Id)
    requires Inv(db) && id in db.groups && NeverCreates(es, id) && id in Run(db, es).groups
    ensures var g, g' := db.groups[id], Run(db, es).groups[id];
            && SameScanIdentity(g.scan, g'.scan)
            && g.scan.fence <= g'.scan.fence
            && (forall a | a in g.attempts :: a in g'.attempts && SameAttemptIdentity(g.attempts[a], g'.attempts[a])
                                              && (TerminalAttempt(g.attempts[a].state) ==> g'.attempts[a] == g.attempts[a]))
  {
    hide Inv, Step, WorkLeft, JobEdge, AttemptEdge;
    if es != [] {
      var init := es[..|es| - 1];
      PresentThroughout(db, es, id);
      RunEvolution(db, init, id);
      RunKeepsInv(db, init);
      StepEvolves(Run(db, init), es[|es| - 1], id);
    }
  }

  ghost predicate CommitsPrimary(db: Db, e: Event, id: Id) {
    e.CommitEvent? && e.scan == id && Step(db, e).1 == OfCommit(Committed)
  }

  /** Primary commits for one scan during a run. */
  ghost function PrimaryCommits(db: Db, es: seq<Event>, id: Id): nat {
    if es == [] then 0
    else
      var init := es[..|es| - 1];
      PrimaryCommits(db, init, id) + (if CommitsPrimary(Run(db, init), es[|es| - 1], id) then 1 else 0)
  }

  /** A primary commit needs a running job and ends it. */
  lemma PrimaryCommitEffect(db: Db, e: Event, id: Id)
    requires Inv(db) && CommitsPrimary(db, e, id)
    ensures id in db.groups && db.groups[id].scan.job == JobRunning
    ensures db.groups[id].scan.current == Some(e.submitted.attempt)
    ensures e.submitted.attempt in db.groups[id].attempts
    ensures db.groups[id].attempts[e.submitted.attempt].state == Running
    ensures db.groups[id].attempts[e.submitted.attempt].fence == e.submitted.fence
    ensures id in Step(db, e).0.groups
    ensures Step(db, e).0.groups[id].scan.job == JobSucceeded
    ensures Step(db, e).0.groups[id].scan.accepted == Some(e.submitted)
    ensures Step(db, e).0.groups[id].result == Some(ResultOf(e.submitted, e.projection, e.at))
  {
    hide Inv, CommitTx, ValidIdentity;
    CommitEffect(db, id, e.submitted, e.projection, e.at);
    InvGroup(db, id);
    CurrentIsOk(id, db.groups[id]);
    hide GroupOk;
  }

  /** At most one result is ever stored for a scan, and none once its job ended. */
  lemma {:induction false} ExactlyOnce(db: Db, es: seq<Event>, id: Id)
    requires Inv(db) && NeverCreates(es, id)
    ensures PrimaryCommits(db, es, id) <= 1
    ensures id in db.groups && !LiveJob(db.groups[id].scan.job) ==> PrimaryCommits(db, es, id) == 0
    ensures PrimaryCommits(db, es, id) == 1 && id in Run(db, es).groups ==> Run(db, es).groups[id].scan.job == JobSucceeded
  {
    hide Inv, Step, WorkLeft, CommitsPrimary;
    if es != [] {
      var init := es[..|es| - 1];
      ExactlyOnce(db, init, id);
      RunKeepsInv(db, init);
      var before := Run(db, init);
      var e := es[|es| - 1];
      if CommitsPrimary(before, e, id) {
        PrimaryCommitEffect(before, e, id);
        PresentThroughout(db, init, id);
        if !LiveJob(db.groups[id].scan.job) {
          EndedForever(db, init, id);
        }
      } else if PrimaryCommits(db, init, id) == 1 && id in Run(db, es).groups {
        PresentThroughout(db, es, id);
        StepEvolves(before, e, id);
      }
    }
  }

  /** A superseded, timed-out or cancelled attempt never commits, however late
      its worker submits. */
  lemma RetiredNeverCommits(db: Db, es: seq<Event>, id: Id, e: Event)
    requires Inv(db) && id in db.groups && NeverCreates(es, id)
    requires e.CommitEvent? && e.submitted.attempt in db.groups[id].attempts
    requires TerminalAttempt(db.groups[id].attempts[e.submitted.attempt].state)
    ensures !CommitsPrimary(Run(db, es), e, id)
  {
    hide Inv, Step, CommitsPrimary;
    RunKeepsInv(db, es);
    if CommitsPrimary(Run(db, es), e, id) {
      PrimaryCommitEffect(Run(db, es), e, id);
      RunEvolution(db, es, id);
    }
  }

  /** How a submission for an accepted scan is answered: by its identity alone. */
  function ClassifyLate(accepted: Identity, submitted: Identity): CommitResult {
    if !SameAttempt(accepted, submitted) then CommitDenied(StaleAttempt, false)
    else if accepted.digest != submitted.digest then CommitDenied(ResultDigestConflict, true)
    else CommitReplayed
  }

  /** After a primary commit, through any further run, the accepted identity and
      the stored result stay, and every later submission is answered by its
      identity alone without a write. */
  lemma LateSubmissions(db: Db, e: Event, es: seq<Event>, id: Id, late: Event)
    requires Inv(db) && CommitsPrimary(db, e, id) && NeverCreates(es, id)
    requires late.CommitEvent? && late.scan == id && ValidIdentity(late.submitted) && PositiveSafe(late.at)
    requires id in Run(Step(db, e).0, es).groups
    ensures var after := Run(Step(db, e).0, es);
            && after.groups[id].scan.accepted == Some(e.submitted)
            && after.groups[id].result == Some(ResultOf(e.submitted, e.projection, e.at))
            && Step(after, late) == (after, OfCommit(ClassifyLate(e.submitted, late.submitted)))
  {
    hide Inv, CommitTx, GroupOk, Retired, ReadableScan, ReadableAttempt;
    StepKeepsInv(db, e);
    PrimaryCommitEffect(db, e, id);
    var db1 := Step(db, e).0;
    EndedForever(db1, es, id);
    var after := Run(db1, es);
    RunKeepsInv(db1, es);
    LateIsClassified(after, id, late.submitted, late.projection, late.at);
  }

  lemma LateIsClassified(db: Db, id: Id, submitted: Identity, projection: Projection, now: int)
    requires Inv(db) && id in db.groups && db.groups[id].scan.job == JobSucceeded
    requires ValidIdentity(submitted) && PositiveSafe(now)
    ensures db.groups[id].scan.accepted.Some?
    ensures CommitStep(db, id, submitted, projection, now)
            == (db, ClassifyLate(db.groups[id].scan.accepted.value, submitted))
  {
    hide Inv, GroupOk, ValidIdentity, ValidSnapshot;
    LockedFacts(db, id, now);
    InvGroup(db, id);
    AcceptedFacts(id, db.groups[id]);
  }
}
