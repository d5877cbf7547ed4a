/** The worker that handles one queue message: acquire, start, run with a
    heartbeat, commit. Transactions of others happen before each of its calls. */
module QueueProcessor {
  import opened Basics
  import opened ScanProtocol
  import opened GuestOutput
  import opened Tables
  import opened Quota
  import opened Transactions
  import opened Invariant
  import opened StepProofs
  import opened CommitProofs
  import opened Runs
  import opened RunFaults
  import opened GuestStore
  import opened QueueTelemetry

  datatype RunnerResult = RunnerThrew | RunnerFailed | RunnerDone(job: Id, submitted: Identity, projection: Projection)

  /** The committer may fail before its transaction, or lose its answer after it. */
  datatype CommitterCall = CommitterAnswers | CommitterFails | AnswerIsLost

  /** Everything the worker does not decide: clocks, ids, the scanner's result,
      which dependencies answer, and what others do before its n-th call. */
  datatype World = World(
    others: nat -> seq<Event>,
    acquireAt: int,
    newAttempt: Id,
    startAt: int,
    contextLoads: bool,
    heartbeats: seq<int>,
    runner: RunnerResult,
    committer: CommitterCall,
    commitAt: int,
    sinkAnswers: bool)

  method ApplyAll(store: Store, es: seq<Event>, ghost start: Db,
                  ghost trace: seq<Event>) returns (ghost longer: seq<Event>)
    requires store.View() == Run(start, trace)
    modifies store
    ensures longer == trace + es && store.View() == Run(start, longer)
    ensures old(store.Valid()) ==> store.Valid()
  {
    hide Step, Run;
    longer := trace;
    for i := 0 to |es|
      invariant longer == trace + es[..i] && store.View() == Run(start, longer)
      invariant old(store.Valid()) ==> store.Valid()
    {
      var _ := store.Apply(es[i]);
      RunOne(start, longer, es[i]);
      longer := longer + [es[i]];
    }
    assert es[..|es|] == es;
  }

  // ---- what a worker's own calls look like in the run ---------------------

  /** The run that a method saw, with the answer to its last event. */
  ghost function AnswerTo(start: Db, trace: seq<Event>): Answer
    requires trace != []
  {
    Step(Run(start, trace[..|trace| - 1]), trace[|trace| - 1]).1
  }

  /** The last event of the run wrote nothing. */
  ghost predicate WroteNothing(start: Db, trace: seq<Event>)
    requires trace != []
  {
    Run(start, trace) == Run(start, trace[..|trace| - 1])
  }

  predicate IsRenewed(a: Answer) {
    a.OfHeartbeat? && a.heartbeat.Renewed?
  }

  predicate IsStarted(a: Answer) {
    a.OfHeartbeat? && (a.heartbeat.Started? || a.heartbeat.AlreadyRunning?)
  }

  function Acquiring(message: Id, w: World): (trace: seq<Event>)
    ensures trace != []
  {
    w.others(0) + [AcquireEvent(message, w.acquireAt, w.newAttempt)]
  }

  function Starting(message: Id, w: World, lease: Lease): (trace: seq<Event>)
    ensures trace != []
  {
    Acquiring(message, w) + w.others(1) + [StartEvent(CommandOf(lease), w.startAt)]
  }

  /** One renewal per tick, each after what others did. */
  function Beating(trace: seq<Event>, w: World, commands: seq<LeaseCommand>): (longer: seq<Event>)
    requires |commands| <= |w.heartbeats|
    ensures commands != [] ==> longer != []
  {
    if commands == [] then trace
    else
      var n := |commands| - 1;
      Beating(trace, w, commands[..n]) + w.others(2 + n) + [RenewEvent(commands[n], w.heartbeats[n])]
  }

  function Committing(trace: seq<Event>, w: World): (longer: seq<Event>)
    requires w.runner.RunnerDone?
    ensures longer != []
  {
    trace + w.others(2 + |w.heartbeats|) + [CommitEvent(w.runner.job, w.runner.submitted, w.runner.projection, w.commitAt)]
  }

  /** Each renewal names the version last answered and all but the last succeeded;
      the heartbeat is lost exactly when the last did not, and otherwise there is
      one renewal per tick. */
  ghost predicate Heartbeats(start: Db, trace: seq<Event>, lease: Lease, w: World, commands: seq<LeaseCommand>,
                             lost: bool) {
    && |commands| <= |w.heartbeats|
    && (forall n | 0 <= n < |commands| :: Beat(start, trace, lease, w, commands, n))
    && (lost <==> commands != [] && !IsRenewed(AnswerTo(start, Beating(trace, w, commands))))
    && (!lost ==> |commands| == |w.heartbeats|)
  }

  ghost predicate Beat(start: Db, trace: seq<Event>, lease: Lease, w: World, commands: seq<LeaseCommand>, n: nat)
    requires n < |commands| <= |w.heartbeats|
  {
    if n == 0 then commands[0] == CommandOf(lease)
    else
      var before := AnswerTo(start, Beating(trace, w, commands[..n]));
      IsRenewed(before) && commands[n] == CommandOf(lease).(version := before.heartbeat.version)
  }

  /** One more renewal, of the version last answered, after a run of successes. */
  lemma OneMoreBeat(start: Db, trace: seq<Event>, lease: Lease, w: World, commands: seq<LeaseCommand>, c: LeaseCommand)
    requires |commands| < |w.heartbeats| && forall n | 0 <= n < |commands| :: Beat(start, trace, lease, w, commands, n)
    requires if commands == [] then c == CommandOf(lease)
             else var before := AnswerTo(start, Beating(trace, w, commands));
                  IsRenewed(before) && c == CommandOf(lease).(version := before.heartbeat.version)
    ensures forall n | 0 <= n <= |commands| :: Beat(start, trace, lease, w, commands + [c], n)
    ensures Beating(trace, w, commands + [c])
            == Beating(trace, w, commands) + w.others(2 + |commands|) + [RenewEvent(c, w.heartbeats[|commands|])]
  {
    hide Step, Run;
    assert forall n | 0 <= n <= |commands| :: (commands + [c])[..n] == commands[..n];
    assert commands[..|commands|] == commands;
    forall n | 0 <= n < |commands|
      ensures Beat(start, trace, lease, w, commands + [c], n)
    {
      assert Beat(start, trace, lease, w, commands, n);
    }
  }

  method RenewFor(store: Store, c: LeaseCommand, now: int, ghost start: Db, ghost before: seq<Event>)
    returns (answer: HeartbeatResult, ghost longer: seq<Event>)
    requires store.View() == Run(start, before)
    modifies store
    ensures longer == before + [RenewEvent(c, now)] && store.View() == Run(start, longer)
    ensures AnswerTo(start, longer) == OfHeartbeat(answer)
    ensures old(store.Valid()) ==> store.Valid()
  {
    hide Inv, Run, RenewStep;
    answer := store.Renew(c, now);
    RunOne(start, before, RenewEvent(c, now));
    longer := before + [RenewEvent(c, now)];
    assert longer[..|longer| - 1] == before;
  }

  /** Renew at each tick until one renewal fails; the runner is told to stop then. */
  method RunHeartbeats(store: Store, lease: Lease, w: World, ghost start: Db, ghost trace: seq<Event>)
    returns (lost: bool, ghost longer: seq<Event>, ghost commands: seq<LeaseCommand>)
    requires store.View() == Run(start, trace)
    modifies store
    ensures Heartbeats(start, trace, lease, w, commands, lost)
    ensures longer == Beating(trace, w, commands) && store.View() == Run(start, longer)
    ensures old(store.Valid()) ==> store.Valid()
  {
    hide Step, Run, Inv, AnswerTo;
    longer, commands := trace, [];
    lost := false;
    var current := lease;
    var tick := 0;
    while tick < |w.heartbeats| && !lost
      invariant tick == |commands| <= |w.heartbeats|
      invariant longer == Beating(trace, w, commands) && store.View() == Run(start, longer)
      invariant old(store.Valid()) ==> store.Valid()
      invariant current == lease.(version := current.version, leaseExpires := current.leaseExpires)
      invariant forall n | 0 <= n < |commands| :: Beat(start, trace, lease, w, commands, n)
      invariant lost <==> commands != [] && !IsRenewed(AnswerTo(start, longer))
      invariant !lost ==> current.version == if commands == [] then lease.version
                                             else AnswerTo(start, longer).heartbeat.version
    {
      ghost var before := ApplyAll(store, w.others(2 + tick), start, longer);
      OneMoreBeat(start, trace, lease, w, commands, CommandOf(current));
      var answer: HeartbeatResult;
      answer, longer := RenewFor(store, CommandOf(current), w.heartbeats[tick], start, before);
      commands := commands + [CommandOf(current)];
      if answer.Renewed? {
        current := current.(version := answer.version, leaseExpires := answer.leaseExpires);
      } else {
        lost := true;
      }
      tick := tick + 1;
    }
  }

  lemma AcquireTells(db: Db, id: Id, now: int, a: Id)
    requires Inv(db)
    ensures var (db', r) := AcquireStep(db, id, now, a);
            && (r == NotAcquirable ==>
                  db' == db && (id !in db.groups || !ReadableScan(id, db.groups[id].scan) || !LiveJob(db.groups[id].scan.job)))
            && (r.JobTerminated? ==> id in db'.groups && db'.groups[id].scan.job in {JobFailed, JobExpired})
            && (r.LeaseHeld? ==> db' == db && id in db.groups && db.groups[id].scan.job == JobRunning)
            && (r.AcquireInvalid? || r.AcquireUnavailable? ==> db' == db)
  {
    hide Inv, GrantLease, TerminateJob, FinishAttempt, ReadableScan, ReadableAttempt, ValidId;
    if id in db.groups {
      TerminatedTells(db, id, now, JobExpired);
      forall g: ScanGroup {:trigger TerminateJob(db.(groups := db.groups[id := g]), id, now, JobFailed)}
        ensures var r := TerminateJob(db.(groups := db.groups[id := g]), id, now, JobFailed);
                r.Done? ==> id in r.value.0.groups && r.value.0.groups[id].scan.job == JobFailed && r.value.1 == JobTerminated(JobFailed)
      {
        TerminatedTells(db.(groups := db.groups[id := g]), id, now, JobFailed);
      }
      forall d: Db, no, fence {:trigger GrantLease(d, id, a, no, fence, now)} | id in d.groups
        ensures GrantLease(d, id, a, no, fence, now).Done? ==> GrantLease(d, id, a, no, fence, now).value.1.LeaseGranted?
      {
        GrantTells(d, id, a, no, fence, now);
      }
    }
  }

  lemma GrantTells(db: Db, id: Id, a: Id, no: int, fence: int, now: int)
    requires id in db.groups
    ensures GrantLease(db, id, a, no, fence, now).Done? ==> GrantLease(db, id, a, no, fence, now).value.1.LeaseGranted?
  {
    hide ValidId, AttemptCheck, UpdateAttempt, UpdateScan, AttemptIdTaken;
  }

  lemma TerminatedTells(db: Db, id: Id, now: int, terminal: JobState)
    requires id in db.groups && terminal in {JobFailed, JobExpired}
    ensures var r := TerminateJob(db, id, now, terminal);
            r.Done? ==> id in r.value.0.groups && r.value.0.groups[id].scan.job == terminal && r.value.1 == JobTerminated(terminal)
  {
    hide FinishAttempt, ReadableAttempt, ScanCheck, ScanUpdateAllowed;
  }

  /** A commit that succeeds, or is answered as a repeat, leaves its own identity
      accepted. */
  lemma CommitTells(db: Db, id: Id, submitted: Identity, projection: Projection, now: int)
    requires Inv(db)
    ensures var (db', r) := CommitStep(db, id, submitted, projection, now);
            r == Committed || r == CommitReplayed ==>
              && id in db'.groups && db'.groups[id].scan.job == JobSucceeded
              && db'.groups[id].scan.accepted == Some(submitted)
  {
    hide Inv, ValidIdentity, ValidSnapshot, StoreResult;
    CommitEffect(db, id, submitted, projection, now);
    LockedFacts(db, id, now);
    if LockedState(db, id, now).Some? {
      StoredIsNoReplay(db, id, submitted, projection, now);
    }
  }

  lemma StoredIsNoReplay(db: Db, id: Id, submitted: Identity, projection: Projection, now: int)
    requires id in db.groups
    ensures StoreResult(db, id, submitted, projection, now).Done? ==>
              StoreResult(db, id, submitted, projection, now).value.1 == Committed
  {
    hide FinishAttempt, UpdateScan, ReleaseTx, ResultInsertAllowed;
  }

  // ---- one delivery -------------------------------------------------------

  ghost predicate HasLease(start: Db, message: Id, w: World) {
    var answer := AnswerTo(start, Acquiring(message, w));
    answer.OfAcquire? && answer.acquire.LeaseGranted?
  }

  ghost function LeaseOf(start: Db, message: Id, w: World): Lease
    requires HasLease(start, message, w)
  {
    AnswerTo(start, Acquiring(message, w)).acquire.lease
  }

  ghost predicate HasStarted(start: Db, message: Id, w: World) {
    HasLease(start, message, w) && IsStarted(AnswerTo(start, Starting(message, w, LeaseOf(start, message, w))))
  }

  /** The worker had the lease, started, and renewed until the scanner answered,
      or until a renewal failed. */
  ghost predicate HasRun(start: Db, message: Id, w: World, commands: seq<LeaseCommand>, lost: bool) {
    && HasStarted(start, message, w)
    && w.contextLoads
    && var lease := LeaseOf(start, message, w);
       Heartbeats(start, Starting(message, w, lease), lease, w, commands, lost)
  }

  ghost function Ran(start: Db, message: Id, w: World, commands: seq<LeaseCommand>): seq<Event>
    requires HasLease(start, message, w) && |commands| <= |w.heartbeats|
  {
    Beating(Starting(message, w, LeaseOf(start, message, w)), w, commands)
  }

  /** The run ended with the worker's own commit, and this was the answer to it. */
  ghost predicate CommitAnswered(start: Db, message: Id, w: World, commands: seq<LeaseCommand>, trace: seq<Event>,
                                 r: CommitResult) {
    && HasRun(start, message, w, commands, false)
    && w.runner.RunnerDone?
    && trace == Committing(Ran(start, message, w, commands), w)
    && AnswerTo(start, trace) == OfCommit(r)
  }

  /** The accepted result of the job is the one this worker submitted. */
  ghost predicate HoldsResult(db: Db, w: World) {
    && w.runner.RunnerDone?
    && w.runner.job in db.groups
    && db.groups[w.runner.job].scan.job == JobSucceeded
    && db.groups[w.runner.job].scan.accepted == Some(w.runner.submitted)
  }

  /** The leased attempt is the running one of its scan. */
  ghost predicate IsRunning(db: Db, lease: Lease) {
    CommandIsCurrent(db, CommandOf(lease)) && db.groups[lease.scan].attempts[lease.attempt].state == Running
  }

  /** What the outcome tells: which of its calls the worker made, in what run, with
      what answers, and what that means for the state it left behind. */
  ghost predicate Tells(outcome: QueueOutcome, message: Id, w: World, start: Db, trace: seq<Event>,
                        commands: seq<LeaseCommand>) {
    match outcome
    case NotAcquirableAcknowledged | RetryLeaseHeld | TerminalAcknowledged | RetryPersistence =>
      trace == Acquiring(message, w) && AcquireTold(outcome, message, start, trace)
    case RetryStart =>
      && HasLease(start, message, w) && trace == Starting(message, w, LeaseOf(start, message, w))
      && !IsStarted(AnswerTo(start, trace)) && WroteNothing(start, trace)
    case RetryContext =>
      && HasStarted(start, message, w) && trace == Starting(message, w, LeaseOf(start, message, w)) && !w.contextLoads
      && IsRunning(Run(start, trace), LeaseOf(start, message, w))
    case RetryHeartbeat =>
      && HasRun(start, message, w, commands, true) && trace == Ran(start, message, w, commands)
      && !w.runner.RunnerThrew? && WroteNothing(start, trace)
    case RetrySupervisor =>
      && (HasRun(start, message, w, commands, false) || (HasRun(start, message, w, commands, true) && w.runner.RunnerThrew?))
      && trace == Ran(start, message, w, commands) && !w.runner.RunnerDone?
    case CommittedOutcome | AlreadyCommittedOutcome | RetryRejectionSink | RetryCommit =>
      CommitTold(outcome, message, w, start, trace, commands)
  }

  ghost predicate AcquireTold(outcome: QueueOutcome, message: Id, start: Db, trace: seq<Event>)
    requires trace != []
  {
    var end := Run(start, trace);
    match outcome
    case NotAcquirableAcknowledged =>
      && WroteNothing(start, trace) && AnswerTo(start, trace) == OfAcquire(NotAcquirable)
      && (message !in end.groups || !ReadableScan(message, end.groups[message].scan) || !LiveJob(end.groups[message].scan.job))
    case RetryLeaseHeld =>
      && WroteNothing(start, trace) && AnswerTo(start, trace).OfAcquire? && AnswerTo(start, trace).acquire.LeaseHeld?
      && message in end.groups && end.groups[message].scan.job == JobRunning
    case TerminalAcknowledged =>
      && AnswerTo(start, trace).OfAcquire? && AnswerTo(start, trace).acquire.JobTerminated?
      && message in end.groups && end.groups[message].scan.job in {JobFailed, JobExpired}
    case _ =>
      && WroteNothing(start, trace) && AnswerTo(start, trace).OfAcquire?
      && (AnswerTo(start, trace).acquire.AcquireInvalid? || AnswerTo(start, trace).acquire.AcquireUnavailable?)
  }

  /** COMMITTED means that the own commit was the primary one. Otherwise it wrote
      nothing, unless its answer was lost or it was never made. */
  ghost predicate CommitTold(outcome: QueueOutcome, message: Id, w: World, start: Db, trace: seq<Event>,
                             commands: seq<LeaseCommand>) {
    && HasRun(start, message, w, commands, false)
    && w.runner.RunnerDone?
    && match w.committer
       case CommitterFails =>
         outcome == RetryCommit && trace == Ran(start, message, w, commands) + w.others(2 + |w.heartbeats|)
       case AnswerIsLost => outcome == RetryCommit && trace == Committing(Ran(start, message, w, commands), w)
       case CommitterAnswers =>
         && trace == Committing(Ran(start, message, w, commands), w)
         && AnswerTo(start, trace).OfCommit?
         && var answer := AnswerTo(start, trace).commit;
            && (answer != Committed ==> WroteNothing(start, trace))
            && (outcome == CommittedOutcome <==> answer == Committed)
            && (outcome == AlreadyCommittedOutcome <==> answer == CommitReplayed)
            && (outcome == RetryRejectionSink <==> answer != Committed && answer != CommitReplayed && !w.sinkAnswers)
            && (answer in {Committed, CommitReplayed} ==> HoldsResult(Run(start, trace), w))
  }

  /** A worker's own primary commit whose answer arrives is always reported as
      COMMITTED, and nothing else is. */
  lemma OwnCommitIsReported(outcome: QueueOutcome, message: Id, w: World, start: Db, trace: seq<Event>,
                            commands: seq<LeaseCommand>)
    requires Tells(outcome, message, w, start, trace, commands)
    ensures outcome == CommittedOutcome <==>
              && w.committer == CommitterAnswers && w.runner.RunnerDone?
              && trace != [] && trace[|trace| - 1] == CommitEvent(w.runner.job, w.runner.submitted, w.runner.projection, w.commitAt)
              && CommitsPrimary(Run(start, trace[..|trace| - 1]), trace[|trace| - 1], w.runner.job)
  {
    hide Run, Step, AcquireTold, HoldsResult;
    if outcome in {RetryHeartbeat, RetrySupervisor} {
      EndsNoCommit(Starting(message, w, LeaseOf(start, message, w)), w, commands);
    }
  }

  lemma EndsNoCommit(trace: seq<Event>, w: World, commands: seq<LeaseCommand>)
    requires |commands| <= |w.heartbeats| && trace != [] && !trace[|trace| - 1].CommitEvent?
    ensures Beating(trace, w, commands) != []
    ensures !Beating(trace, w, commands)[|Beating(trace, w, commands)| - 1].CommitEvent?
  {
  }

  /** Acquire is the first call. */
  method AcquireFor(store: Store, message: Id, w: World, ghost start: Db) returns (acquired: AcquireResult)
    requires store.Valid() && store.View() == start
    modifies store
    ensures store.View() == Run(start, Acquiring(message, w)) && store.Valid()
    ensures AnswerTo(start, Acquiring(message, w)) == OfAcquire(acquired)
  {
    hide Inv, Run, AcquireStep;
    NothingRan(start);
    ghost var trace := ApplyAll(store, w.others(0), start, []);
    acquired := store.Acquire(message, w.acquireAt, w.newAttempt);
    RunOne(start, trace, AcquireEvent(message, w.acquireAt, w.newAttempt));
    assert Acquiring(message, w)[..|trace|] == trace;
  }

  lemma AcquireTellsIt(start: Db, message: Id, w: World)
    requires Inv(start)
    ensures var trace := Acquiring(message, w);
            && AnswerTo(start, trace).OfAcquire?
            && var r := AnswerTo(start, trace).acquire;
               !r.LeaseGranted? ==> AcquireTold(AcquireOutcome(r), message, start, trace)
  {
    hide Inv, Run, AcquireStep, ReadableScan;
    var trace := Acquiring(message, w);
    assert trace[..|trace| - 1] == w.others(0);
    RunKeepsInv(start, w.others(0));
    RunOne(start, w.others(0), AcquireEvent(message, w.acquireAt, w.newAttempt));
    AcquireTells(Run(start, w.others(0)), message, w.acquireAt, w.newAttempt);
  }

  function AcquireOutcome(r: AcquireResult): QueueOutcome
    requires !r.LeaseGranted?
  {
    if r.NotAcquirable? then NotAcquirableAcknowledged
    else if r.LeaseHeld? then RetryLeaseHeld
    else if r.JobTerminated? then TerminalAcknowledged
    else RetryPersistence
  }

  /** Start follows the acquisition. */
  method StartFor(store: Store, lease: Lease, w: World, ghost start: Db, ghost trace: seq<Event>)
    returns (running: bool, ghost longer: seq<Event>)
    requires store.Valid() && store.View() == Run(start, trace)
    modifies store
    ensures longer == trace + w.others(1) + [StartEvent(CommandOf(lease), w.startAt)]
    ensures store.View() == Run(start, longer) && store.Valid()
    ensures running <==> IsStarted(AnswerTo(start, longer))
    ensures !running ==> WroteNothing(start, longer)
    ensures running ==> IsRunning(Run(start, longer), lease)
  {
    hide Inv, Run, StartStep, CommandIsCurrent;
    ghost var before := ApplyAll(store, w.others(1), start, trace);
    StartTells(store.View(), CommandOf(lease), w.startAt);
    var started := store.Start(CommandOf(lease), w.startAt);
    RunOne(start, before, StartEvent(CommandOf(lease), w.startAt));
    longer := before + [StartEvent(CommandOf(lease), w.startAt)];
    assert longer[..|longer| - 1] == before;
    running := started.Started? || started.AlreadyRunning?;
  }

  lemma StartTells(db: Db, c: LeaseCommand, now: int)
    requires Inv(db)
    ensures var (db', r) := StartStep(db, c, now);
            if r.Started? || r.AlreadyRunning? then CommandIsCurrent(db', c) && db'.groups[c.scan].attempts[c.attempt].state == Running
            else db' == db
  {
    hide Inv, AttemptCheck, ReadableScan, ValidId;
    StartEffect(db, c, now);
  }

  lemma RenewTells(db: Db, c: LeaseCommand, now: int)
    ensures RenewStep(db, c, now).1.Renewed? || RenewStep(db, c, now).0 == db
  {
    hide AttemptCheck, ReadableAttempt, ReadableScan, ValidId;
  }

  /** A lost heartbeat was the last thing that happened, and it wrote nothing. */
  lemma LostTells(start: Db, trace: seq<Event>, lease: Lease, w: World, commands: seq<LeaseCommand>)
    requires Heartbeats(start, trace, lease, w, commands, true)
    ensures Beating(trace, w, commands) != [] && WroteNothing(start, Beating(trace, w, commands))
  {
    hide Run, RenewStep, Beat;
    var longer := Beating(trace, w, commands);
    var n := |commands| - 1;
    var before := longer[..|longer| - 1];
    RunOne(start, before, RenewEvent(commands[n], w.heartbeats[n]));
    assert longer == before + [RenewEvent(commands[n], w.heartbeats[n])];
    RenewTells(Run(start, before), commands[n], w.heartbeats[n]);
  }

  lemma CommitWrites(db: Db, id: Id, submitted: Identity, projection: Projection, now: int)
    requires Inv(db)
    ensures CommitStep(db, id, submitted, projection, now).1 == Committed || CommitStep(db, id, submitted, projection, now).0 == db
  {
    hide Inv, CommitTx, ValidIdentity, Acceptable;
    CommitEffect(db, id, submitted, projection, now);
  }

  /** One delivery of a message. Whatever others do in between, the store has only
      seen the transactions of `trace`, and the outcome tells what they did. */
  method Process(store: Store, message: Id, w: World)
    returns (outcome: QueueOutcome, ghost trace: seq<Event>, ghost commands: seq<LeaseCommand>)
    requires store.Valid()
    requires w.runner.RunnerDone? ==> ValidIdentity(w.runner.submitted)
    modifies store
    ensures store.View() == Run(old(store.View()), trace) && store.Valid()
    ensures Tells(outcome, message, w, old(store.View()), trace, commands)
  {
    hide Inv, Step, Run, Acquiring, Beating, AcquireTold, Beat, CommitTold, ValidIdentity, IsRunning, Committing,
         AnswerTo, WroteNothing, IsStarted, IsRenewed;
    ghost var start := store.View();
    commands := [];
    AcquireTellsIt(start, message, w);
    var acquired := AcquireFor(store, message, w, start);
    trace := Acquiring(message, w);
    if !acquired.LeaseGranted? {
      return AcquireOutcome(acquired), trace, commands;
    }
    var running: bool;
    running, trace := StartFor(store, acquired.lease, w, start, trace);
    if !running {
      return RetryStart, trace, commands;
    }
    if !w.contextLoads {
      return RetryContext, trace, commands;
    }
    ghost var started := trace;
    var lost: bool;
    lost, trace, commands := RunHeartbeats(store, acquired.lease, w, start, trace);
    assert HasRun(start, message, w, commands, if lost then true else false);
    assert trace == Ran(start, message, w, commands);
    if w.runner.RunnerThrew? {
      return RetrySupervisor, trace, commands;
    }
    if lost {
      LostTells(start, started, acquired.lease, w, commands);
      return RetryHeartbeat, trace, commands;
    }
    if w.runner.RunnerFailed? {
      return RetrySupervisor, trace, commands;
    }
    outcome, trace := CommitAndReport(store, message, w, start, trace, commands);
  }

  /** Commit the runner's result; a rejection is recorded and must be classified
      as the committer classified it, which it always is. */
  method CommitAndReport(store: Store, message: Id, w: World, ghost start: Db, ghost trace: seq<Event>,
                         ghost commands: seq<LeaseCommand>)
    returns (outcome: QueueOutcome, ghost longer: seq<Event>)
    requires store.View() == Run(start, trace) && store.Valid()
    requires w.runner.RunnerDone? && ValidIdentity(w.runner.submitted)
    requires HasRun(start, message, w, commands, false) && trace == Ran(start, message, w, commands)
    modifies store
    ensures store.View() == Run(start, longer) && store.Valid()
    ensures outcome in {CommittedOutcome, AlreadyCommittedOutcome, RetryRejectionSink, RetryCommit}
    ensures CommitTold(outcome, message, w, start, longer, commands)
  {
    hide Inv, Run, CommitStep, ValidIdentity, HasRun, Ran, HoldsResult;
    longer := ApplyAll(store, w.others(2 + |w.heartbeats|), start, trace);
    if w.committer == CommitterFails {
      return RetryCommit, longer;
    }
    var committed: CommitResult;
    committed, longer := CommitOnce(store, w, start, trace, longer);
    if w.committer == AnswerIsLost {
      return RetryCommit, longer;
    }
    match committed {
      case Committed => return CommittedOutcome, longer;
      case CommitReplayed => return AlreadyCommittedOutcome, longer;
      case _ =>
    }
    if !w.sinkAnswers {
      return RetryRejectionSink, longer;
    }
    var recordedSecurityRelevant := SinkSecurityRelevant(committed);
    if recordedSecurityRelevant != EmitsAudit(committed) {
      return RetryRejectionSink, longer;
    }
    return RetryCommit, longer;
  }

  method CommitOnce(store: Store, w: World, ghost start: Db, ghost trace: seq<Event>, ghost before: seq<Event>)
    returns (committed: CommitResult, ghost longer: seq<Event>)
    requires store.View() == Run(start, before) && store.Valid() && before == trace + w.others(2 + |w.heartbeats|)
    requires w.runner.RunnerDone? && ValidIdentity(w.runner.submitted)
    modifies store
    ensures longer == Committing(trace, w)
    ensures store.View() == Run(start, longer) && store.Valid()
    ensures AnswerTo(start, longer) == OfCommit(committed)
    ensures committed != Committed ==> WroteNothing(start, longer)
    ensures committed in {Committed, CommitReplayed} ==> HoldsResult(Run(start, longer), w)
    ensures EmitsAudit(committed) <==> SinkSecurityRelevant(committed)
  {
    hide Inv, Run, CommitStep, ValidIdentity, EmitsAudit, SinkSecurityRelevant;
    ghost var seen := store.View();
    ghost var e := CommitEvent(w.runner.job, w.runner.submitted, w.runner.projection, w.commitAt);
    CommitTells(seen, w.runner.job, w.runner.submitted, w.runner.projection, w.commitAt);
    CommitWrites(seen, w.runner.job, w.runner.submitted, w.runner.projection, w.commitAt);
    FlagsAgree(seen, w.runner.job, w.runner.submitted, w.runner.projection, w.commitAt);
    committed := store.Commit(w.runner.job, w.runner.submitted, w.runner.projection, w.commitAt);
    RunOne(start, before, e);
    longer := before + [e];
    assert longer[..|longer| - 1] == before;
  }

  lemma NothingRan(db: Db)
    ensures Run(db, []) == db
  {
  }

  lemma FlagsAgree(db: Db, id: Id, submitted: Identity, projection: Projection, now: int)
    requires Inv(db) && ValidIdentity(submitted)
    ensures var r := CommitStep(db, id, submitted, projection, now).1;
            EmitsAudit(r) <==> SinkSecurityRelevant(r)
  {
    hide Inv, CommitStep;
    CommitFlags(db, id, submitted, projection, now);
  }

  /** A message delivered again after its scan ended is acknowledged, and changes
      nothing. */
  lemma RedeliveryIsHarmless(db: Db, id: Id, now: int, a: Id)
    requires Inv(db) && id in db.groups && !LiveJob(db.groups[id].scan.job) && ReadableClock(now)
    ensures AcquireStep(db, id, now, a) == (db, NotAcquirable)
  {
    hide Inv;
    InvGroup(db, id);
    IdOf(id, db.groups[id]);
  }

  lemma IdOf(id: Id, g: ScanGroup)
    requires GroupOk(id, g)
    ensures ValidId(id)
  {
  }
}
