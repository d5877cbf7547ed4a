/** Outcome counters that reach the store exactly once: an active buffer, one
    pending batch with a stable id, and a store whose acknowledgement may be lost. */
module QueueTelemetry {
  import opened Basics

  datatype QueueOutcome =
    | CommittedOutcome
    | AlreadyCommittedOutcome
    | TerminalAcknowledged
    | NotAcquirableAcknowledged
    | RetryLeaseHeld
    | RetryPersistence
    | RetryContext
    | RetryStart
    | RetryHeartbeat
    | RetrySupervisor
    | RetryRejectionSink
    | RetryCommit

  const MAX_COUNT := 2_147_483_647
  const RETENTION: int := 2_592_000

  datatype Alert = Saturated | SecurityPathFailure | ResultIngressFailure | ExecutionFailure | DependencyFailure

  /** The counts of one batch, in the order of the outcomes. */
  datatype Row = Row(
    committed: int, alreadyCommitted: int, terminal: int, notAcquirable: int, leaseHeld: int, persistence: int,
    context: int, start: int, heartbeat: int, supervisor: int, rejectionSink: int, commit: int)

  const NO_COUNTS := Row(0, 0, 0, 0, 0, 0, 0, 0, 0, 0, 0, 0)

  function Count(r: Row, o: QueueOutcome): int {
    match o
    case CommittedOutcome => r.committed
    case AlreadyCommittedOutcome => r.alreadyCommitted
    case TerminalAcknowledged => r.terminal
    case NotAcquirableAcknowledged => r.notAcquirable
    case RetryLeaseHeld => r.leaseHeld
    case RetryPersistence => r.persistence
    case RetryContext => r.context
    case RetryStart => r.start
    case RetryHeartbeat => r.heartbeat
    case RetrySupervisor => r.supervisor
    case RetryRejectionSink => r.rejectionSink
    case RetryCommit => r.commit
  }

  function SetCount(r: Row, o: QueueOutcome, n: int): Row {
    match o
    case CommittedOutcome => r.(committed := n)
    case AlreadyCommittedOutcome => r.(alreadyCommitted := n)
    case TerminalAcknowledged => r.(terminal := n)
    case NotAcquirableAcknowledged => r.(notAcquirable := n)
    case RetryLeaseHeld => r.(leaseHeld := n)
    case RetryPersistence => r.(persistence := n)
    case RetryContext => r.(context := n)
    case RetryStart => r.(start := n)
    case RetryHeartbeat => r.(heartbeat := n)
    case RetrySupervisor => r.(supervisor := n)
    case RetryRejectionSink => r.(rejectionSink := n)
    case RetryCommit => r.(commit := n)
  }

  lemma CountAfterSet(r: Row, o: QueueOutcome, n: int, p: QueueOutcome)
    ensures Count(SetCount(r, o, n), p) == if p == o then n else Count(r, p)
  {
  }

  function Classify(c: Row, saturated: bool): Option<Alert> {
    if saturated then Some(Saturated)
    else if c.rejectionSink > 0 then Some(SecurityPathFailure)
    else if c.commit > 0 then Some(ResultIngressFailure)
    else if c.heartbeat > 0 || c.supervisor > 0 then Some(ExecutionFailure)
    else if c.persistence > 0 || c.context > 0 || c.start > 0 then Some(DependencyFailure)
    else None
  }

  datatype Batch = Batch(id: Id, started: int, finished: int, counts: Row, saturated: bool, alert: Option<Alert>)

  predicate CountsInRange(c: Row) {
    forall o :: 0 <= Count(c, o) <= MAX_COUNT
  }

  predicate ValidBatch(b: Batch) {
    && ValidId(b.id)
    && 0 <= b.started <= b.finished
    && CountsInRange(b.counts)
    && b.counts != NO_COUNTS
    && b.alert == Classify(b.counts, b.saturated)
  }

  /** The table's own constraints on counts and alert. */
  predicate RowConstraints(b: Batch) {
    var c := b.counts;
    && b.started <= b.finished
    && 0 <= c.committed <= MAX_COUNT && 0 <= c.alreadyCommitted <= MAX_COUNT && 0 <= c.terminal <= MAX_COUNT
    && 0 <= c.notAcquirable <= MAX_COUNT && 0 <= c.leaseHeld <= MAX_COUNT && 0 <= c.persistence <= MAX_COUNT
    && 0 <= c.context <= MAX_COUNT && 0 <= c.start <= MAX_COUNT && 0 <= c.heartbeat <= MAX_COUNT
    && 0 <= c.supervisor <= MAX_COUNT && 0 <= c.rejectionSink <= MAX_COUNT && 0 <= c.commit <= MAX_COUNT
    && c.committed + c.alreadyCommitted + c.terminal + c.notAcquirable + c.leaseHeld + c.persistence + c.context
       + c.start + c.heartbeat + c.supervisor + c.rejectionSink + c.commit > 0
    && (|| (b.saturated && b.alert == Some(Saturated))
        || (!b.saturated && c.rejectionSink > 0 && b.alert == Some(SecurityPathFailure))
        || (!b.saturated && c.rejectionSink == 0 && c.commit > 0 && b.alert == Some(ResultIngressFailure))
        || (!b.saturated && c.rejectionSink == 0 && c.commit == 0 && (c.heartbeat > 0 || c.supervisor > 0)
            && b.alert == Some(ExecutionFailure))
        || (!b.saturated && c.rejectionSink == 0 && c.commit == 0 && c.heartbeat == 0 && c.supervisor == 0
            && (c.persistence > 0 || c.context > 0 || c.start > 0) && b.alert == Some(DependencyFailure))
        || (!b.saturated && c.rejectionSink == 0 && c.commit == 0 && c.heartbeat == 0 && c.supervisor == 0
            && c.persistence == 0 && c.context == 0 && c.start == 0 && b.alert.None?))
  }

  /** The application's check and the table's constraints accept the same batches. */
  lemma BatchChecksAgree(b: Batch)
    requires ValidId(b.id) && 0 <= b.started
    ensures ValidBatch(b) <==> RowConstraints(b)
  {
    var c := b.counts;
    if RowConstraints(b) {
      forall o
        ensures 0 <= Count(c, o) <= MAX_COUNT
      {
      }
    }
    if CountsInRange(c) {
      assert 0 <= Count(c, CommittedOutcome) <= MAX_COUNT && 0 <= Count(c, AlreadyCommittedOutcome) <= MAX_COUNT;
      assert 0 <= Count(c, TerminalAcknowledged) <= MAX_COUNT && 0 <= Count(c, NotAcquirableAcknowledged) <= MAX_COUNT;
      assert 0 <= Count(c, RetryLeaseHeld) <= MAX_COUNT && 0 <= Count(c, RetryPersistence) <= MAX_COUNT;
      assert 0 <= Count(c, RetryContext) <= MAX_COUNT && 0 <= Count(c, RetryStart) <= MAX_COUNT;
      assert 0 <= Count(c, RetryHeartbeat) <= MAX_COUNT && 0 <= Count(c, RetrySupervisor) <= MAX_COUNT;
      assert 0 <= Count(c, RetryRejectionSink) <= MAX_COUNT && 0 <= Count(c, RetryCommit) <= MAX_COUNT;
    }
  }

  // ---- the buffer ---------------------------------------------------------

  /** `flushing` while the answer of the store is awaited. */
  datatype Buffer = Buffer(active: Row, startedAt: Option<int>, saturated: bool, pending: Option<Batch>, flushing: bool)

  const EMPTY_BUFFER := Buffer(NO_COUNTS, None, false, None, false)

  /** A reading of the clock, or None when it throws or is not a safe count of seconds. */
  type Clock = Option<int>

  function ClockReading(c: Clock): Option<int> {
    if c.Some? && 0 <= c.value <= MAX_SAFE then c else None
  }

  datatype FlushResult = Empty | Sent(batch: Batch) | Joined | InvalidRuntime

  function RecordSpec(b: Buffer, o: QueueOutcome, clock: Clock): Option<Buffer> {
    if b.startedAt.None? && ClockReading(clock).None? then None
    else
      var started := if b.startedAt.Some? then b.startedAt else ClockReading(clock);
      if Count(b.active, o) == MAX_COUNT then Some(b.(startedAt := started, saturated := true))
      else Some(b.(startedAt := started, active := SetCount(b.active, o, Count(b.active, o) + 1)))
  }

  function BatchFrom(b: Buffer, id: Id, finished: int): Batch
    requires b.startedAt.Some?
  {
    Batch(id, b.startedAt.value, finished, b.active, b.saturated, Classify(b.active, b.saturated))
  }

  /** The first half of a flush, up to handing the pending batch to the store. */
  function BeginSpec(b: Buffer, id: Option<Id>, clock: Clock): (Buffer, FlushResult) {
    if b.flushing then (b, Joined)
    else if b.pending.Some? then (b.(flushing := true), Sent(b.pending.value))
    else if b.startedAt.None? then (b, Empty)
    else if id.None? || clock.None? then (b, InvalidRuntime)
    else
      var finished := if ClockReading(clock).Some? then clock.value else -1;
      var batch := BatchFrom(b, id.value, finished);
      if !ValidBatch(batch) then (b, InvalidRuntime)
      else (Buffer(NO_COUNTS, None, false, Some(batch), true), Sent(batch))
  }

  /** The second half: the store answered, or did not. */
  function FinishSpec(b: Buffer, acknowledged: bool): Buffer {
    if !b.flushing then b
    else if acknowledged then b.(pending := None, flushing := false)
    else b.(flushing := false)
  }

  /** The collector as an object whose counters are updated in place. */
  class Collector {
    var active: Row
    var activeStartedAt: Option<int>
    var activeSaturated: bool
    var pending: Option<Batch>
    var flushing: bool

    constructor ()
      ensures View() == EMPTY_BUFFER
    {
      active, activeStartedAt, activeSaturated, pending, flushing := NO_COUNTS, None, false, None, false;
    }

    ghost function View(): Buffer
      reads this
    {
      Buffer(active, activeStartedAt, activeSaturated, pending, flushing)
    }

    method Record(o: QueueOutcome, clock: Clock) returns (recorded: bool)
      modifies this
      ensures match RecordSpec(old(View()), o, clock)
              case None => !recorded && View() == old(View())
              case Some(after) => recorded && View() == after
    {
      if activeStartedAt.None? {
        if clock.None? || clock.value < 0 || clock.value > MAX_SAFE {
          return false;
        }
        activeStartedAt := clock;
      }
      if Count(active, o) == MAX_COUNT {
        activeSaturated := true;
      } else {
        active := SetCount(active, o, Count(active, o) + 1);
      }
      return true;
    }

    method BeginFlush(id: Option<Id>, clock: Clock) returns (r: FlushResult)
      modifies this
      ensures (View(), r) == BeginSpec(old(View()), id, clock)
    {
      if flushing {
        return Joined;
      }
      if pending.None? {
        if activeStartedAt.None? {
          return Empty;
        }
        if id.None? || clock.None? {
          return InvalidRuntime;
        }
        var finished := if 0 <= clock.value <= MAX_SAFE then clock.value else -1;
        var record := Batch(id.value, activeStartedAt.value, finished, active, activeSaturated,
                            Classify(active, activeSaturated));
        if !ValidBatch(record) {
          return InvalidRuntime;
        }
        pending := Some(record);
        active := NO_COUNTS;
        activeStartedAt := None;
        activeSaturated := false;
      }
      flushing := true;
      return Sent(pending.value);
    }

    method FinishFlush(acknowledged: bool)
      modifies this
      ensures View() == FinishSpec(old(View()), acknowledged)
    {
      if !flushing {
        return;
      }
      if acknowledged {
        pending := None;
      }
      flushing := false;
    }
  }

  // ---- the store ----------------------------------------------------------

  predicate Expired(b: Batch, now: int) {
    b.finished + RETENTION <= now
  }

  /** Delete what is past retention, then insert unless the id is there; None when
      it is there with other contents. The flag says it was a duplicate. */
  function RecordAndPrune(table: map<Id, Batch>, b: Batch): Option<(map<Id, Batch>, bool)> {
    var kept := map id | id in table && !Expired(table[id], b.finished) :: table[id];
    if b.id !in kept then Some((kept[b.id := b], false))
    else if kept[b.id] == b then Some((kept, true))
    else None
  }

  predicate Holds(table: map<Id, Batch>, b: Batch) {
    b.id in table && table[b.id] == b
  }

  /** What the store answers: a duplicate exactly when it holds that very batch,
      a refusal exactly when it keeps another one under the id; and what it keeps:
      the batches not yet thirty days old, and this one. */
  lemma StoreAnswers(table: map<Id, Batch>, b: Batch)
    ensures var r := RecordAndPrune(table, b);
            && (r.Some? && r.value.1 <==> Holds(table, b))
            && (r.None? <==> b.id in table && table[b.id] != b && !Expired(table[b.id], b.finished))
            && (r.Some? ==> Holds(r.value.0, b))
            && (r.Some? ==> forall id | id in r.value.0 :: id == b.id || (id in table && r.value.0[id] == table[id]))
            && (r.Some? ==> forall id | id != b.id :: id in r.value.0 <==> id in table && table[id].finished + 2_592_000 > b.finished)
  {
  }

  // ---- runs ---------------------------------------------------------------

  /** `history` lists the batches in the order the store inserted them; `delivered`
      says that the store has committed the batch of the current flush, `repeated`
      that it already held the pending batch when that was built. */
  datatype System = System(buffer: Buffer, table: map<Id, Batch>, history: seq<Batch>, delivered: bool, repeated: bool)

  const START := System(EMPTY_BUFFER, map[], [], false, false)

  /** Deliver: the store's transaction for the batch in flight commits. Answer:
      the flush ends, with the acknowledgement or, even after a commit, without. */
  datatype Action =
    | DoRecord(outcome: QueueOutcome, clock: Clock)
    | DoBegin(id: Option<Id>, clock: Clock)
    | DoDeliver
    | DoAnswer(lost: bool)

  function Act(s: System, a: Action): System {
    match a
    case DoRecord(o, clock) =>
      (match RecordSpec(s.buffer, o, clock)
       case None => s
       case Some(after) => s.(buffer := after))
    case DoBegin(id, clock) =>
      var (after, r) := BeginSpec(s.buffer, id, clock);
      s.(buffer := after,
         delivered := if r.Sent? then false else s.delivered,
         repeated := if Builds(s, a) then Repeats(s, a) else s.repeated)
    case DoDeliver =>
      if !s.buffer.flushing || s.buffer.pending.None? then s
      else
        var b := s.buffer.pending.value;
        (match RecordAndPrune(s.table, b)
         case None => s
         case Some((table, duplicate)) =>
           s.(table := table, delivered := true, history := if duplicate then s.history else s.history + [b]))
    case DoAnswer(lost) => s.(buffer := FinishSpec(s.buffer, s.delivered && !lost))
  }

  /** The action builds a new batch. */
  predicate Builds(s: System, a: Action) {
    a.DoBegin? && s.buffer.pending.None? && BeginSpec(s.buffer, a.id, a.clock).1.Sent?
  }

  /** The action builds a batch that the store already holds, to the last field. */
  predicate Repeats(s: System, a: Action) {
    Builds(s, a) && Holds(s.table, BeginSpec(s.buffer, a.id, a.clock).1.batch)
  }

  /** The action drops a pending batch that was repeated: the store took it for
      the one it held. */
  predicate Forgets(s: System, a: Action) {
    a.DoAnswer? && !a.lost && s.buffer.flushing && s.delivered && s.repeated
  }

  function Runs(actions: seq<Action>): System {
    if actions == [] then START else Act(Runs(actions[..|actions| - 1]), actions[|actions| - 1])
  }

  /** The action records one occurrence of the outcome. */
  predicate Records(s: System, a: Action, o: QueueOutcome) {
    a.DoRecord? && a.outcome == o && RecordSpec(s.buffer, o, a.clock).Some?
  }

  /** How often an outcome was recorded. */
  function Recorded(actions: seq<Action>, o: QueueOutcome): nat {
    if actions == [] then 0
    else
      var init := actions[..|actions| - 1];
      var last := actions[|actions| - 1];
      Recorded(init, o)
      + (if Records(Runs(init), last, o) then 1 else 0)
  }

  function StoredTotal(history: seq<Batch>, o: QueueOutcome): int {
    if history == [] then 0
    else StoredTotal(history[..|history| - 1], o) + Count(history[|history| - 1].counts, o)
  }

  /** The pending batch's share, unless the store has inserted it. */
  function PendingTotal(s: System, o: QueueOutcome): int {
    if s.buffer.pending.Some? && (s.repeated || !Holds(s.table, s.buffer.pending.value))
    then Count(s.buffer.pending.value.counts, o)
    else 0
  }

  function Total(s: System, o: QueueOutcome): int {
    StoredTotal(s.history, o) + PendingTotal(s, o) + Count(s.buffer.active, o)
  }

  /** What the action drops of an outcome. */
  function Dropped(s: System, a: Action, o: QueueOutcome): int {
    if Forgets(s, a) && s.buffer.pending.Some? then Count(s.buffer.pending.value.counts, o) else 0
  }

  function Lost(actions: seq<Action>, o: QueueOutcome): int {
    if actions == [] then 0
    else Lost(actions[..|actions| - 1], o) + Dropped(Runs(actions[..|actions| - 1]), actions[|actions| - 1], o)
  }

  /** Some batch, or the buffer, is marked as saturated. */
  ghost predicate AnySaturated(s: System) {
    || s.buffer.saturated
    || (s.buffer.pending.Some? && s.buffer.pending.value.saturated)
    || SaturatedIn(s.history)
  }

  ghost predicate SaturatedIn(history: seq<Batch>) {
    exists i | 0 <= i < |history| :: history[i].saturated
  }

  ghost predicate BufferOk(b: Buffer) {
    && CountsInRange(b.active)
    && (b.startedAt.None? ==> b.active == NO_COUNTS && !b.saturated)
    && (b.startedAt.Some? ==> 0 <= b.startedAt.value && b.active != NO_COUNTS)
    && (b.pending.Some? ==> ValidBatch(b.pending.value))
    && (b.flushing ==> b.pending.Some?)
  }

  ghost predicate SystemOk(s: System) {
    && BufferOk(s.buffer)
    && (forall id | id in s.table :: s.table[id].id == id && s.table[id] in s.history)
    && (s.buffer.pending.Some? && s.repeated ==> Holds(s.table, s.buffer.pending.value))
    && (s.delivered && s.buffer.flushing ==> Holds(s.table, s.buffer.pending.value))
  }

  lemma RecordKeeps(b: Buffer, o: QueueOutcome, clock: Clock)
    requires BufferOk(b) && RecordSpec(b, o, clock).Some?
    ensures BufferOk(RecordSpec(b, o, clock).value)
    ensures var b' := RecordSpec(b, o, clock).value;
            && b'.pending == b.pending && b'.flushing == b.flushing && (b.saturated ==> b'.saturated)
            && (Count(b.active, o) == MAX_COUNT ==> b'.saturated)
            && (forall p ::
                  Count(b'.active, p) == Count(b.active, p) + (if p == o && Count(b.active, o) < MAX_COUNT then 1 else 0))
  {
    hide ValidBatch;
    var b' := RecordSpec(b, o, clock).value;
    assert 0 <= Count(b.active, o) <= MAX_COUNT;
    forall p
      ensures Count(b'.active, p) == Count(b.active, p) + (if p == o && Count(b.active, o) < MAX_COUNT then 1 else 0)
      ensures 0 <= Count(b'.active, p) <= MAX_COUNT
    {
      assert 0 <= Count(b.active, p) <= MAX_COUNT;
      CountAfterSet(b.active, o, Count(b.active, o) + 1, p);
    }
    assert Count(b'.active, o) > 0 && Count(NO_COUNTS, o) == 0;
  }

  /** A batch can be built unless the id or the clock is bad; nothing is lost when
      it cannot. */
  lemma BeginKeeps(b: Buffer, id: Option<Id>, clock: Clock)
    requires BufferOk(b)
    ensures BufferOk(BeginSpec(b, id, clock).0)
    ensures BeginSpec(b, id, clock).1 == InvalidRuntime <==>
              && !b.flushing && b.pending.None? && b.startedAt.Some?
              && !(id.Some? && ValidId(id.value) && ClockReading(clock).Some? && b.startedAt.value <= clock.value)
    ensures !BeginSpec(b, id, clock).1.Sent? ==> BeginSpec(b, id, clock).0 == b
    ensures b.pending.Some? && !b.flushing ==> BeginSpec(b, id, clock) == (b.(flushing := true), Sent(b.pending.value))
  {
  }

  /** What building does to the buffer. */
  lemma BuildMoves(s: System, a: Action)
    requires Builds(s, a)
    ensures var (after, r) := BeginSpec(s.buffer, a.id, a.clock);
            && a.id.Some? && r.batch.id == a.id.value && r.batch.counts == s.buffer.active
            && r.batch.saturated == s.buffer.saturated
            && after == Buffer(NO_COUNTS, None, false, Some(r.batch), true)
  {
  }

  lemma {:induction false} RunOk(actions: seq<Action>)
    ensures SystemOk(Runs(actions))
  {
    hide RecordSpec, BeginSpec, ValidBatch, CountsInRange;
    if actions == [] {
      StartOk();
    } else {
      var init := actions[..|actions| - 1];
      RunOk(init);
      ActOk(Runs(init), actions[|actions| - 1]);
    }
  }

  lemma StartOk()
    ensures SystemOk(START)
  {
  }

  lemma ActOk(s: System, a: Action)
    requires SystemOk(s)
    ensures SystemOk(Act(s, a))
  {
    hide RecordSpec, BufferOk, RecordAndPrune, BeginSpec;
    match a
    case DoRecord(o, clock) =>
      if RecordSpec(s.buffer, o, clock).Some? {
        RecordKeeps(s.buffer, o, clock);
      }
    case DoBegin(id, clock) =>
      BeginKeeps(s.buffer, id, clock);
      BeginOrNot(s.buffer, id, clock);
    case DoDeliver =>
      if s.buffer.flushing && s.buffer.pending.Some? {
        StoreAnswers(s.table, s.buffer.pending.value);
      }
    case DoAnswer(lost) => FinishKeeps(s.buffer, s.delivered && !lost);
  }

  /** A flush sends what is pending afterwards, and otherwise changes nothing. */
  lemma BeginOrNot(b: Buffer, id: Option<Id>, clock: Clock)
    ensures var (after, r) := BeginSpec(b, id, clock);
            && (r.Sent? ==> after.pending == Some(r.batch) && (b.pending.Some? ==> after == b.(flushing := true)))
            && (!r.Sent? ==> after == b)
  {
  }

  lemma FinishKeeps(b: Buffer, acknowledged: bool)
    requires BufferOk(b)
    ensures BufferOk(FinishSpec(b, acknowledged))
  {
  }

  // ---- every recording is accounted for -----------------------------------

  lemma HistoryGrows(history: seq<Batch>, b: Batch, o: QueueOutcome)
    ensures StoredTotal(history + [b], o) == StoredTotal(history, o) + Count(b.counts, o)
    ensures SaturatedIn(history) || b.saturated ==> SaturatedIn(history + [b])
  {
    assert (history + [b])[..|history|] == history && (history + [b])[|history|] == b;
    if i :| 0 <= i < |history| && history[i].saturated {
      assert (history + [b])[i] == history[i];
    }
  }

  /** The recording finds its counter full. */
  predicate Overflows(s: System, a: Action, o: QueueOutcome) {
    Records(s, a, o) && Count(s.buffer.active, o) >= MAX_COUNT
  }

  /** One action adds to the total what it records, or marks saturation, and takes
      off what it drops. */
  ghost predicate Accounts(s: System, a: Action, o: QueueOutcome) {
    && Total(Act(s, a), o) + Dropped(s, a, o)
       == Total(s, o) + (if Records(s, a, o) && !Overflows(s, a, o) then 1 else 0)
    && (AnySaturated(s) || Overflows(s, a, o) ==> AnySaturated(Act(s, a)))
  }

  lemma RecordAccounts(s: System, p: QueueOutcome, clock: Clock, o: QueueOutcome)
    requires SystemOk(s)
    ensures Accounts(s, DoRecord(p, clock), o)
  {
    hide ValidBatch, RecordSpec, CountsInRange, Count, StoredTotal, Holds, SaturatedIn;
    if RecordSpec(s.buffer, p, clock).Some? {
      RecordKeeps(s.buffer, p, clock);
      MaxReached(s.buffer, p);
    }
  }

  lemma BeginAccounts(s: System, id: Option<Id>, clock: Clock, o: QueueOutcome)
    requires SystemOk(s)
    ensures Accounts(s, DoBegin(id, clock), o)
  {
    hide ValidBatch, CountsInRange, Count, BeginSpec, StoredTotal, SaturatedIn, Holds;
    NothingCounted(o);
    BeginOrNot(s.buffer, id, clock);
    BeginKeeps(s.buffer, id, clock);
    if Builds(s, DoBegin(id, clock)) {
      BuildMoves(s, DoBegin(id, clock));
    }
  }

  /** The store inserts the pending batch the first time, and never again. */
  lemma DeliverAccounts(s: System, o: QueueOutcome)
    requires SystemOk(s)
    ensures Accounts(s, DoDeliver, o)
  {
    hide Count, RecordAndPrune, StoredTotal, SaturatedIn, BufferOk, Holds;
    if s.buffer.flushing && s.buffer.pending.Some? {
      StoreAnswers(s.table, s.buffer.pending.value);
      HistoryGrows(s.history, s.buffer.pending.value, o);
    }
  }

  lemma Flagged(history: seq<Batch>, b: Batch)
    ensures b in history && b.saturated ==> SaturatedIn(history)
  {
  }

  /** A batch is let go only when the store holds it. */
  lemma AnswerTotal(s: System, lost: bool, o: QueueOutcome)
    requires SystemOk(s)
    ensures Total(Act(s, DoAnswer(lost)), o) + Dropped(s, DoAnswer(lost), o) == Total(s, o)
  {
    hide BufferOk, Count, StoredTotal, SaturatedIn, Holds;
  }

  lemma AnswerFlags(s: System, lost: bool)
    requires SystemOk(s) && AnySaturated(s)
    ensures AnySaturated(Act(s, DoAnswer(lost)))
  {
    hide BufferOk, SaturatedIn;
    if s.delivered && s.buffer.flushing && s.buffer.pending.Some? {
      Flagged(s.history, s.buffer.pending.value);
    }
  }

  lemma AnswerAccounts(s: System, lost: bool, o: QueueOutcome)
    requires SystemOk(s)
    ensures Accounts(s, DoAnswer(lost), o)
  {
    hide SystemOk, Total, AnySaturated, Dropped, Act, Count;
    AnswerTotal(s, lost, o);
    if AnySaturated(s) {
      AnswerFlags(s, lost);
    }
  }

  lemma ActAccounts(s: System, a: Action, o: QueueOutcome)
    requires SystemOk(s)
    ensures Accounts(s, a, o)
  {
    hide SystemOk, Accounts;
    match a
    case DoRecord(p, clock) => RecordAccounts(s, p, clock, o);
    case DoBegin(id, clock) => BeginAccounts(s, id, clock, o);
    case DoDeliver => DeliverAccounts(s, o);
    case DoAnswer(lost) => AnswerAccounts(s, lost, o);
  }

  lemma MaxReached(b: Buffer, o: QueueOutcome)
    requires BufferOk(b)
    ensures Count(b.active, o) <= MAX_COUNT
  {
  }

  lemma NothingCounted(o: QueueOutcome)
    ensures Count(NO_COUNTS, o) == 0
  {
  }

  /** For any recordings, flushes, lost acknowledgements, store failures and ids:
      what was recorded is what is stored, pending and active together, plus what
      was dropped as a repetition; short of it only when a batch says it saturated. */
  lemma {:induction false} EveryCountIsSomewhere(actions: seq<Action>, o: QueueOutcome)
    ensures Total(Runs(actions), o) + Lost(actions, o) <= Recorded(actions, o)
    ensures !AnySaturated(Runs(actions)) ==> Total(Runs(actions), o) + Lost(actions, o) == Recorded(actions, o)
  {
    hide Act, Total, AnySaturated, SystemOk, Dropped;
    if actions == [] {
      StartTotal(o);
    } else {
      var init := actions[..|actions| - 1];
      EveryCountIsSomewhere(init, o);
      RunOk(init);
      ActAccounts(Runs(init), actions[|actions| - 1], o);
    }
  }

  lemma StartTotal(o: QueueOutcome)
    ensures Total(START, o) == 0
  {
  }

  // ---- when something is dropped ------------------------------------------

  /** A batch that is pending counts something. */
  lemma PendingCounts(b: Batch) returns (o: QueueOutcome)
    requires ValidBatch(b)
    ensures Count(b.counts, o) > 0
  {
    if forall p :: Count(b.counts, p) == 0 {
      AllZero(b.counts);
      assert false;
    } else {
      o :| Count(b.counts, o) != 0;
      ValidCounts(b, o);
    }
  }

  lemma AllZero(c: Row)
    requires forall o :: Count(c, o) == 0
    ensures c == NO_COUNTS
  {
    assert Count(c, CommittedOutcome) == 0 && Count(c, AlreadyCommittedOutcome) == 0 && Count(c, TerminalAcknowledged) == 0;
    assert Count(c, NotAcquirableAcknowledged) == 0 && Count(c, RetryLeaseHeld) == 0 && Count(c, RetryPersistence) == 0;
    assert Count(c, RetryContext) == 0 && Count(c, RetryStart) == 0 && Count(c, RetryHeartbeat) == 0;
    assert Count(c, RetrySupervisor) == 0 && Count(c, RetryRejectionSink) == 0 && Count(c, RetryCommit) == 0;
  }

  ghost predicate ForgetsNothing(actions: seq<Action>) {
    forall n | 0 <= n < |actions| :: !Forgets(Runs(actions[..n]), actions[n])
  }

  lemma {:induction false} LostIsNatural(actions: seq<Action>, o: QueueOutcome)
    ensures Lost(actions, o) >= 0
  {
    hide Forgets, ValidBatch, Count;
    if actions != [] {
      var init := actions[..|actions| - 1];
      LostIsNatural(init, o);
      RunOk(init);
      if Runs(init).buffer.pending.Some? {
        ValidCounts(Runs(init).buffer.pending.value, o);
      }
    }
  }

  lemma ValidCounts(b: Batch, o: QueueOutcome)
    requires ValidBatch(b)
    ensures 0 <= Count(b.counts, o)
  {
  }

  lemma {:induction false} LosesNone(actions: seq<Action>, o: QueueOutcome)
    requires ForgetsNothing(actions)
    ensures Lost(actions, o) == 0
  {
    hide Forgets, Runs, Count;
    if actions != [] {
      ForgetsPrefix(actions);
      LosesNone(actions[..|actions| - 1], o);
    }
  }

  lemma {:induction false} LosesSome(actions: seq<Action>) returns (o: QueueOutcome)
    requires !ForgetsNothing(actions)
    ensures Lost(actions, o) > 0
  {
    hide ValidBatch, Count, Act, BufferOk, Holds;
    var init, last := actions[..|actions| - 1], actions[|actions| - 1];
    ForgetsPrefix(actions);
    RunOk(init);
    if Forgets(Runs(init), last) {
      PendingIsValid(Runs(init));
      o := PendingCounts(Runs(init).buffer.pending.value);
      LostIsNatural(init, o);
    } else {
      o := LosesSome(init);
    }
  }

  lemma PendingIsValid(s: System)
    requires SystemOk(s) && s.buffer.flushing
    ensures s.buffer.pending.Some? && ValidBatch(s.buffer.pending.value)
  {
  }

  /** Counts are lost exactly when an acknowledgement is taken for a batch which
      the store had held already when it was built. */
  lemma LosesExactlyRepeats(actions: seq<Action>)
    ensures (forall o :: Lost(actions, o) == 0) <==> ForgetsNothing(actions)
  {
    hide ForgetsNothing;
    if ForgetsNothing(actions) {
      forall o
        ensures Lost(actions, o) == 0
      {
        LosesNone(actions, o);
      }
    } else {
      var o := LosesSome(actions);
    }
  }

  lemma ForgetsPrefix(actions: seq<Action>)
    requires actions != []
    ensures var init := actions[..|actions| - 1];
            ForgetsNothing(actions) <==> ForgetsNothing(init) && !Forgets(Runs(init), actions[|actions| - 1])
  {
    hide Forgets, Runs;
    var init := actions[..|actions| - 1];
    assert forall n | 0 <= n < |init| :: init[..n] == actions[..n] && init[n] == actions[n];
    if ForgetsNothing(actions) {
      forall n | 0 <= n < |init|
        ensures !Forgets(Runs(init[..n]), init[n])
      {
        assert !Forgets(Runs(actions[..n]), actions[n]);
      }
    }
  }

  /** No batch is built that the store already holds. */
  ghost predicate NothingRepeats(actions: seq<Action>) {
    forall n | 0 <= n < |actions| :: !Repeats(Runs(actions[..n]), actions[n])
  }

  lemma {:induction false} NeverRepeated(actions: seq<Action>)
    requires NothingRepeats(actions)
    ensures !Runs(actions).repeated
  {
    hide Repeats, RecordSpec, BeginSpec, RecordAndPrune;
    if actions != [] {
      var init := actions[..|actions| - 1];
      assert forall n | 0 <= n < |init| :: init[..n] == actions[..n];
      NeverRepeated(init);
    }
  }

  /** The id source never gives an id under which the store keeps a batch. */
  ghost predicate UnusedIds(actions: seq<Action>) {
    forall n | 0 <= n < |actions| && actions[n].DoBegin? && actions[n].id.Some? ::
      actions[n].id.value !in Runs(actions[..n]).table
  }

  /** Exactly once: as long as no batch is built which the store already holds, in
      particular with unused ids, what was recorded is what is stored, pending and
      active together, and retries never count twice. */
  lemma ExactlyOnceTelemetry(actions: seq<Action>, o: QueueOutcome)
    ensures UnusedIds(actions) ==> NothingRepeats(actions)
    ensures NothingRepeats(actions) ==>
              && Total(Runs(actions), o) <= Recorded(actions, o)
              && (!AnySaturated(Runs(actions)) ==> Total(Runs(actions), o) == Recorded(actions, o))
  {
    hide Total, AnySaturated, Runs, BeginSpec;
    if UnusedIds(actions) {
      forall n | 0 <= n < |actions|
        ensures !Repeats(Runs(actions[..n]), actions[n])
      {
        if Builds(Runs(actions[..n]), actions[n]) {
          BuildMoves(Runs(actions[..n]), actions[n]);
        }
      }
    }
    EveryCountIsSomewhere(actions, o);
    if NothingRepeats(actions) {
      forall n | 0 <= n < |actions|
        ensures !Forgets(Runs(actions[..n]), actions[n])
      {
        assert forall m | 0 <= m < n :: actions[..n][..m] == actions[..m];
        NeverRepeated(actions[..n]);
      }
      LosesExactlyRepeats(actions);
    }
  }

  /** A batch that the store already holds is acknowledged without being counted:
      delivered and answered, exactly its counts are gone. */
  lemma RepeatLosesItsCounts(s: System, a: Action, o: QueueOutcome)
    requires SystemOk(s) && Repeats(s, a)
    ensures Total(Act(Act(Act(s, a), DoDeliver), DoAnswer(false)), o) == Total(s, o) - Count(s.buffer.active, o)
  {
    hide Count, BeginSpec, Total, RecordAndPrune, ValidBatch, CountsInRange;
    BuildMoves(s, a);
    ActOk(s, a);
    ActAccounts(s, a, o);
    var sent := Act(s, a);
    StoreAnswers(sent.table, sent.buffer.pending.value);
    ActOk(sent, DoDeliver);
    ActAccounts(sent, DoDeliver, o);
    ActAccounts(Act(sent, DoDeliver), DoAnswer(false), o);
  }

  /** The store keeps another batch under the pending one's id. */
  ghost predicate Clashes(s: System) {
    && s.buffer.pending.Some?
    && s.buffer.pending.value.id in s.table
    && s.table[s.buffer.pending.value.id] != s.buffer.pending.value
    && !Expired(s.table[s.buffer.pending.value.id], s.buffer.pending.value.finished)
  }

  /** An id repeated with other contents loses nothing, but is refused for ever:
      the batch stays pending whatever follows. */
  lemma {:induction false} ClashStaysPending(actions: seq<Action>, more: seq<Action>)
    requires Clashes(Runs(actions))
    ensures Clashes(Runs(actions + more))
    ensures Runs(actions + more).buffer.pending == Runs(actions).buffer.pending
    ensures Runs(actions + more).history == Runs(actions).history
    decreases |more|
  {
    hide RecordSpec, BeginSpec, BufferOk;
    if more == [] {
      assert actions + more == actions;
    } else {
      var init := more[..|more| - 1];
      ClashStaysPending(actions, init);
      assert (actions + more)[..|actions + more| - 1] == actions + init;
      RunOk(actions + init);
      ClashStep(Runs(actions + init), more[|more| - 1]);
    }
  }

  lemma ClashStep(s: System, a: Action)
    requires SystemOk(s) && Clashes(s)
    ensures Clashes(Act(s, a)) && Act(s, a).buffer.pending == s.buffer.pending && Act(s, a).history == s.history
  {
    hide RecordSpec, BeginSpec, BufferOk, RecordAndPrune, Expired;
    match a
    case DoRecord(o, clock) =>
      if RecordSpec(s.buffer, o, clock).Some? {
        RecordTouches(s.buffer, o, clock);
      }
    case DoBegin(id, clock) => BeginOrNot(s.buffer, id, clock);
    case DoDeliver => StoreAnswers(s.table, s.buffer.pending.value);
    case DoAnswer(lost) =>
  }

  lemma RecordTouches(b: Buffer, o: QueueOutcome, clock: Clock)
    requires RecordSpec(b, o, clock).Some?
    ensures RecordSpec(b, o, clock).value.pending == b.pending
  {
  }

  /** A retry sends the very batch that is pending, and it stays pending until the
      store has it and says so. */
  lemma RetriesAreIdentical(actions: seq<Action>, a: Action)
    requires Runs(actions).buffer.pending.Some?
    ensures var s, s' := Runs(actions), Runs(actions + [a]);
            && (a.DoBegin? && !s.buffer.flushing ==>
                  BeginSpec(s.buffer, a.id, a.clock).1 == Sent(s.buffer.pending.value))
            && (s'.buffer.pending == s.buffer.pending
                || (s'.buffer.pending.None? && s.buffer.pending.value in s'.history))
  {
    hide ValidBatch;
    RunOk(actions);
    assert (actions + [a])[..|actions|] == actions && (actions + [a])[|actions|] == a;
  }

  // ---- what the buffer and a batch hold -----------------------------------

  /** Recordings of the outcome since the last batch was built. */
  function RecordedSince(actions: seq<Action>, o: QueueOutcome): nat {
    if actions == [] then 0
    else
      var init := actions[..|actions| - 1];
      var last := actions[|actions| - 1];
      if Builds(Runs(init), last) then 0
      else RecordedSince(init, o) + (if Records(Runs(init), last, o) then 1 else 0)
  }

  /** The clock reading of the first recording since the last batch was built. */
  function FirstSince(actions: seq<Action>): Option<int> {
    if actions == [] then None
    else
      var init := actions[..|actions| - 1];
      var last := actions[|actions| - 1];
      if Builds(Runs(init), last) then None
      else if FirstSince(init).None? && last.DoRecord? then ClockReading(last.clock)
      else FirstSince(init)
  }

  /** The active counters hold what was recorded since the last batch, up to the
      maximum, since the first of these recordings, and are marked exactly when one
      of them would have passed it. */
  ghost predicate BufferHolds(actions: seq<Action>) {
    var b := Runs(actions).buffer;
    && (forall o :: Count(b.active, o) == Min(RecordedSince(actions, o), 2_147_483_647))
    && b.startedAt == FirstSince(actions)
    && (b.saturated <==> exists o :: RecordedSince(actions, o) > 2_147_483_647)
  }

  lemma {:induction false} BufferTells(actions: seq<Action>)
    ensures BufferHolds(actions)
  {
    hide ValidBatch, CountsInRange, Act, Builds, RecordSpec, BeginSpec, Count, Records;
    if actions == [] {
      forall o
        ensures Count(NO_COUNTS, o) == 0
      {
        NothingCounted(o);
      }
    } else {
      var init, last := actions[..|actions| - 1], actions[|actions| - 1];
      BufferTells(init);
      RunOk(init);
      match last
      case DoRecord(p, clock) => RecordTells(actions);
      case DoBegin(id, clock) => BeginTells(actions);
      case DoDeliver => OtherTells(actions);
      case DoAnswer(lost) => OtherTells(actions);
    }
  }

  lemma RecordTells(actions: seq<Action>)
    requires actions != [] && actions[|actions| - 1].DoRecord? && BufferHolds(actions[..|actions| - 1])
    requires SystemOk(Runs(actions[..|actions| - 1]))
    ensures BufferHolds(actions)
  {
    hide ValidBatch, CountsInRange, BeginSpec, Count, SystemOk, RecordSpec;
    var init, last := actions[..|actions| - 1], actions[|actions| - 1];
    var b := Runs(init).buffer;
    RecordParts(b, last.outcome, last.clock);
    if RecordSpec(b, last.outcome, last.clock).Some? {
      OkBuffer(Runs(init));
      RecordKeeps(b, last.outcome, last.clock);
      assert RecordedSince(actions, last.outcome) == RecordedSince(init, last.outcome) + 1;
      forall o
        ensures RecordedSince(actions, o) == RecordedSince(init, o) + (if o == last.outcome then 1 else 0)
      {
      }
    } else {
      forall o
        ensures RecordedSince(actions, o) == RecordedSince(init, o)
      {
      }
    }
  }

  lemma OkBuffer(s: System)
    requires SystemOk(s)
    ensures BufferOk(s.buffer)
  {
  }

  lemma RecordParts(b: Buffer, o: QueueOutcome, clock: Clock)
    ensures RecordSpec(b, o, clock).None? <==> b.startedAt.None? && ClockReading(clock).None?
    ensures RecordSpec(b, o, clock).Some? ==>
              var b' := RecordSpec(b, o, clock).value;
              && b'.startedAt == (if b.startedAt.Some? then b.startedAt else ClockReading(clock))
              && (b'.saturated <==> b.saturated || Count(b.active, o) == MAX_COUNT)
  {
    hide Count, SetCount;
  }

  lemma BeginTells(actions: seq<Action>)
    requires actions != [] && actions[|actions| - 1].DoBegin? && BufferHolds(actions[..|actions| - 1])
    ensures BufferHolds(actions)
  {
    hide ValidBatch, CountsInRange, BeginSpec, Count;
    var init, last := actions[..|actions| - 1], actions[|actions| - 1];
    BeginOrNot(Runs(init).buffer, last.id, last.clock);
    if Builds(Runs(init), last) {
      BuildMoves(Runs(init), last);
      forall o
        ensures Count(NO_COUNTS, o) == 0 && RecordedSince(actions, o) == 0
      {
        NothingCounted(o);
      }
    } else {
      forall o
        ensures RecordedSince(actions, o) == RecordedSince(init, o)
      {
      }
    }
  }

  lemma OtherTells(actions: seq<Action>)
    requires actions != [] && (actions[|actions| - 1].DoDeliver? || actions[|actions| - 1].DoAnswer?)
    requires BufferHolds(actions[..|actions| - 1])
    ensures BufferHolds(actions)
  {
    hide ValidBatch, CountsInRange, BeginSpec, Count, RecordAndPrune;
    var init := actions[..|actions| - 1];
    forall o
      ensures RecordedSince(actions, o) == RecordedSince(init, o)
    {
    }
  }

  /** Every answer of a flush exactly when its reason holds, and every field of the
      batch that is built. */
  lemma FlushAnswers(b: Buffer, id: Option<Id>, clock: Clock)
    requires BufferOk(b)
    ensures var (after, r) := BeginSpec(b, id, clock);
            && (r == Joined <==> b.flushing)
            && (r == Empty <==> !b.flushing && b.pending.None? && b.startedAt.None?)
            && (r.Sent? <==>
                  && !b.flushing
                  && (b.pending.Some?
                      || (b.startedAt.Some? && id.Some? && ValidId(id.value) && ClockReading(clock).Some?
                          && b.startedAt.value <= clock.value)))
            && (r.Sent? && b.pending.None? ==>
                  && r.batch.id == id.value && Some(r.batch.started) == b.startedAt && Some(r.batch.finished) == clock
                  && r.batch.counts == b.active && r.batch.saturated == b.saturated && RowConstraints(r.batch))
  {
    hide RowConstraints, CountsInRange;
    BeginKeeps(b, id, clock);
    if BeginSpec(b, id, clock).1.Sent? && b.pending.None? {
      BatchChecksAgree(BeginSpec(b, id, clock).1.batch);
    }
  }

  const ONE := NO_COUNTS.(committed := 1)
  const ONE_BATCH := Batch("a", 0, 0, ONE, false, None)
  const ONCE := [DoRecord(CommittedOutcome, Some(0)), DoBegin(Some("a"), Some(0)), DoDeliver, DoAnswer(false)]

  lemma OneBatchIsValid()
    ensures ValidBatch(ONE_BATCH)
  {
    forall o
      ensures 0 <= Count(ONE, o) <= MAX_COUNT
    {
    }
  }

  /** One outcome recorded, flushed under the id "a" and acknowledged. */
  lemma OnceFrom(s: System)
    requires s.buffer == EMPTY_BUFFER
    requires (s.table == map[] && s.history == []) || (s.table == map["a" := ONE_BATCH] && s.history == [ONE_BATCH])
    ensures Act(Act(Act(Act(s, ONCE[0]), ONCE[1]), ONCE[2]), ONCE[3])
            == System(EMPTY_BUFFER, map["a" := ONE_BATCH], [ONE_BATCH], true, s.table != map[])
    ensures RecordSpec(s.buffer, CommittedOutcome, Some(0)).Some?
  {
    OneBatchIsValid();
    hide ValidBatch;
    assert Act(s, ONCE[0]) == s.(buffer := Buffer(ONE, Some(0), false, None, false));
    assert Act(Act(s, ONCE[0]), ONCE[1])
        == s.(buffer := Buffer(NO_COUNTS, None, false, Some(ONE_BATCH), true), delivered := false,
              repeated := s.table != map[]);
    var kept := map id | id in s.table && !Expired(s.table[id], 0) :: s.table[id];
    assert kept == s.table;
    assert RecordAndPrune(s.table, ONE_BATCH).Some?
           && RecordAndPrune(s.table, ONE_BATCH).value.0 == map["a" := ONE_BATCH];
  }

  lemma RunFour(actions: seq<Action>, n: nat)
    requires n + 4 <= |actions|
    ensures Runs(actions[..n + 4])
            == Act(Act(Act(Act(Runs(actions[..n]), actions[n]), actions[n + 1]), actions[n + 2]), actions[n + 3])
    ensures actions[n].DoRecord? && !actions[n + 1].DoRecord? && !actions[n + 2].DoRecord? && !actions[n + 3].DoRecord?
            && RecordSpec(Runs(actions[..n]).buffer, actions[n].outcome, actions[n].clock).Some? ==>
              Recorded(actions[..n + 4], actions[n].outcome) == Recorded(actions[..n], actions[n].outcome) + 1
  {
    hide Act, RecordSpec;
    RunPrefix(actions, n);
    RunPrefix(actions, n + 1);
    RunPrefix(actions, n + 2);
    RunPrefix(actions, n + 3);
  }

  /** Why ids must not repeat: two equal batches under one id are stored as one,
      and the second's counts are gone although nothing saturated. */
  lemma RepeatedIdLosesCounts()
    ensures var s := Runs(ONCE + ONCE);
            && Recorded(ONCE + ONCE, CommittedOutcome) == 2
            && Total(s, CommittedOutcome) == 1 && !AnySaturated(s)
  {
    hide Act, RecordSpec, Runs, Recorded;
    var all := ONCE + ONCE;
    assert all[..0] == [] && all[..8] == all;
    NothingRun();
    OnceFrom(START);
    RunFour(all, 0);
    OnceFrom(Runs(all[..4]));
    RunFour(all, 4);
    HistoryGrows([], ONE_BATCH, CommittedOutcome);
    assert [] + [ONE_BATCH] == [ONE_BATCH];
  }

  lemma NothingRun()
    ensures Runs([]) == START && Recorded([], CommittedOutcome) == 0
  {
  }

  lemma RunPrefix(actions: seq<Action>, n: nat)
    requires n < |actions|
    ensures Runs(actions[..n + 1]) == Act(Runs(actions[..n]), actions[n])
    ensures forall o ::
              Recorded(actions[..n + 1], o)
              == Recorded(actions[..n], o) + (if Records(Runs(actions[..n]), actions[n], o) then 1 else 0)
  {
    hide Act, RecordSpec;
    var upto := actions[..n + 1];
    assert upto[..|upto| - 1] == actions[..n];
  }
}
