/** One retention cycle: batches until no work is left, an answer cannot be
    trusted or the batch budget is spent, and the record of it that is stored. */
module RetentionCycle {
  import opened Basics
  import opened Tables
  import opened Transactions
  import opened Invariant
  import opened RetentionProofs

  const MAX_BATCHES := 100
  const MAX_RECORD_COUNT := 200_000

  datatype PruneResult = Pruned(deleted: int, moreWork: bool) | PruneFailed

  datatype Status = Succeeded | PartialRun | FailedRun

  datatype AlertCode = Inconsistency | Unavailable

  datatype RunRecord = RunRecord(
    runId: Id,
    started: int,
    finished: int,
    status: Status,
    observed: Option<int>,
    batchCount: int,
    dueSelected: int,
    scansDeleted: int,
    decrements: int,
    staleWindows: int,
    revocationsDeleted: int,
    inconsistencies: int,
    moreWork: Option<bool>,
    failed: bool,
    alert: Option<AlertCode>)

  datatype CycleResult = CycleRecorded(record: RunRecord, duplicate: bool) | InvalidRuntime | RunStoreUnavailable

  // ---- what a worker's and a pruner's answer must look like ----------------

  predicate ValidSuccess(r: RetainResult, batchSize: int): (ok: bool)
    ensures ok ==> r.BatchDone? && 0 <= r.totals.observedAt
  {
    && r.BatchDone?
    && var t := r.totals;
       && 0 <= t.observedAt
       && 0 <= t.dueSelected <= batchSize
       && 0 <= t.scansDeleted <= t.dueSelected
       && 0 <= t.decrements <= t.scansDeleted * 2
       && 0 <= t.staleWindows <= batchSize
       && 0 <= t.inconsistencies <= t.scansDeleted * 2
       && (t.alert <==> t.inconsistencies > 0)
  }

  predicate ValidPrune(r: PruneResult, batchSize: int): (ok: bool)
    ensures ok ==> r.Pruned?
  {
    r.Pruned? && 0 <= r.deleted <= batchSize
  }

  /** An answer is trusted exactly when its counts can be those of one batch and it
      raises the alarm for inconsistencies and for nothing else. */
  lemma SuccessMeans(r: RetainResult, p: PruneResult, batchSize: int)
    ensures ValidSuccess(r, batchSize) <==>
              && r.BatchDone? && 0 <= r.totals.observedAt
              && 0 <= r.totals.scansDeleted <= r.totals.dueSelected <= batchSize
              && 0 <= r.totals.decrements <= 2 * r.totals.scansDeleted
              && 0 <= r.totals.inconsistencies <= 2 * r.totals.scansDeleted
              && 0 <= r.totals.staleWindows <= batchSize
              && r.totals.alert == (r.totals.inconsistencies > 0)
    ensures ValidPrune(p, batchSize) <==> p.Pruned? && 0 <= p.deleted <= batchSize
  {
  }

  /** Every batch of the database worker, after any run, is a valid success. */
  lemma WorkerAnswersAreValid(db: Db, now: int, batchSize: int, visitScans: seq<Id>, visitWindows: seq<WindowKey>)
    requires Inv(db) && 1 <= batchSize <= MAX_BATCH_SIZE && ReadableClock(now)
    ensures ValidSuccess(RetainStep(db, now, batchSize, visitScans, visitWindows).1, batchSize)
  {
    hide Inv, SelectDue, SelectStale, DeleteDue;
    RetainEffect(db, now, batchSize, visitScans, visitWindows);
  }

  // ---- the stored record's own check --------------------------------------

  predicate RecordCount(n: int) {
    0 <= n <= MAX_RECORD_COUNT
  }

  predicate ObservedInside(r: RunRecord) {
    r.observed.Some? && 0 <= r.observed.value && r.started <= r.observed.value <= r.finished
  }

  predicate ValidRunRecord(r: RunRecord) {
    && ValidId(r.runId)
    && 0 <= r.started <= r.finished
    && 1 <= r.batchCount <= MAX_BATCHES
    && RecordCount(r.dueSelected) && RecordCount(r.scansDeleted) && RecordCount(r.decrements)
    && RecordCount(r.staleWindows) && RecordCount(r.revocationsDeleted) && RecordCount(r.inconsistencies)
    && if r.status == FailedRun then
         && (r.observed.None? || ObservedInside(r))
         && r.moreWork.None?
         && r.failed
         && r.alert == Some(Unavailable)
       else
         && ObservedInside(r)
         && r.moreWork == Some(r.status == PartialRun)
         && !r.failed
         && r.alert == (if r.inconsistencies == 0 then None else Some(Inconsistency))
  }

  // ---- the table's own constraints ----------------------------------------

  /** What the batches of a cycle can have counted. */
  predicate CounterBounds(r: RunRecord) {
    && r.dueSelected <= r.batchCount * 1_000
    && r.scansDeleted <= r.dueSelected
    && r.decrements <= r.scansDeleted * 2
    && r.staleWindows <= r.batchCount * 1_000
    && r.inconsistencies <= r.scansDeleted * 2
    && r.revocationsDeleted <= r.batchCount * 1_000
  }

  /** The CHECK constraints on the table of runs. */
  predicate TableAccepts(r: RunRecord) {
    && ValidId(r.runId)
    && 1 <= r.batchCount <= 100
    && 0 <= r.dueSelected && 0 <= r.scansDeleted && 0 <= r.decrements && 0 <= r.staleWindows
    && 0 <= r.inconsistencies && 0 <= r.revocationsDeleted
    && r.started <= r.finished
    && (r.observed.Some? ==> r.started <= r.observed.value <= r.finished)
    && (|| (r.status == FailedRun && r.moreWork.None? && r.failed && r.alert == Some(Unavailable))
        || (&& r.status in {Succeeded, PartialRun} && r.observed.Some? && !r.failed
            && r.moreWork == Some(r.status == PartialRun)
            && (|| (r.inconsistencies == 0 && r.alert.None?)
                || (r.inconsistencies > 0 && r.alert == Some(Inconsistency)))))
    && CounterBounds(r)
  }

  /** The application's check and the table's constraints differ only in the bounds
      that relate the counters. */
  lemma RecordChecksAgree(r: RunRecord)
    requires 0 <= r.started
    ensures TableAccepts(r) <==> ValidRunRecord(r) && CounterBounds(r)
  {
  }

  // ---- the cycle ----------------------------------------------------------

  type Worker = nat -> RetainResult
  type Pruner = nat -> PruneResult

  function EmptyRecord(runId: Id, started: int): RunRecord {
    RunRecord(runId, started, started, FailedRun, None, 1, 0, 0, 0, 0, 0, 0, None, true, Some(Unavailable))
  }

  /** Both answers to batch `i` can be trusted. */
  predicate Trusted(worker: Worker, pruner: Pruner, batchSize: int, i: nat) {
    ValidSuccess(worker(i), batchSize) && ValidPrune(pruner(i), batchSize)
  }

  predicate MoreAfter(worker: Worker, pruner: Pruner, i: nat)
    requires worker(i).BatchDone? && pruner(i).Pruned?
  {
    worker(i).totals.moreWork || pruner(i).moreWork
  }

  datatype Counter = DueSelected | ScansDeleted | Decrements | StaleWindows | Inconsistencies

  function Counted(r: RetainResult, c: Counter): int {
    if !r.BatchDone? then 0
    else
      match c
      case DueSelected => r.totals.dueSelected
      case ScansDeleted => r.totals.scansDeleted
      case Decrements => r.totals.decrements
      case StaleWindows => r.totals.staleWindows
      case Inconsistencies => r.totals.inconsistencies
  }

  /** The sum of one counter over the first `n` batches. */
  ghost function Sum(worker: Worker, n: nat, c: Counter): int {
    if n == 0 then 0 else Sum(worker, n - 1, c) + Counted(worker(n - 1), c)
  }

  ghost function SumPruned(pruner: Pruner, n: nat): int {
    if n == 0 then 0 else SumPruned(pruner, n - 1) + (if pruner(n - 1).Pruned? then pruner(n - 1).deleted else 0)
  }

  /** When the last of `n` worker answers was taken. */
  function LastObserved(worker: Worker, n: nat): Option<int> {
    if n > 0 && worker(n - 1).BatchDone? then Some(worker(n - 1).totals.observedAt) else None
  }

  /** The record holds the sums over `n` trusted worker answers and `m` prunes, and
      the time of the last of those answers. */
  ghost predicate HoldsSums(r: RunRecord, worker: Worker, pruner: Pruner, n: nat, m: nat) {
    && r.observed == LastObserved(worker, n)
    && r.dueSelected == Sum(worker, n, DueSelected)
    && r.scansDeleted == Sum(worker, n, ScansDeleted)
    && r.decrements == Sum(worker, n, Decrements)
    && r.staleWindows == Sum(worker, n, StaleWindows)
    && r.inconsistencies == Sum(worker, n, Inconsistencies)
    && r.revocationsDeleted == SumPruned(pruner, m)
  }

  /** How the cycle ended, read off its record: it ran `batchCount` batches, all
      trusted and with more work but possibly the last, and stopped there for the
      reason its status names. */
  ghost predicate Explains(r: RunRecord, worker: Worker, pruner: Pruner, batchSize: int, maxBatches: int) {
    && 1 <= r.batchCount <= maxBatches
    && var last := r.batchCount - 1;
       && (forall i | 0 <= i < last :: Trusted(worker, pruner, batchSize, i) && MoreAfter(worker, pruner, i))
       && (r.status == FailedRun <==> !Trusted(worker, pruner, batchSize, last))
       && (r.status == Succeeded <==> Trusted(worker, pruner, batchSize, last) && !MoreAfter(worker, pruner, last))
       && (r.status == PartialRun ==> r.batchCount == maxBatches)
       && HoldsSums(r, worker, pruner,
                    if ValidSuccess(worker(last), batchSize) then r.batchCount else last,
                    if Trusted(worker, pruner, batchSize, last) then r.batchCount else last)
  }

  /** Counts so far stay below what the batches so far may add: 1,000 scans or
      windows and 2,000 decrements each, exactly 200,000 after a hundred. */
  predicate Bounded(r: RunRecord, batches: nat) {
    && 0 <= r.dueSelected <= MAX_BATCH_SIZE * batches
    && 0 <= r.scansDeleted <= r.dueSelected
    && 0 <= r.decrements <= 2 * r.scansDeleted
    && 0 <= r.staleWindows <= MAX_BATCH_SIZE * batches
    && 0 <= r.inconsistencies <= 2 * r.scansDeleted
    && 0 <= r.revocationsDeleted <= MAX_BATCH_SIZE * batches
  }

  function AddTotals(r: RunRecord, t: BatchTotals): RunRecord {
    r.(observed := Some(t.observedAt),
       dueSelected := r.dueSelected + t.dueSelected,
       scansDeleted := r.scansDeleted + t.scansDeleted,
       decrements := r.decrements + t.decrements,
       staleWindows := r.staleWindows + t.staleWindows,
       inconsistencies := r.inconsistencies + t.inconsistencies)
  }

  function Fail(r: RunRecord): RunRecord {
    r.(status := FailedRun, moreWork := None, failed := true, alert := Some(Unavailable))
  }

  lemma SumsStart(r: RunRecord, worker: Worker, pruner: Pruner)
    requires r == EmptyRecord(r.runId, r.started)
    ensures HoldsSums(r, worker, pruner, 0, 0)
  {
  }

  lemma SumsAdd(r: RunRecord, worker: Worker, pruner: Pruner, n: nat, m: nat)
    requires HoldsSums(r, worker, pruner, n, m) && worker(n).BatchDone?
    ensures HoldsSums(AddTotals(r, worker(n).totals), worker, pruner, n + 1, m)
  {
  }

  lemma SumsPrune(r: RunRecord, r': RunRecord, worker: Worker, pruner: Pruner, n: nat, m: nat)
    requires HoldsSums(r, worker, pruner, n, m) && pruner(m).Pruned?
    requires r' == r.(revocationsDeleted := r.revocationsDeleted + pruner(m).deleted, moreWork := r'.moreWork,
                      failed := r'.failed, alert := r'.alert, status := r'.status)
    ensures HoldsSums(r', worker, pruner, n, m + 1)
  {
  }

  /** Fields that are no totals do not matter. */
  lemma SumsKeep(r: RunRecord, r': RunRecord, worker: Worker, pruner: Pruner, n: nat, m: nat)
    requires HoldsSums(r, worker, pruner, n, m)
    requires r' == r.(batchCount := r'.batchCount, moreWork := r'.moreWork, failed := r'.failed, alert := r'.alert,
                      status := r'.status)
    ensures HoldsSums(r', worker, pruner, n, m)
  {
  }

  lemma BoundedStart(r: RunRecord)
    requires r == EmptyRecord(r.runId, r.started)
    ensures Bounded(r, 0) && r.inconsistencies >= 0
  {
  }

  lemma BoundedAdd(r: RunRecord, result: RetainResult, batchSize: int, n: nat)
    requires Bounded(r, n) && batchSize <= MAX_BATCH_SIZE && ValidSuccess(result, batchSize)
    ensures Bounded(AddTotals(r, result.totals), n + 1)
  {
  }

  lemma BoundedPrune(r: RunRecord, before: RunRecord, pruned: PruneResult, batchSize: int, n: nat)
    requires Bounded(before, n) && Bounded(r, n + 1) && batchSize <= MAX_BATCH_SIZE && ValidPrune(pruned, batchSize)
    requires r.revocationsDeleted == before.revocationsDeleted
    ensures Bounded(r.(revocationsDeleted := r.revocationsDeleted + pruned.deleted), n + 1)
  {
  }

  lemma BoundedKeep(r: RunRecord, r': RunRecord, n: nat, m: nat)
    requires Bounded(r, n) && n <= m
    requires r' == r.(batchCount := r'.batchCount, moreWork := r'.moreWork, failed := r'.failed, alert := r'.alert,
                      status := r'.status)
    ensures Bounded(r', m)
  {
  }

  /** What the validator asks of the fields that tell how the cycle ended. */
  predicate EndConsistent(r: RunRecord) {
    && (r.observed.Some? ==> 0 <= r.observed.value)
    && if r.status == FailedRun then r.moreWork.None? && r.failed && r.alert == Some(Unavailable)
       else
         && r.observed.Some?
         && r.moreWork == Some(r.status == PartialRun)
         && !r.failed
         && r.alert == (if r.inconsistencies == 0 then None else Some(Inconsistency))
  }

  /** The batches of a cycle. */
  method RunBatches(worker: Worker, pruner: Pruner, batchSize: int, maxBatches: int, runId: Id, started: int)
    returns (record: RunRecord)
    requires 1 <= batchSize <= MAX_BATCH_SIZE && 1 <= maxBatches <= MAX_BATCHES
    ensures Explains(record, worker, pruner, batchSize, maxBatches)
    ensures record.runId == runId && record.started == started
    ensures Bounded(record, record.batchCount) && EndConsistent(record)
  {
    hide HoldsSums, Sum, SumPruned, ValidSuccess, ValidPrune, Bounded;
    record := EmptyRecord(runId, started);
    SumsStart(record, worker, pruner);
    BoundedStart(record);
    var batch := 0;
    while batch < maxBatches
      invariant 0 <= batch <= maxBatches
      invariant batch == 0 ==> record == EmptyRecord(runId, started)
      invariant batch > 0 ==> record.batchCount == batch && record.status == PartialRun
      invariant record.runId == runId && record.started == started
      invariant forall i | 0 <= i < batch :: Trusted(worker, pruner, batchSize, i) && MoreAfter(worker, pruner, i)
      invariant HoldsSums(record, worker, pruner, batch, batch)
      invariant Bounded(record, batch) && EndConsistent(record)
      decreases maxBatches - batch
    {
      var result := worker(batch);
      ghost var before := record;
      record := record.(batchCount := batch + 1);
      SumsKeep(before, record, worker, pruner, batch, batch);
      BoundedKeep(before, record, batch, batch);
      if !ValidSuccess(result, batchSize) {
        SumsKeep(record, Fail(record), worker, pruner, batch, batch);
        BoundedKeep(record, Fail(record), batch, batch + 1);
        record := Fail(record);
        return;
      }
      SumsAdd(record, worker, pruner, batch, batch);
      BoundedAdd(record, result, batchSize, batch);
      ghost var unpruned := record;
      record := AddTotals(record, result.totals);
      var pruned := pruner(batch);
      if !ValidPrune(pruned, batchSize) {
        SumsKeep(record, Fail(record), worker, pruner, batch + 1, batch);
        BoundedKeep(record, Fail(record), batch + 1, batch + 1);
        record := Fail(record);
        return;
      }
      var moreWork := result.totals.moreWork || pruned.moreWork;
      before := record;
      BoundedPrune(record, unpruned, pruned, batchSize, batch);
      record := record.(revocationsDeleted := record.revocationsDeleted + pruned.deleted,
                        moreWork := Some(moreWork),
                        failed := false,
                        alert := if record.inconsistencies > 0 then Some(Inconsistency) else None,
                        status := if moreWork then PartialRun else Succeeded);
      SumsPrune(before, record, worker, pruner, batch + 1, batch);
      BoundedKeep(before.(revocationsDeleted := record.revocationsDeleted), record, batch + 1, batch + 1);
      if !moreWork {
        return;
      }
      batch := batch + 1;
    }
  }

  predicate ValidOptions(batchSize: int, maxBatches: int) {
    1 <= batchSize <= MAX_BATCH_SIZE && 1 <= maxBatches <= MAX_BATCHES
  }

  predicate ClockOk(t: Option<int>) {
    t.Some? && 0 <= t.value <= MAX_SAFE
  }

  /** The cycle ended at a good time, not before it started, and the last batch was
      observed in between. */
  predicate EndsWell(r: RunRecord, finished: Option<int>) {
    && ClockOk(finished)
    && r.started <= finished.value
    && (r.observed.Some? ==> r.started <= r.observed.value <= finished.value)
  }

  /** One cycle, for any worker, pruner, clock and id source. `ran` is the record of
      the batches, made whenever options, clock and id are good; it is handed to the
      store exactly when the cycle ends well, and then passes the store's check and
      the table's constraints.
      `stored` is the store's answer: None when it failed, else its duplicate flag. */
  method RunCycle(worker: Worker, pruner: Pruner, batchSize: int, maxBatches: int, started: Option<int>,
                  runId: Option<Id>, finished: Option<int>, stored: Option<bool>)
    returns (r: CycleResult, ran: Option<RunRecord>, handed: Option<RunRecord>)
    ensures ran.Some? <==> ValidOptions(batchSize, maxBatches) && ClockOk(started) && runId.Some? && ValidId(runId.value)
    ensures ran.Some? ==> && Explains(ran.value, worker, pruner, batchSize, maxBatches)
                          && Some(ran.value.runId) == runId && Some(ran.value.started) == started
    ensures handed.Some? <==> ran.Some? && EndsWell(ran.value, finished)
    ensures handed.Some? ==> handed.value == ran.value.(finished := finished.value)
                             && ValidRunRecord(handed.value) && TableAccepts(handed.value)
    ensures r == if handed.None? then InvalidRuntime
                 else if stored.None? then RunStoreUnavailable
                 else CycleRecorded(handed.value, stored.value)
  {
    hide Explains;
    ran, handed := None, None;
    if batchSize < 1 || batchSize > MAX_BATCH_SIZE || maxBatches < 1 || maxBatches > MAX_BATCHES {
      return InvalidRuntime, ran, handed;
    }
    if started.None? || !(0 <= started.value <= MAX_SAFE) || runId.None? || !ValidId(runId.value) {
      return InvalidRuntime, ran, handed;
    }
    var record := RunBatches(worker, pruner, batchSize, maxBatches, runId.value, started.value);
    ran := Some(record);
    FewBatches(record, worker, pruner, batchSize, maxBatches);
    if finished.None? || !(0 <= finished.value <= MAX_SAFE) || finished.value < started.value
       || (record.observed.Some? && (record.observed.value < started.value || record.observed.value > finished.value)) {
      return InvalidRuntime, ran, handed;
    }
    record := record.(finished := finished.value);
    handed := Some(record);
    if stored.None? {
      return RunStoreUnavailable, ran, handed;
    }
    return CycleRecorded(record, stored.value), ran, handed;
  }

  lemma FewBatches(r: RunRecord, worker: Worker, pruner: Pruner, batchSize: int, maxBatches: int)
    requires Explains(r, worker, pruner, batchSize, maxBatches)
    ensures 1 <= r.batchCount <= maxBatches
  {
  }

  // ---- the bound is reached -----------------------------------------------

  function FullBatch(i: nat): RetainResult {
    BatchDone(BatchTotals(0, 1_000, 1_000, 2_000, 1_000, 0, true, false))
  }

  lemma {:induction false} FullSums(n: nat)
    ensures Sum(FullBatch, n, Decrements) == 2_000 * n
  {
    if n > 0 {
      FullSums(n - 1);
      assert FullBatch(n - 1).BatchDone?;
    }
  }

  /** A hundred full batches are all valid, and their decrements are exactly the
      largest count that the record may hold. */
  lemma BoundIsReached(i: nat)
    ensures ValidSuccess(FullBatch(i), MAX_BATCH_SIZE)
    ensures Sum(FullBatch, MAX_BATCHES, Decrements) == MAX_RECORD_COUNT
  {
    FullSums(MAX_BATCHES);
  }
}
