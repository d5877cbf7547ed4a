# Guest scan: a verified model

A guest scan is created by an anonymous visitor, queued, scanned by a leased
worker, and answered from a result that expires. This project models the parts of
that service whose correctness rests on many small rules agreeing with each other,
and proves what those rules add up to.

## What is modelled

**The scan lifecycle as a transaction protocol.** Every database transaction
(create, replay or replace; acquire; start; renew; commit; cancel; retention) is a
function from the tables it reads to the tables it commits (`transactions.dfy`,
`quota.dfy`), with the schema's CHECK constraints, unique indexes and update
triggers as guards (`tables.dfy`). `Throw` is a rollback. `invariant.dfy` says what
holds in every reachable state; the `*_proofs.dfy` files show that each transaction
keeps it and say exactly when it is rolled back; the `run*.dfy` files prove
theorems over arbitrary interleavings, each transaction with its own clock:

- the quota ledger balances, and limits hold per session, per network digest and,
  across staged key rotation, per network;
- at most one result per scan, never from a retired attempt, and never changed;
- at most 97 row-changing transactions per scan, whatever the clocks;
- no internal error is reachable, and under one monotone clock the exact remaining
  reasons for a rollback;
- idempotent replay until the very second the window ends;
- admission rates, which histories of admissions are possible (`serial_runs.dfy`),
  the exactness of `retry_after`, and that pruning finished windows cannot be noticed.

`lease_answers.dfy` and `admission_answers.dfy` say of each transaction exactly when
it gives which answer, and what a worker that keeps its times may rely on.

`guest_store.dfy` is the same layer as the program it is: a class whose methods
update tables statement by statement, with the loops over counter rows and a
rollback to the state the transaction began with. Each method is proved equal to
the function above, so the theorems hold of it. `queue_processor.dfy` is the worker
that drives it. `snapshot.dfy` compares the schema's constraints with the
application's own row checks.

**The result path.** The frame reader (`scanner_ipc.dfy`), the duplicate-key scan
over JSON text against the grammar of section 2 of RFC 8259 (`json_keys.dfy`), the
canonical form, its text and its reader (`guest_projection.dfy`, `canonical_text.dfy`,
`output_reader.dfy`, `sorting.dfy`), the
authenticated encodings (`binary.dfy`, `encodings.dfy`), and signing, verifying and
committing as one pipeline that ends in the lifecycle model (`result_envelope.dfy`).

**Accumulators with delivery guarantees.** The telemetry collector and its store
(`queue_telemetry.dfy`) and the retention cycle (`retention_cycle.dfy`).

**Addresses and views.** IPv6 text, CIDR ranges and the proxy walk
(`address_text.dfy`, `network_address.dfy`, `trusted_ingress.dfy`), and the public
view with the rebuilder that must invert it (`result_view.dfy`).

## How to read it

A scan's attempts, result and reservation are grouped with the scan they belong to
(`ScanGroup`): they reference it with ON DELETE CASCADE and no transaction touches
those of two scans, except retention, which deletes whole groups. Times are whole
seconds. Clocks, generated ids, nonces and keyrings are parameters. Attempt ids are
unique over all scans because their table's primary key says so.

Some answers worth knowing:

- A live scan past its deletion deadline can no longer be acquired, cancelled or
  replaced, because the row checks forbid stamps after the deadline: those calls
  are rolled back until retention deletes it (`RunFaults.RejectedExactly`). That is
  the only rollback a monotone clock and fresh ids leave.
- The rate bound is twice the limit less one (`RunRates.RateBound`), and a session
  can have five scans in ten minutes (`SerialRuns.FiveInTenMinutes`).
- The telemetry guarantee holds exactly as long as no batch is built that the store
  already holds, to the last field. Such a batch, which needs a repeated id, is
  acknowledged and its counts are gone (`QueueTelemetry.LosesExactlyRepeats`,
  `QueueTelemetry.RepeatedIdLosesCounts`); one with a repeated id and other contents
  loses nothing but is never accepted (`QueueTelemetry.ClashStaysPending`).
- Posture entries of a projection are sorted with a locale comparison and canonical
  entries by code unit; on the fixed names of checks and groups the model uses one
  order for both, which is the code-unit order (`CanonicalText.RanksAreNameOrder`).

## Model

| member | source | states |
|---|---|---|
| LedgerProofs.DecrementSucceeds | apps/api/src/guest-persistence/postgres-abuse.ts:137-159 | a counter that some unreleased reservation is charged to has a positive row, so its decrement never fails |
| LedgerProofs.ReleaseEffect | apps/api/src/guest-persistence/postgres-abuse.ts:161-202 | for any clock, release succeeds exactly when the reservation exists and is either released already or inside its lifetime; it leaves every counter equal to its unreleased reservations, touches one row, and releasing twice changes nothing |
| LedgerProofs.ReserveEffect | apps/api/src/guest-persistence/postgres-abuse.ts:80-135 | an admission charges the session and the active network digest and nothing else, keeps every counter equal to its unreleased reservations and within its limit, and finds room in all four windows |
| LedgerProofs.NetworkUsageCovers | apps/api/src/guest-persistence/postgres-abuse-state.ts:230-255 | the usage summed over all retained digests is at least that of each one |
| CreateProofs.LoadExactly | apps/api/src/guest-persistence/postgres-abuse-state.ts:257-282 | on a consistent state loading usage fails exactly when some window row resets later than a window begun now would, and otherwise gives a snapshot the decision accepts as valid |
| CreateProofs.ReserveExactly | apps/api/src/guest-persistence/postgres-abuse.ts:80-135 | reserving fails for that reason only, and the admission context is never invalid |
| StepProofs.GrantOutcome | apps/api/src/guest-persistence/postgres-lease-mutations.ts:26-84 | attaching an attempt fails only for a malformed or taken id or a clock behind the scan row; there is always lease time, every update hits its row, and the lease handed out says what the stored row says |
| StepProofs.TerminateLive | apps/api/src/guest-persistence/postgres-lease-mutations.ts:86-139 | ending a running job, as expired or as failed, finishes its live attempt, writes the terminal state and returns the quota, or is rolled back, exactly when a row is ahead of the clock or the deletion deadline has passed |
| StepProofs.TerminateRetired | apps/api/src/guest-persistence/postgres-lease.ts:95-110 | failing a job whose last attempt was retired earlier in the same transaction is rolled back exactly when the scan row is ahead of the clock or the deletion deadline has passed |
| StepProofs.AcquireEffect | apps/api/src/guest-persistence/postgres-lease.ts:42-132 | for every clock and id source acquire keeps the invariant; it is rolled back exactly when blocked, and otherwise grants the next attempt, with a lease that names its row, ends the job, or changes nothing |
| StepProofs.StartEffect | apps/api/src/guest-persistence/postgres-lease.ts:134-205 | start moves only the current leased attempt of the named version to running, and is rolled back only by a clock behind the attempt row |
| StepProofs.RenewEffect | apps/api/src/guest-persistence/postgres-lease.ts:207-289 | a renewal raises the version by one and strictly extends the lease to fifteen seconds from now or the hard deadline, on the current running attempt only |
| StepProofs.LeaseVersionBound | apps/api/src/guest-persistence/postgres-lease.ts:260-281 | no attempt reaches a lease version above 31 |
| StepProofs.CancelEffect | apps/api/src/guest-persistence/postgres-cancel.ts:56-145 | cancel ends exactly the live jobs, is idempotent on cancelled ones, and is rolled back exactly for a clock behind the rows or past the deletion deadline |
| LeaseAnswers.AcquireAnswers | apps/api/src/guest-persistence/postgres-lease.ts:54-130 | every answer of acquire is given exactly when its reason holds; LEASE_HELD exactly while the current lease and the access to the result run on, with the seconds until the lease expires |
| LeaseAnswers.AcquireRows | apps/api/src/guest-persistence/postgres-lease.ts:95-110 | a displaced attempt has timed out exactly if it was running past its hard deadline and is superseded otherwise; every other attempt stays; a job that ends returns its quota for that reason |
| LeaseAnswers.TerminateRows | apps/api/src/guest-persistence/postgres-lease-mutations.ts:93-139 | the state a live attempt takes when its job is ended, and the reason its quota is returned for |
| LeaseAnswers.StartAnswers | apps/api/src/guest-persistence/postgres-lease.ts:165-202 | start answers STARTED, ALREADY_RUNNING and each refusal exactly when its fact about the holder, the row and the clock holds |
| LeaseAnswers.RenewAnswers | apps/api/src/guest-persistence/postgres-lease.ts:238-285 | a renewal succeeds exactly when the attempt of the holder runs, is within its lease, and the expiry strictly grows; each refusal exactly when its fact holds |
| LeaseAnswers.CancelAnswers | apps/api/src/guest-persistence/postgres-cancel.ts:56-145 | each answer of cancel exactly when its reason holds |
| LeaseAnswers.CancelRows | apps/api/src/guest-persistence/postgres-cancel.ts:56-86 | a cancelled attempt that ran is cancelled, one that was only leased is superseded, and the quota is returned as cancelled |
| LeaseAnswers.GrantedIsHolder | apps/api/src/guest-persistence/postgres-lease-mutations.ts:34-84 | the lease that acquire answers is version 1 of the new current attempt, for the lesser of 15 seconds and the hard deadline, itself the lesser of 45 seconds and the access expiry; its command is the holder's |
| LeaseAnswers.LeaseStarts | apps/api/src/guest-persistence/postgres-lease.ts:134-205 | as long as nothing touches the scan, a granted lease can be started at any time from its grant until it expires |
| LeaseAnswers.TimelyWorkerCommits | apps/api/src/guest-queue/processor.ts:144-229 | a worker that keeps its times is never turned away: leased, started within the lease, every renewal in time, its commit within the last expiry is the primary one |
| LeaseAnswers.OvertakenIsStale | apps/api/src/guest-persistence/postgres-lease.ts:166-176 | fencing: a command overtaken by a renewal or a newer attempt is refused as stale for ever, over any run and any clocks |
| CommitProofs.StoreEffect | apps/api/src/guest-persistence/postgres-result-commit.ts:238-281 | for an acceptable submission both compare-and-set updates hit one row, the result insert is allowed and the quota is returned, unless a row is ahead of the clock |
| CommitProofs.LockedFacts | apps/api/src/guest-persistence/postgres-result-commit.ts:102-156 | the joined state exists exactly for scans with a current attempt and then always passes the decision's own validity check, so its unaudited INVALID_STATE is unreachable |
| CommitProofs.CommitEffect | apps/api/src/guest-persistence/postgres-result-commit.ts:202-297 | for every submission and clock, when a commit stores, what it stores, and that in every other case nothing is written |
| LeaseAnswers.CommitAnswers | apps/api/src/scan-protocol/result-commit.ts:55-116 | every answer of the commit is given exactly when its reason holds; the code for a passed hard deadline is never needed, for no lease outlives its deadline |
| CreateProofs.ReplacedEffect | apps/api/src/guest-persistence/postgres-idempotency.ts:206-225 | removing an expired predecessor fails exactly when its quota is still held past the deletion deadline |
| CreateProofs.InsertedEffect | apps/api/src/guest-persistence/postgres-idempotency.ts:226-255 | inserting and charging a new scan keeps the invariant and adds exactly one group, one index entry and one use per window |
| CreateProofs.CreateEffect | apps/api/src/guest-persistence/postgres-idempotency.ts:146-281 | create, replay or replace: the exact three reasons for a rollback, and the exact new state when a scan is created |
| AdmissionAnswers.CreateAnswers | apps/api/src/guest-abuse/decide.ts:169-233 | a request that needs a new scan and is not rolled back gets one exactly when the service is open, its session has no live scan and its network at most three, and the windows still running hold less than 3, 10, 20 and 100 uses; otherwise it is told the first limit reached, in the source's order, and for a window the wait until the last one ends |
| AdmissionAnswers.OtherCreateAnswers | apps/api/src/guest-persistence/postgres-idempotency.ts:146-205 | the remaining answers: from the row inside its window, for inputs that cannot be used, and for a rollback; a stored row is never an invalid record |
| AdmissionAnswers.CreatedSays | apps/api/src/guest-persistence/postgres-idempotency.ts:226-281 | every field of the answer with a new scan and of the rows it left, and that it says it replaced one exactly when it did |
| RetentionProofs.ReleaseDueEffect | apps/api/src/guest-persistence/postgres-retention.ts:138-189 | returning the quota of a due scan takes two decrements when it is still charged and never finds the counters inconsistent |
| RetentionProofs.RetainEffect | apps/api/src/guest-persistence/postgres-retention.ts:217-276 | a batch deletes exactly the selected rows, keeps the invariant, reports two decrements per charged scan, zero inconsistencies and no alert |
| RetentionProofs.RetainMeans | apps/api/src/guest-persistence/postgres-retention.ts:45-81 | a batch deletes, among the rows it visits, scans whose deletion deadline has come and windows that have ended, all of them when they are fewer than the batch size; its totals count them and say whether any is left anywhere |
| RetentionProofs.UnlockedBatch | apps/api/src/guest-persistence/postgres-retention.ts:45-81 | an unlocked batch removes the batch size, or all, of the due scans and of the stale windows, and more_work says whether any is left |
| RetentionProofs.DrainsExactly | apps/api/src/guest-persistence/postgres-retention.ts:217-276 | enough batches at one time delete every due scan and stale window and leave every other row as it was |
| Evolution.AcquireEvolves | apps/api/src/scan-protocol/fsm.ts:9-65 | every change acquire makes to a job or attempt row is an edge of the abstract machines, and leaves less work |
| Evolution.CommitStepEvolves | apps/api/src/scan-protocol/fsm.ts:9-65 | the same of the result commit |
| Evolution.WorkLeftBounds | apps/api/src/guest-persistence/postgres-lease.ts:54-130 | the decreasing measure is between 0 and 97 and positive while the job is live |
| Evolution.TriggersAgree | apps/api/src/scan-protocol/fsm.ts:9-65 | the abstract machines have exactly the edges that the update triggers of the schema allow |
| Evolution.EventsLead | apps/api/src/scan-protocol/fsm.ts:9-65 | where an event leads does not depend on the state it finds, and nothing leads out of an ended job or a finished attempt |
| Runs.RunKeepsInv | apps/api/src/guest-persistence/postgres-lease.ts:35-292 | the invariant holds after every interleaving of transactions, each with its own clock reading |
| Runs.QuotaConserved | apps/api/src/guest-persistence/postgres-abuse.ts:80-202 | after any run each active counter is the number of live scans charged to it, has a row only when positive, and so a session has at most one live scan and a network digest at most four |
| Runs.StepEvolves | apps/api/src/scan-protocol/fsm.ts:9-65 | every step changes every surviving scan along edges of the job and attempt machines; ended scans and finished attempts never change |
| Runs.BoundedLifecycle | apps/api/src/guest-persistence/postgres-lease-mutations.ts:34-43 | for any clocks and any number of workers at most 97 transactions ever change the rows of one scan |
| Runs.LeasesBounded | apps/api/src/guest-persistence/postgres-lease.ts:108-112 | in every reachable state: number equals fence at most three, lease version at most 31, lease expiry within the hard deadline, and an attempt is live exactly when it is the current one of a running job |
| Runs.EndedForever | apps/api/src/scan-protocol/fsm.ts:9-65 | once a job has ended none of its rows change until they are deleted |
| Runs.RunEvolution | apps/api/src/guest-persistence/postgres-lease-mutations.ts:26-139 | over any run a scan keeps its identity, its fence never falls, attempts stay and finished ones are frozen |
| Runs.PrimaryCommitEffect | apps/api/src/guest-persistence/postgres-result-commit.ts:202-281 | a primary commit requires the running current attempt and leaves the job succeeded with the submitted identity and result |
| Runs.ExactlyOnce | apps/api/src/scan-protocol/result-commit.ts:55-116 | in any run at most one primary commit happens per scan, and none once its job has ended |
| Runs.RetiredNeverCommits | apps/api/src/scan-protocol/result-commit.ts:88-106 | a superseded, timed-out or cancelled attempt never commits, however late it submits |
| Runs.LateSubmissions | apps/api/src/scan-protocol/result-commit.ts:68-86 | after a primary commit, through any further run, accepted identity and result stay and every later submission is classified by its identity alone, without a write |
| RunFaults.NoInternalFault | apps/api/src/guest-persistence/postgres-lease.ts:73-107 | for any clocks no compare-and-set miss, impossible attempt state, missing lease time or invalid admission context is reachable |
| RunFaults.RunClocked | apps/api/src/guest-persistence/postgres-result-commit.ts:36-39 | under one monotone clock no row is ever ahead of it |
| RunFaults.RejectedExactly | apps/api/src/guest-persistence/postgres-abuse.ts:179-194 | under one monotone clock a transaction is rolled back if and only if it writes past the deletion deadline of a live scan or is handed an unusable fresh id; start, renew and commit never are |
| RunFaults.AuditFlagsAgree | apps/api/src/guest-queue/processor.ts:201-225 | the committer's audit flag always equals the rejection sink's own classification |
| RunReplay.OneScanPerKey | apps/api/src/guest-persistence/postgres-idempotency.ts:61-70 | at most one scan exists per session and idempotency key |
| RunReplay.OnlyCreationWrites | apps/api/src/guest-persistence/postgres-idempotency.ts:240-256 | a refusal, a replay and a rolled back replacement leave every table as it was |
| RunReplay.StepKeepsScan | apps/api/src/guest-persistence/postgres-idempotency.ts:206-225 | nothing removes or replaces a scan inside its replay window |
| RunReplay.AnsweredFromRow | apps/api/src/guest-idempotency/decide.ts:157-214 | an existing row answers the request exactly while its window is open |
| RunReplay.IdempotentReplay | apps/api/src/guest-idempotency/decide.ts:157-214 | from creation until exactly 1,800 seconds later, whatever runs in between, the same hash gets the same scan, token and absolute expiry while the key is retained, another hash is a conflict, and nothing is written |
| RateWindows.FewerThanTwice | apps/api/src/guest-persistence/postgres-abuse-state.ts:32-41 | counting windows that restart at the first use after they end admit fewer than twice the limit in any interval of one window length |
| RateWindows.BoundIsAttained | apps/api/src/guest-persistence/postgres-abuse-state.ts:32-41 | the counting rule alone gives no better bound: some list of times that never overfills a window reaches twice the limit less one |
| RunRates.RunTracks | apps/api/src/guest-persistence/postgres-abuse-state.ts:161-228 | over any monotone run a stored window row is exactly the last counting window of the admissions so far, and a missing one is over |
| RunRates.RateBound | apps/api/src/guest-persistence/postgres-abuse-state.ts:186-282 | any half-open interval of one window length holds at most 5 admissions per session in ten minutes and 19 in a day, 39 and 199 per network digest |
| SerialRuns.RunsFitWindows | apps/api/src/guest-persistence/postgres-abuse-state.ts:161-228 | the admission times of a session over any monotone run are sorted and overfill neither of its windows |
| SerialRuns.HistoriesAreRuns | apps/api/src/guest-persistence/postgres-idempotency.ts:146-281 | and every such list of times within the range of dates is the history of a run: with one network and each scan cancelled before the next, exactly these admissions happen |
| SerialRuns.FiveInTenMinutes | apps/api/src/guest-persistence/postgres-abuse-state.ts:32-41 | so the bound is attained: a run in which one session gets five scans within ten minutes |
| RunRates.RetryAfterClears | apps/api/src/guest-abuse/decide.ts:165-233 | after the advertised wait and any run, with any clocks, that admits nothing counted in the denying dimension, that dimension refuses no more; other sessions and networks may be admitted and windows pruned meanwhile |
| RunRates.RetryAfterIsExact | apps/api/src/guest-abuse/decide.ts:165-233 | and for a session not a second sooner |
| RunRates.WaitingHelps | apps/api/src/guest-persistence/postgres-idempotency.ts:240-256 | the same of the whole create transaction, between the refused one and its repetition |
| RunPruning.StepAlike | apps/api/src/guest-persistence/postgres-retention.ts:58-71 | states that differ only in window rows that are over give the same answers and stay so |
| RunPruning.PruningIsInvisible | apps/api/src/guest-persistence/postgres-retention.ts:58-71 | deleting any selection of finished windows changes no later answer, after any further run |
| RunRotation.UsageCountsCharges | apps/api/src/guest-persistence/postgres-abuse-state.ts:230-255 | the usage summed over distinct digests counts every scan charged to any of them |
| RunRotation.RotationKeepsQuota | apps/api/src/guest-abuse/network-signal.ts:110-154 | if every create sends each digest that still holds a reservation of the network, its live scans over all digests never exceed four, although an admission increments only the active digest |
| RunRotation.HoldersMadeUnder | apps/api/src/guest-abuse/network-signal.ts:142-154 | after any run each held reservation is charged to the digest of its network under the key that was active when its scan was created |
| RunRotation.SameNetwork | apps/api/src/guest-abuse/network-signal.ts:54-64 | addresses count as one network exactly when they are the same IPv4 address or agree in their first 64 bits |
| RunRotation.KeyringKeepsQuota | apps/api/src/guest-abuse/network-signal.ts:55-81 | staged rotation: if each key stays in the ring until every reservation written under it is released, and the digests used do not collide, a network never has more than four live scans, under whichever keys they were charged |
| Snapshot.ScanChecksAgree | apps/api/src/guest-scan/snapshot.ts:183-215 | the reader accepts exactly the scan rows that the table constraints accept |
| Snapshot.AttemptChecksAgree | apps/api/src/guest-scan/snapshot.ts:276-302 | the same of attempt rows |
| Snapshot.EveryRowReadsBack | apps/api/src/guest-scan/snapshot.ts:148-321 | after any run, with any clocks, every stored scan and attempt row passes the reader's checks |
| Snapshot.ReadsExactlyResults | apps/api/src/guest-scan/snapshot.ts:354-374 | the result reader finds a result exactly for the scans that succeeded, and then the stored one |
| Snapshot.ReadResultMeans | apps/api/src/guest-scan/snapshot.ts:322-374 | a result is read exactly when the scan has succeeded with that very identity and the completion lies within the scan's life |
| GuestStore.Store.ReleaseReservation | apps/api/src/guest-persistence/postgres-abuse.ts:161-202 | the statement loop computes the specified release |
| GuestStore.Store.DecrementAndRemove | apps/api/src/guest-persistence/postgres-abuse.ts:137-159 | decrement and delete-at-zero as one operation on the counter table |
| GuestStore.Store.CreateAttempt | apps/api/src/guest-persistence/postgres-lease-mutations.ts:26-84 | the insert and the two updates follow the specification, fault for fault |
| GuestStore.Store.TerminateJob | apps/api/src/guest-persistence/postgres-lease-mutations.ts:86-139 | the statements follow the specification, fault for fault |
| GuestStore.Store.Acquire | apps/api/src/guest-persistence/postgres-lease.ts:42-132 | state and answer are those of the specified transaction, a fault restores every table, and the invariant is kept |
| GuestStore.Store.Start | apps/api/src/guest-persistence/postgres-lease.ts:134-205 | the same of start |
| GuestStore.Store.Renew | apps/api/src/guest-persistence/postgres-lease.ts:207-289 | the same of renew |
| GuestStore.Store.CancelCurrentAttempt | apps/api/src/guest-persistence/postgres-cancel.ts:56-86 | the attempt's next state follows the specification |
| GuestStore.Store.Cancel | apps/api/src/guest-persistence/postgres-cancel.ts:95-145 | the same of cancel |
| GuestStore.Store.PersistResult | apps/api/src/guest-persistence/postgres-result-commit.ts:202-297 | the ordered updates of a commit follow the specification, fault for fault |
| GuestStore.Store.Commit | apps/api/src/guest-persistence/postgres-result-commit.ts:202-297 | the same of the commit with its rollback |
| GuestStore.Store.InsertCurrentRows | apps/api/src/guest-persistence/postgres-abuse-state.ts:161-184 | the upsert loops leave live windows alone and restart finished ones |
| GuestStore.Store.LoadWindows | apps/api/src/guest-persistence/postgres-abuse-state.ts:186-228 | whatever the order of the rows, the loop sums each dimension over all digests with the latest reset, and fails exactly on an insane row |
| GuestStore.Store.LoadActive | apps/api/src/guest-persistence/postgres-abuse-state.ts:230-255 | the same of the active counters |
| GuestStore.Store.LoadAbuseCounterState | apps/api/src/guest-persistence/postgres-abuse-state.ts:257-282 | restart, load and check as specified |
| GuestStore.Store.IncrementWindowRows | apps/api/src/guest-persistence/postgres-abuse.ts:46-61 | one more use in each of the listed rows and in no other |
| GuestStore.Store.ReserveCounters | apps/api/src/guest-persistence/postgres-abuse.ts:80-135 | the whole reservation as specified |
| GuestStore.Store.CreateOrReplay | apps/api/src/guest-persistence/postgres-idempotency.ts:146-281 | state and answer of create, replay or replace are those specified; a refusal is rolled back |
| GuestStore.Store.ReleaseDueReservation | apps/api/src/guest-persistence/postgres-retention.ts:138-189 | retention's own decrements and its count of inconsistencies |
| GuestStore.Store.DeleteDueScans | apps/api/src/guest-persistence/postgres-retention.ts:235-252 | the loop over due scans deletes each once and adds up its decrements |
| GuestStore.Store.RunBatch | apps/api/src/guest-persistence/postgres-retention.ts:217-276 | state and totals of a batch are those specified |
| UsageLoading.OneMoreSeen | apps/api/src/guest-persistence/postgres-abuse-state.ts:215-226 | one more live row adds its count to its own dimension, in whatever order rows come |
| QueueProcessor.Process | apps/api/src/guest-queue/processor.ts:144-230 | one delivery of a message among any transactions of others: for each of the twelve outcomes, which calls were made in what run, what each was answered, and what that means for the store; all that fail wrote nothing |
| QueueProcessor.OwnCommitIsReported | apps/api/src/guest-queue/processor.ts:190-229 | the outcome is COMMITTED if and only if the worker's own commit, whose answer arrived, was the primary one |
| QueueProcessor.RunHeartbeats | apps/api/src/guest-queue/processor.ts:69-112 | each renewal names the version last answered, every one but the last succeeded, the heartbeat is lost exactly when the last did not, and otherwise every tick renewed |
| QueueProcessor.CommitAndReport | apps/api/src/guest-queue/processor.ts:190-229 | the outcome follows the committer's answer exactly; a rejection ends in RETRY_REJECTION_SINK only when the sink does not answer, and a commit that is not primary writes nothing |
| QueueProcessor.RedeliveryIsHarmless | apps/api/src/guest-queue/processor.ts:148-165 | a message delivered again after its scan ended is acknowledged and changes nothing |
| JsonKeys.ScanIsExact | apps/api/src/scanner-output/guest-projection.ts:133-182 | on every JSON text, with any white space and escapes, the scan succeeds exactly when every object has distinct decoded keys and nesting is within the limit |
| JsonKeys.HasUniqueJsonKeys | apps/api/src/trusted-files/private-json.ts:44-88 | the index-and-stack loop computes that scan for any depth limit, so both copies are covered |
| JsonKeys.DecodePieces | apps/api/src/scanner-output/guest-projection.ts:172-177 | decoding a quoted key gives the string its characters and escapes denote |
| JsonKeys.EscapesAre | apps/api/src/scanner-output/guest-projection.ts:172-177 | exactly the eight one-letter escapes of section 7 of RFC 8259, with what they stand for |
| JsonKeys.HexUnitIs | apps/api/src/scanner-output/guest-projection.ts:172-177 | a four-digit escape is the number of its digits, of either case, the first one the most significant |
| Binary.CanonicalBase64Url | apps/api/src/guest-crypto/binary.ts:38-47 | the canonical decoder accepts exactly the encodings of non-empty values |
| Binary.SplitPrefixed | apps/api/src/guest-crypto/binary.ts:31-36 | a length-prefixed field can be read off the front of any message |
| Binary.U64Means | apps/api/src/guest-crypto/binary.ts:11-29 | eight bytes, the most significant first |
| Binary.SextetBits | apps/api/src/guest-crypto/binary.ts:38-47 | three bytes and their four symbols are the same 24 bits, and a shorter end is filled with zero bits |
| Binary.HexMeans | apps/api/src/result-envelope/codec.ts:14-32 | a digest's bytes are two hexadecimal digits each, the higher first |
| Encodings.EnvelopeInjective | apps/api/src/result-envelope/codec.ts:14-32 | an envelope's message determines its whole header and the key version |
| Encodings.TokenInjective | apps/api/src/guest-crypto/result-token.ts:101-123 | a token's message determines all of its fields |
| Encodings.CookieInjective | apps/api/src/guest-crypto/guest-session.ts:35-47 | a cookie's message determines key version and session |
| Encodings.MessagesInjective | apps/api/src/guest-crypto/binary.ts:4-36 | no message of one kind is a message of another, and each determines what was signed |
| Encodings.MessageLayout | apps/api/src/result-envelope/codec.ts:14-32 | every message is its domain followed by its fields, in this order and in these widths |
| ScannerIpc.FrameRoundTrip | apps/api/src/scanner-ipc/frame.ts:28-56 | a byte stream is read as a payload exactly when it is the frame encoded from it within the limit |
| ScannerIpc.EncodeAnswers | apps/api/src/scanner-ipc/frame.ts:38-56 | when a payload is encoded, and why it is not |
| ScannerIpc.ChunkingIndependence | apps/api/src/scanner-ipc/read.ts:149-223 | for any cut into at most 4,096 chunks, empty ones included, result and failure code depend on the bytes alone |
| ScannerIpc.TooManyChunks | apps/api/src/scanner-ipc/read.ts:171-175 | beyond that the stream is too fragmented unless the first 4,096 chunks already held a failure |
| ScannerIpc.StreamMeans | apps/api/src/scanner-ipc/read.ts:149-223 | a stream that ends is a frame, too large or invalid exactly when its magic, its declared length, most significant byte first, and its size say so |
| ScannerIpc.Interrupted | apps/api/src/scanner-ipc/read.ts:149-176 | an abort, a deadline, a source failure or a non-chunk ends the reading with its own code, unless the chunks before it already hold a failure |
| ScannerIpc.ReadsBack | apps/api/src/scanner-ipc/read.ts:149-223 | whatever was encoded is read back, however it is cut |
| ScannerIpc.ReadFrame | apps/api/src/scanner-ipc/read.ts:130-223 | the loop over two buffers computes that outcome, aborts, timeouts and stream errors included |
| GuestProjection.ParseObservations | apps/api/src/scanner-output/guest-projection.ts:204-229 | accepts exactly bounded lists without a repeated check, and sorts them |
| GuestProjection.ParseCoverage | apps/api/src/scanner-output/guest-projection.ts:231-273 | accepts exactly bounded non-empty lists without a repeated group, and sorts them |
| GuestProjection.FindingCount | apps/api/src/scanner-output/guest-projection.ts:275-299 | the number of different fingerprints, when every finding is valid |
| GuestProjection.WarningCount | apps/api/src/scanner-output/guest-projection.ts:301-317 | accepts exactly bounded lists of distinct machine codes |
| GuestProjection.ProjectOutput | apps/api/src/scanner-output/guest-projection.ts:319-394 | the projection of exactly the valid outputs: their entries in the order of their names, the numbers of different fingerprints and of warnings, and host, duration and requests as they are |
| GuestProjection.CanonicalMeans | apps/api/src/scanner-output/canonical-guest.ts:63-98 | the canonical form holds the same entries in the order of their names, each finding with the fixed redaction text as its evidence |
| GuestProjection.CanonicalIsNormalForm | apps/api/src/scanner-output/canonical-guest.ts:48-98 | two outputs have the same canonical form if and only if they have the same entries up to order and evidence |
| GuestProjection.CanonicalFixpoint | apps/api/src/scanner-output/canonical-guest.ts:63-98 | the canonical form is valid, is its own canonical form and has the same projection |
| GuestProjection.OrderAndEvidenceIrrelevant | apps/api/src/scanner-output/canonical-guest.ts:63-98 | permuting any list or changing evidence changes neither form nor projection |
| Sorting.SortIsNormalForm | apps/api/src/scanner-output/canonical-guest.ts:48-61 | sorting by an order that tells the entries apart is a normal form of their order |
| CanonicalText.RanksAreNameOrder | apps/api/src/scanner-output/canonical-guest.ts:48-50 | the ranks used for sorting are the code-unit order of the names on the wire |
| CanonicalText.SeverityRankIsNameOrder | apps/api/src/scanner-output/canonical-guest.ts:52-61 | the same of severities |
| CanonicalText.CanonicalTextIsScanned | apps/api/src/scanner-output/canonical-guest.ts:121-124 | the text written for a valid output always passes the duplicate-key scan made before it is parsed again |
| OutputReader.OutputRead | apps/api/src/scanner-output/guest-projection.ts:319-380 | what is written for a valid canonical output is read back from its parsed tree, field by field and name by name |
| OutputReader.ExactRecordMeans | apps/api/src/scanner-output/guest-projection.ts:115-123 | an exact object holds each of the fields and no other |
| OutputReader.MetadataMeans | apps/api/src/scanner-output/guest-projection.ts:364-378 | accepted metadata has the one version, profile and policy, and its own host, duration and number of requests |
| ResultEnvelope.ProduceFixpoint | apps/api/src/scanner-output/canonical-guest.ts:100-141 | a produced payload is produced again from itself: same bytes, digest, size and projection |
| ResultEnvelope.ProduceNormalizes | apps/api/src/scanner-output/canonical-guest.ts:100-141 | texts with the same entries produce the same payload |
| ResultEnvelope.ProduceAnswers | apps/api/src/scanner-output/canonical-guest.ts:100-141 | each failure exactly when its reason holds, and otherwise payload, digest, size and projection of the output that was read |
| ResultEnvelope.SignAnswers | apps/api/src/result-envelope/sign.ts:128-183 | when a result is signed, why it is not, and every field of the envelope |
| ResultEnvelope.VerifyMeans | apps/api/src/result-envelope/verify.ts:191-288 | verification succeeds exactly when header, receiver, time, MAC and payload all match |
| ResultEnvelope.VerifyAnswers | apps/api/src/result-envelope/verify.ts:191-288 | every refusal of verification exactly when its reason holds, in the order in which the reasons are tried |
| ResultEnvelope.SignedVerifies | apps/api/src/result-envelope/sign.ts:128-183 | a signed result verifies from thirty seconds before it was issued until it expires, and at no other time |
| ResultEnvelope.ParsedBack | apps/api/src/scanner-output/guest-projection.ts:184-202 | what is written for a valid output passes the duplicate-key scan and is read back as its canonical form, given that decoding and parsing its text give the tree it was written from |
| ResultEnvelope.MacBindsSubmission | apps/api/src/result-envelope/verify.ts:233-267 | two accepted submissions with one MAC and key version are the same, or exhibit two messages with one MAC under that key or two payloads with one digest |
| ResultEnvelope.RejectedOrCanonical | apps/api/src/guest-persistence/postgres-result-commit.ts:305-339 | exactly what was authenticated, is canonical and has the signed digest and size reaches the transaction, with its identity and projection |
| ResultEnvelope.PipelineAgrees | apps/api/src/guest-persistence/postgres-result-commit.ts:305-339 | what the supervisor canonicalised and signed passes the committer's checks for the envelope's whole life, with the same digest and projection |
| ResultEnvelope.ResultIsStored | apps/api/src/guest-persistence/postgres-result-commit.ts:202-339 | end to end: delivered within its lease, the stored result is the projection of the scanner's output, with its entries, counts and metadata |
| QueueTelemetry.BatchChecksAgree | apps/api/src/guest-telemetry/validation.ts:72-115 | the application's check and the table's constraints accept the same batches |
| QueueTelemetry.Collector.Record | apps/api/src/guest-telemetry/runtime.ts:120-141 | counts one outcome, saturates at the maximum, and changes nothing when the clock fails |
| QueueTelemetry.Collector.BeginFlush | apps/api/src/guest-telemetry/runtime.ts:69-98 | builds the pending batch and resets the buffer, or resends the pending one |
| QueueTelemetry.Collector.FinishFlush | apps/api/src/guest-telemetry/runtime.ts:99-117 | forgets the pending batch only when it was acknowledged |
| QueueTelemetry.BeginKeeps | apps/api/src/guest-telemetry/runtime.ts:69-98 | a batch cannot be built exactly for a bad id or a bad or earlier clock, and then nothing is lost |
| QueueTelemetry.FlushAnswers | apps/api/src/guest-telemetry/runtime.ts:69-98 | every answer of a flush exactly when its reason holds, and every field of the batch that is built, its alert as the table demands |
| QueueTelemetry.BufferTells | apps/api/src/guest-telemetry/runtime.ts:120-141 | over any run the active counters are the recordings since the last batch up to the maximum, dated by the first of them, and marked saturated exactly when one would have passed it |
| QueueTelemetry.StoreAnswers | apps/api/src/guest-telemetry/postgres-store.ts:64-83 | the store answers duplicate exactly when it holds that very batch and refuses exactly when it keeps another one under the id; it keeps the batches less than thirty days old |
| QueueTelemetry.EveryCountIsSomewhere | apps/api/src/guest-telemetry/runtime.ts:63-148 | for any recordings, flushes, lost acknowledgements, store failures and ids, recorded equals inserted plus pending plus active plus what was dropped as a repetition, short of it only when a batch says it saturated |
| QueueTelemetry.LosesExactlyRepeats | apps/api/src/guest-telemetry/runtime.ts:99-117 | something is dropped if and only if an acknowledgement is taken for a batch that the store already held when it was built |
| QueueTelemetry.ExactlyOnceTelemetry | apps/api/src/guest-telemetry/runtime.ts:63-148 | if no batch is built that the store already holds, in particular with unused ids, recorded equals inserted plus pending plus active and retries never count twice |
| QueueTelemetry.RepeatLosesItsCounts | apps/api/src/guest-telemetry/postgres-store.ts:10-38 | a batch that the store already held, delivered and acknowledged, loses exactly its counts |
| QueueTelemetry.ClashStaysPending | apps/api/src/guest-telemetry/postgres-store.ts:76-83 | an id repeated with other contents loses nothing and is refused for ever: the batch stays pending whatever follows |
| QueueTelemetry.RetriesAreIdentical | apps/api/src/guest-telemetry/runtime.ts:69-117 | a retry resends the very same batch until the store has it |
| QueueTelemetry.RepeatedIdLosesCounts | apps/api/src/guest-telemetry/postgres-store.ts:10-38 | a run in which an id is repeated with the same contents and one of two recorded outcomes is lost |
| RetentionCycle.WorkerAnswersAreValid | apps/api/src/guest-retention/runtime.ts:53-103 | every batch of the database worker passes the cycle's check |
| RetentionCycle.SuccessMeans | apps/api/src/guest-retention/runtime.ts:53-125 | an answer is trusted exactly when its counts can be those of one batch and its alarm is raised for inconsistencies and nothing else |
| RetentionCycle.RunBatches | apps/api/src/guest-retention/runtime.ts:199-258 | the loop stops for the reason its status names, with exact sums over the trusted answers |
| RetentionCycle.RunCycle | apps/api/src/guest-retention/runtime.ts:180-286 | for all worker, pruner, clock and id behaviours: batches are run exactly for good options, start and id; their record is handed to the store exactly when the cycle ends at a good time with its last observation inside it; and it then passes the validator and the table's constraints |
| RetentionCycle.RecordChecksAgree | apps/api/src/guest-retention/validation.ts:50-97 | the validator accepts exactly what the table's constraints accept, but for the bounds that relate the counters |
| RetentionCycle.BoundIsReached | apps/api/src/guest-retention/validation.ts:4-13 | a hundred full batches reach exactly the validator's 200,000 |
| NetworkAddress.FormatIpv6 | apps/api/src/guest-abuse/network-address.ts:35-62 | the nested loop computes the printed form |
| NetworkAddress.FirstLongestRun | apps/api/src/guest-abuse/network-address.ts:35-62 | what the printed form leaves out is the first of the longest runs of zero groups, when it has at least two |
| NetworkAddress.ParseIsInverse | apps/api/src/guest-abuse/network-address.ts:64-109 | parsing a printed address gives it back; an IPv4-mapped one is read as the IPv4 address |
| NetworkAddress.PrintedFormIsUnique | apps/api/src/guest-abuse/network-address.ts:35-62 | two addresses print the same exactly when they are the same |
| NetworkAddress.Ipv4Exactly | apps/api/src/guest-abuse/network-address.ts:17-33 | an IPv4 text is four numbers up to 255 without leading zeros between dots, the first the most significant |
| NetworkAddress.Ipv6Exactly | apps/api/src/guest-abuse/network-address.ts:64-96 | the groups of a text are those of section 2.2 of RFC 4291: eight, or fewer around one double colon that stands for at least one zero group |
| NetworkAddress.DottedEnd | apps/api/src/guest-abuse/network-address.ts:66-73 | a dotted end stands for two groups |
| NetworkAddress.Ipv6TextMeans | apps/api/src/guest-abuse/network-address.ts:64-74 | letters count in either case and a zone is refused |
| NetworkAddress.AddressMeans | apps/api/src/guest-abuse/network-address.ts:92-109 | an IPv4-mapped address is the IPv4 address in its last two groups, and every other one is itself |
| NetworkAddress.GroupsMean | apps/api/src/guest-abuse/network-address.ts:98-101 | the value of eight groups, the first one the most significant |
| NetworkAddress.CidrExactly | apps/api/src/guest-abuse/network-address.ts:123-139 | a range is an address, a slash and a prefix length without leading zeros that is no longer than the address |
| NetworkAddress.ContainsMeans | apps/api/src/guest-abuse/network-address.ts:123-147 | a range holds exactly the addresses of its family from its network up to network plus two to the host bits |
| NetworkAddress.RangeContainsItself | apps/api/src/guest-abuse/network-address.ts:123-147 | a range contains the address it was written with |
| TrustedIngress.LastUntrustedMeans | apps/api/src/guest-abuse/trusted-ingress.ts:86-98 | the address found is untrusted with only trusted proxies behind it, and none is found exactly when all are trusted |
| TrustedIngress.TrustedMeans | apps/api/src/guest-abuse/trusted-ingress.ts:73-79 | an address is trusted exactly when it lies in the range that one of the configured texts gives |
| TrustedIngress.ForwardedForMeans | apps/api/src/guest-abuse/trusted-ingress.ts:45-57 | a header is accepted exactly when it has 1 to 512 characters and at most eight parts between its commas, each an address with white space around it; the chain is these addresses in their order |
| TrustedIngress.TrimMeans | apps/api/src/guest-abuse/trusted-ingress.ts:52-53 | what is trimmed off is white space, and none is left at either end |
| TrustedIngress.ParseForwardedFor | apps/api/src/guest-abuse/trusted-ingress.ts:45-57 | the loop accepts a header exactly when every part parses |
| TrustedIngress.Resolve | apps/api/src/guest-abuse/trusted-ingress.ts:59-111 | the walk returns the last untrusted element of the chain followed by the peer |
| ResultView.SnapshotProjection | apps/api/src/guest-result/view.ts:183-287 | accepts exactly bounded projections without repeated checks or groups |
| ResultView.ProjectionOkMeans | apps/api/src/guest-result/view.ts:183-287 | a projection is good exactly with a canonical host, no check or group twice, some coverage, and counts within the limits |
| ResultView.ProjectionIsViewable | apps/api/src/guest-result/view.ts:183-287 | the projection of every valid output is good, so that every stored result can be shown |
| ResultView.PostureComesBack | apps/api/src/guest-result/view.ts:42-58 | the five sections partition the 17 checks, so reading them back loses nothing |
| ResultView.CoverageComesBack | apps/api/src/guest-result/view.ts:289-296 | reading the public states back gives every group its state again |
| ResultView.BuiltIsAccepted | apps/api/src/guest-result/view.ts:298-385 | every view built for access authorised at a time is accepted unchanged at that time |
| ResultView.AcceptsExactlyViews | apps/api/src/guest-http/result-projection.ts:44-120 | what the rebuilder lets out is the value it was given, and exactly the values that are such views |
| ResultView.ViewMeans | apps/api/src/guest-result/view.ts:289-381 | a view is built exactly for good access, a good projection and a completion before the access was authorised; and then every field shows what it should: each check in its section, each group's state by its own coverage entry, the overall state and the counts by the groups |
| ResultView.RebuiltShows | apps/api/src/guest-http/result-projection.ts:44-120 | whatever the rebuilder lets out shows, in that sense, some valid projection for this scan and time |

## Left out

- SQL text, connections, isolation levels and the retry on serialization failures: a transaction is one atomic step that commits or changes nothing.
- The order in which retention selects due rows, and rows locked by others: the rows a batch visits, and in which order, are a parameter.
- `updated_at` of counter rows and the release reason's use: written by the program, read by no decision that is modelled.
- Transactions of session revocation and of result-access revocation: no code writes `result_access_revoked_at`, so the runs keep it as it was; the pruner of revoked sessions appears only as the answers the retention cycle receives.
- SHA-256, HMAC and constant-time comparison: functions given as parameters, or, for result tokens in the lifecycle, the tuple of authenticated fields and the key; a statement that needs them free of collisions says so.
- UTF-8 and the JSON parser: the scan over the text, the text of the canonical output and the reading of a parsed tree are modelled in full; that the canonical text, once decoded, is parsed to the tree it was written from is a stated assumption (`PlatformOk`). The scan's literals are any runs of literal characters, a superset of JSON's numbers and words.
- Host canonicalization: a predicate on hosts.
- The exact formats of session scopes, idempotency keys and request hashes: a create request is taken with them validated.
- The order of the retained keys of the network keyring, and HMAC itself: a sender has the active key first and the others in any order, and a digest is a function of key version and network.
- Node's `isIP` test in front of address parsing: text that the program's own parser accepts is taken to pass it.
- Object shapes, getters and freezing at the boundaries: records are typed.
- QueueProcessor.Process: does not model the clock that drives the heartbeat; the times of its renewals, all after the start and before the scanner's answer, are a parameter.
- GuestStore.Store.PersistResult: takes the database clock's reading as a parameter instead of reading it in the same statement that locks the rows.
- QueueTelemetry.ExactlyOnceTelemetry: one collector on its own store; other writers' batches, which have other ids, and the pruning that comes with them are not modelled.
- HTTP routes, queue wiring, process launching, file permissions, the OAuth client, pages, capability and scanner policy tables, notification delivery: plumbing or closed tables.
