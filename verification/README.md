# Gateway runtime and control plane, modelled in Dafny

The project models the hard algorithms of a self-hosted AI gateway: the
concurrent protocols of its process runtime and the control-plane state machines.
There is one module per component, and each keeps the form of its source. What the
source updates in place is a class or a loop proved against a specification
function; what the source only computes is a function; every race is a step system
whose runs are arbitrary sequences of atomic steps.

| module | component |
|---|---|
| `WaitQueue`, `WaitProtocol` | the bounded priority wait queue, and its wake-up protocol under every interleaving |
| `ConnectionTracker` | the packed drain word and the wait for idle |
| `Cancellation`, `CancelledCall` | the token tree, `cancel` racing `wait_for_state`, and `cancelled` waiting on a whole chain |
| `BackupSchedule`, `BackupCursor`, `BackupTask` | cron firings under a time zone, the schedule cursor, the crash-recoverable task |
| `QuotaSampling`, `QuotaForecast` | anchor selection and projection |
| `WorkerPlan`, `Supervisor` | plan validation, leased cycles, backoff, health |
| `OperationRewrite` | middleware rewriting with one translation at most |
| `EventOrder` | the canonical event stream validator |
| `Common` | `Option`, `Result`, `Min` |

`dafny verify dfyconfig.toml` verifies the whole project.

## Assumptions

- Concurrency is sequentially consistent. A critical section, an atomic operation,
  `AtomicWaker::register`, `AtomicWaker::wake` and `Notify::notify_waiters` are one
  step each. `wake` without a stored waker and `notify_waiters` without an enabled
  future leave nothing behind.
- Clocks are arbitrary integers given to each operation. No clock is monotone
  unless a lemma says so.
- Floats are reals: no rounding, no NaN, no infinity. Queue scores are integers,
  because `total_cmp` compares floats as integers.
- `usize` has 64 bits and its arithmetic wraps. The largest `Duration` is explicit.
- A time zone gives each UTC minute an offset in whole minutes. A cron expression is
  a set of local minutes with a horizon, because the cron crate ends at a last year.
- The schedule tables keep their constraints: an enabled schedule has a cursor, a
  scheduled instant has at most one row, an object key has at most one row. The cron
  expression does not change.
- The panic strategy of the build is a parameter. The release profile
  (backend/Cargo.toml:57) aborts, so there `catch_unwind` catches nothing.
- One backup daemon runs. Before each of its port calls an administrator may enqueue
  backups and start deletions of finished ones. Each port call may fail, or be where
  the process dies, with the write applied or not. In a calm environment nobody interferes
  and the stores answer by an oracle, so that a result can be stated for all answers.
- Protocol names are ASCII.

## Findings

- `next_after` returns the least later firing in every zone where a local minute
  that was skipped is never shown later (`NextAfterIsLeast`). In every other zone
  some schedule loses a firing (`ReopenedGapLosesFiring`). Spaced daylight-saving
  steps meet the condition (`SpacedStepsKeepGaps`).
- `last_firing_at_or_before` promises `None` only for an empty look-back window. It
  also answers `None` when the schedule has no firing after `at` and none in the
  minute of `at`. `IsLastFiring` is the exact condition; for every schedule that ends,
  its last firing is missed from the next minute on (`MissedLastFiring`).
- The last firing of a schedule that ends never gets a record
  (`LastFiringIsNeverRecorded`), while every other firing can
  (`EarlierFiringIsRecorded`), whatever the edits. The insertion would empty the cursor of an enabled
  schedule, which the table refuses, so a due call fails exactly in the minute of the
  last firing (`CallFailsOnlyAtTheEnd`). A failing call ends the whole backup cycle.
- No firing gets two records under any clocks, concurrent calls, crashes and deletions
  (`EveryFiringAtMostOnce`), unless an administrator enables the schedule at a clock
  reading whose next firing is not after the last insertion. Once the row of the last
  record is deleted, its firing can then get a second record
  (`EditBehindRepeatsFiring`). A clock that never goes back excludes this
  (`MonotoneClockInsertsOnce`).
- Where panics unwind, a lease is released exactly once unless `run_cycle` or `renew`
  panics before it returns a future: those two calls are outside `catch_unwind`. Where
  panics abort, as in the release profile, it is released exactly once unless any panic
  is met before the release. Both conditions are exact (`RunLeasedCycle`). A lease lost
  this way is left to its TTL.
- Only in a build whose panics unwind: a worker whose supervisor was carried away
  reports nothing more. If it was running, never succeeded and had no pending failure,
  it is judged healthy for ever (`UnwoundWorkerHealth`).
- The retention rule never picks the newest completed scheduled backup, but a batch as a
  whole does not keep it: scheduled records carry an expiry, and the batch deletes
  expired records first. A completed scheduled backup is left if and only if the expiry
  did not take them all; the newest one it did not take survives (`RunRetentionBatch`).
- The comment on `with_native_encoded_body` says that native encoding does not use
  up the one protocol change. In the code it does: afterwards every change of
  protocol is refused (`NativeEncodingEndsTranslation`). The model follows the code.
- A daemon that failed once is never judged healthy again, however long it runs
  afterwards: only success and standby clear the failure count, and a daemon reports
  neither (`DaemonNeverRecovers`).
- A busy lease resets the failure count that the health check reads, but not the
  backoff (`PendingFollowsRounds`, `TakeDelay`).

## Model

| member | source | states |
|---|---|---|
| `WaitQueue.EveryRunKeepsInv` | backend/crates/gateway-core/src/concurrency.rs:127-263 | after every run of enqueues and drops: `total` is the sum of the queue lengths and at most 1024, no stored queue is empty, each queue is all High then all Normal in arrival order, and live tickets and queued waiters correspond one to one |
| `WaitQueue.EnqueueThenDropRestores` | backend/crates/gateway-core/src/concurrency.rs:156-262 | in every reachable state, enqueueing a waiter of any priority and dropping its ticket restores the queue map and the total exactly |
| `WaitQueue.HighWaiterBlocksOthers` | backend/crates/gateway-core/src/concurrency.rs:92-103 | in every reachable state with a High waiter queued for a key, no request without a ticket for it passes `can_try`, and a ticket holder that passes is the head and High |
| `WaitQueue.TicketTriesIffHead` | backend/crates/gateway-core/src/concurrency.rs:302-309 | after every run the holder of a live ticket may try for its key exactly when it is the head |
| `WaitQueue.OtherTicketIsNoTicket` | backend/crates/gateway-core/src/concurrency.rs:302-309 | a ticket for another key does not change the answer |
| `WaitQueue.NormalNewcomerNeedsEmptyQueue` | backend/crates/gateway-core/src/concurrency.rs:302-309 | a Normal newcomer passes `can_try` exactly on an empty queue |
| `WaitQueue.HighNewcomerYieldsToHighOnly` | backend/crates/gateway-core/src/concurrency.rs:302-309 | after every run a High newcomer passes `can_try` exactly when the queue is empty or its head is Normal |
| `WaitQueue.NormalWaitersBounded` | backend/crates/gateway-core/src/concurrency.rs:145-164 | under one `max_waiting`, no run ever leaves more Normal waiters in a queue than it, even though High waiters are exempt |
| `WaitQueue.InsertPosition` | backend/crates/gateway-core/src/concurrency.rs:158-164 | Normal goes last; High goes behind exactly the leading High waiters |
| `WaitQueue.SelectKey` | backend/crates/gateway-core/src/concurrency.rs:145-155 | the first key of greatest score among those with room; none exactly when no key has room |
| `WaitQueue.Admission` | backend/crates/gateway-core/src/concurrency.rs:135-155 | Timeout exactly past the deadline, Full exactly when in time and the global cap or every key refuses, otherwise the first key of greatest score among those with room; High is never refused by a queue's length |
| `WaitQueue.ConcurrencyWaitQueue.EnqueueRanked` | backend/crates/gateway-core/src/concurrency.rs:127-180 | the ticket goes to the first key of greatest score among those with room; refines the admission decision; a rejection changes nothing; keeps the invariant |
| `WaitQueue.ConcurrencyWaitQueue.DropWaiter` | backend/crates/gateway-core/src/concurrency.rs:235-263 | removes exactly the ticket's waiter, changes nothing if it is not queued, and names the new front as wake target only if the front left; keeps the invariant |
| `WaitQueue.DropWakesNewHead` | backend/crates/gateway-core/src/concurrency.rs:244-261 | after every run a drop wakes exactly the waiter that becomes head by it |
| `WaitQueue.WaitBudget.Deadline` | backend/crates/gateway-core/src/concurrency.rs:28-35 | the shared deadline is written once, and the result is the smaller of it and the request deadline |
| `WaitQueue.CapacityWait.Reserve` | backend/crates/gateway-core/src/concurrency.rs:323-347 | a position is kept while its key is a candidate, otherwise freed before a new one is sought; the new one, its deadline or the rejection is what the admission decision gives; the shared deadline never moves; a rejection leaves no position |
| `WaitProtocol.NoHeadIsEverStranded` | backend/crates/gateway-core/src/concurrency.rs:158-263 | under every interleaving of register, head check, park, spurious poll, abandon, drop, late wake and front insertion, a parked head has been woken or some dropper is about to wake it |
| `WaitProtocol.ParkedHeadGetsItsTurn` | backend/crates/gateway-core/src/concurrency.rs:207-263 | in every reachable state that owed wake, when delivered, brings the parked head to its turn |
| `WaitProtocol.TurnOnlyAtHead` | backend/crates/gateway-core/src/concurrency.rs:207-216 | under every interleaving a turn is given only by a registered poll that finds its waiter at the head |
| `WaitProtocol.HeadAfterRelease` | backend/crates/gateway-core/src/concurrency.rs:244-261 | a waiter that becomes head by a drop is exactly the wake target of that drop |
| `WaitProtocol.HeadAfterAdmit` | backend/crates/gateway-core/src/concurrency.rs:158-173 | an insertion makes nobody head except the new waiter |
| `ConnectionTracker.StepRefinesGate` | backend/crates/gateway-host/src/serve.rs:42-114 | every atomic step on the packed word is a step of the pair (draining, active): an increment never reaches the drain bit, a decrement never borrows from it, and a guard is added only while not draining |
| `ConnectionTracker.RegistersIff` | backend/crates/gateway-host/src/serve.rs:70-90 | a compare-exchange registers exactly if it knows the current word, does not fail spuriously, and the gate is open and not full |
| `ConnectionTracker.FailedExchangeRetriesOrEnds` | backend/crates/gateway-host/src/serve.rs:73-87 | a failed attempt ends exactly if what it had read refuses, and otherwise has read the word again |
| `ConnectionTracker.DropsAndDrains` | backend/crates/gateway-host/src/serve.rs:42-48 | a drop takes its guard and one from the count, and draining sets the bit and nothing else |
| `ConnectionTracker.WordCountsLiveGuards` | backend/crates/gateway-host/src/serve.rs:70-114 | in every reachable state the masked word is the number of live guards |
| `ConnectionTracker.DrainingIsFinal` | backend/crates/gateway-host/src/serve.rs:42-90 | once set, the drain bit never clears, no registration succeeds and the count never grows, over every continuation |
| `ConnectionTracker.IdleWakeupIsNeverLost` | backend/crates/gateway-host/src/serve.rs:42-66 | no interleaving parks a wait on a zero count unless a notifier is still between its update and its notify |
| `ConnectionTracker.ParkedIdleWaitReturns` | backend/crates/gateway-host/src/serve.rs:50-66 | in every reachable state a wait parked on a zero count returns by the notification owed to it |
| `ConnectionTracker.ReturnsIffIdle` | backend/crates/gateway-host/src/serve.rs:50-66 | apart from its timeout a wait returns exactly by reading a zero count |
| `ConnectionTracker.DrainingWaitIsBounded` | backend/crates/gateway-host/src/serve.rs:50-66 | once draining, a wait reads the count at most `notifiers + 3` times, whatever the schedule |
| `ConnectionTracker.ConnectionState.TryRegister` | backend/crates/gateway-host/src/serve.rs:70-90 | against any interference and spurious failures the loop ends; it adds one to the count of a word that was not draining or full, or leaves a word that was |
| `ConnectionTracker.ConnectionState.BeginDraining` | backend/crates/gateway-host/src/serve.rs:42-48 | sets the bit, keeps the count, notifies exactly when the count was zero |
| `ConnectionTracker.ConnectionState.DropGuard` | backend/crates/gateway-host/src/serve.rs:107-114 | takes one from the count, keeps the bit, notifies exactly when the count reaches zero |
| `Cancellation.CancellationToken.ChildToken` | backend/crates/gateway-core/src/lifecycle.rs:50-61 | a fresh state whose ancestors are the parent's whole chain, and so the parent's answer |
| `Cancellation.CancellationToken.Cancel` | backend/crates/gateway-core/src/lifecycle.rs:63-74 | afterwards a token is cancelled exactly if it was or the cancelled state is in its chain; only the first call drains and signals the waiters |
| `Cancellation.ChainIsAncestors` | backend/crates/gateway-core/src/lifecycle.rs:50-61 | the carried list holds exactly the proper ancestors by parent links |
| `Cancellation.CancelReachesExactlyDescendants` | backend/crates/gateway-core/src/lifecycle.rs:50-83 | in every token tree, cancelling a token newly cancels exactly it and its descendants |
| `Cancellation.CancelSparesAncestors` | backend/crates/gateway-core/src/lifecycle.rs:48-74 | cancelling a token never changes the answer of a proper ancestor |
| `Cancellation.CancelledIffAncestorWas` | backend/crates/gateway-core/src/lifecycle.rs:77-83 | over every run, a token is cancelled if and only if it or an ancestor was cancelled |
| `Cancellation.DrainedListStaysEmpty` | backend/crates/gateway-core/src/lifecycle.rs:63-111 | under every interleaving, once the winning canceller has taken the list it is empty for ever |
| `Cancellation.NoWaiterIsLeftBehind` | backend/crates/gateway-core/src/lifecycle.rs:63-111 | after the last signal every waiter still listed holds a signal, and a waiter returns only if the flag is set |
| `Cancellation.CancelledCellCanDrain` | backend/crates/gateway-core/src/lifecycle.rs:63-74 | whenever the flag is set and the lock free, the take is done or possible |
| `Cancellation.CancelledWaitReturns` | backend/crates/gateway-core/src/lifecycle.rs:63-111 | wherever a waiter of a cancelled state stands, a bounded number of steps of itself, the canceller and the lock holder makes it return |
| `CancelledCall.ReturnsOnlyIfCancelled` | backend/crates/gateway-core/src/lifecycle.rs:85-94 | over every run of token creations, cancellations and calls, a call of `cancelled` returns only if its token or an ancestor was cancelled |
| `CancelledCall.NoCallIsLeftBehind` | backend/crates/gateway-core/src/lifecycle.rs:85-111 | while a call is suspended on its whole chain, every cancelled state of that chain still owes it a signal |
| `CancelledCall.CancelledCallReturns` | backend/crates/gateway-core/src/lifecycle.rs:85-111 | once any state of its chain is cancelled, a call that was not dropped returns by steps already owed to it |
| `BackupSchedule.NextAfterIsLeast` | backend/crates/gateway-admin/src/backup/policy.rs:82-92 | the result is exactly the least firing after `at`; a skipped local minute never fires and a repeated one fires once |
| `BackupSchedule.ReopenedGapLosesFiring` | backend/crates/gateway-admin/src/backup/policy.rs:82-92 | in every zone that violates the gap condition, some schedule and instant make `next_after` wrong |
| `BackupSchedule.SpacedStepsKeepGaps` | backend/crates/gateway-admin/src/backup/policy.rs:82-92 | zones whose backward steps are spaced meet the gap condition |
| `BackupSchedule.Bisect` | backend/crates/gateway-admin/src/backup/policy.rs:61-74 | the search ends at a minute before which the next firing is not after `high` and at which it is, unless it is `high` itself |
| `BackupSchedule.LastFiringAtOrBefore` | backend/crates/gateway-admin/src/backup/policy.rs:48-78 | the greatest firing of the look-back window; `None` exactly when the window is empty or every firing is before the minute of `at` |
| `BackupSchedule.MissedLastFiring` | backend/crates/gateway-admin/src/backup/policy.rs:43-78 | for every schedule that ends and every later minute with the last firing in the window, the answer is `None` |
| `BackupSchedule.DecideRetention` | backend/crates/gateway-admin/src/backup/policy.rs:131-164 | exactly the due records, in order, each with the reason that applies; the newest is never due |
| `BackupCursor.FinishKeepsLaws` | backend/crates/gateway-admin/src/backup/task.rs:117-222 | one call keeps the laws, however stale what it loaded and whatever its clock: instants strictly increase, each record is for the last firing at its insertion, the cursor is a firing ahead of every insertion |
| `BackupCursor.EveryFiringAtMostOnce` | backend/crates/gateway-admin/src/backup/task.rs:117-222 | over every run of concurrent calls with any clocks, crashes between load and write, deletions, storage edits, and schedule edits that put the cursor ahead, no firing gets two records and missed firings collapse into the latest |
| `BackupCursor.MonotoneClockInsertsOnce` | backend/crates/gateway-admin/src/backup/task.rs:117-222 | with a clock that never goes back every edit puts the cursor ahead, so the law holds with edits at any time |
| `BackupCursor.EditBehindRepeatsFiring` | backend/crates/gateway-admin/src/use_case/backup.rs:129-150 | the condition on edits is exact: every edit that is not ahead lets an honest run repeat the last record, by deleting its row, editing and calling |
| `BackupCursor.LastFiringIsNeverRecorded` | backend/crates/gateway-store/src/postgres/backup.rs:270-342 | over every run, whatever the clocks and edits, the last firing of a schedule that ends gets no record |
| `BackupCursor.RecordedFiringsHaveSuccessors` | backend/crates/gateway-store/src/postgres/backup.rs:270-342 | over every run, whatever the clocks and edits, each record is for a firing that has a later one |
| `BackupCursor.EarlierFiringIsRecorded` | backend/crates/gateway-admin/src/backup/task.rs:171-222 | a due call in the minute of a firing that has a later one records it, unless a row or an active task is in the way |
| `BackupCursor.CallFailsOnlyAtTheEnd` | backend/migrations/0001_initial.sql:852-855 | a call fails exactly when it is due in the minute of the last firing of a schedule that ends |
| `BackupCursor.ScheduleStore.AdvanceSchedule` | backend/crates/gateway-admin/src/backup/task.rs:117-222 | refines the step function and keeps the laws; a failure changes nothing; each insertion leaves a cursor past both `now` and the inserted firing |
| `BackupCursor.CallEffect` | backend/crates/gateway-admin/src/backup/task.rs:117-222 | a call that has something to do puts the cursor on the least later firing and inserts the last one exactly if the zone was right and nothing is in the way; any other call changes nothing |
| `BackupCursor.EditEffect` | backend/crates/gateway-admin/src/use_case/backup.rs:129-150 | an edit that enables puts the cursor on the least later firing or is refused; one that disables clears it |
| `BackupTask.CompletedOnlyAfterMatchingHead` | backend/crates/gateway-admin/src/backup/task.rs:500-520 | a step of `RunDaemon`: a completion directly follows a head of the record's own object key that equals a seen archive of the record in size and SHA-256 |
| `BackupTask.StableArchiveMatchesPersisted` | backend/crates/gateway-admin/src/backup/task.rs:300-318 | if the archive never changed, that head returned the persisted size and hash |
| `BackupTask.RowOutlivesItsObject` | backend/crates/gateway-admin/src/backup/task.rs:650-667 | a step of `RunDaemon`: a row removal directly follows the successful delete of its object, requested while the row was deleting |
| `BackupTask.CompletedObjectIsKept` | backend/crates/gateway-admin/src/backup/task.rs:300-318 | from the row and log laws: every completed row has its matching head directly before its completion, and nothing since asked to delete its object |
| `BackupTask.Environment.Transition` | backend/crates/gateway-store/src/postgres/backup.rs:504-547 | the compare-and-set write: it applies only from the expected status, and a failure may hide an applied write; the log and row laws are kept |
| `BackupTask.Environment.DeleteRow` | backend/crates/gateway-store/src/postgres/backup.rs:571-578 | removes a row directly after its object was deleted; keeps the laws |
| `BackupTask.BackupTask.FailTask` | backend/crates/gateway-admin/src/backup/task.rs:567-599 | keeps the laws and changes only its own record; when calm it ends failed and its staging is asked to be cleaned up |
| `BackupTask.BackupTask.UploadAndVerify` | backend/crates/gateway-admin/src/backup/task.rs:462-564 | keeps the laws under every failure and crash; when calm the record ends completed exactly if the upload succeeds and the head equals the archive, and what is asked of the stores is exactly what that needs |
| `BackupTask.BackupTask.VerifyRemote` | backend/crates/gateway-admin/src/backup/task.rs:500-563 | completes only after a head equal to the archive; when calm the record ends completed exactly on such a head, and an object that differs is asked to be deleted |
| `BackupTask.BackupTask.RecoverDumping` | backend/crates/gateway-admin/src/backup/task.rs:245-288 | keeps the laws; when calm the record ends as the upload of its staged archive does, and failed without one |
| `BackupTask.BackupTask.RecoverUploading` | backend/crates/gateway-admin/src/backup/task.rs:291-340 | keeps the laws; when calm a remote object equal to the persisted values completes the record, and otherwise it ends as a new upload of its staged archive does, failed without one |
| `BackupTask.BackupTask.RecoverIntermediate` | backend/crates/gateway-admin/src/backup/task.rs:225-242 | in a calm environment one pass takes every dumping or uploading record to completed or failed, and leaves no such row |
| `BackupTask.BackupTask.FinalizeDeletion` | backend/crates/gateway-admin/src/backup/task.rs:650-667 | the object goes before the row; when calm the row goes exactly if the delete of the object succeeds; keeps the laws |
| `BackupTask.BackupTask.FinishPendingDeletions` | backend/crates/gateway-admin/src/backup/task.rs:343-367 | when calm, of at most twenty deleting rows, all of them if fewer, each goes exactly if the delete of its object succeeds |
| `BackupTask.BackupTask.ExecuteTask` | backend/crates/gateway-admin/src/backup/task.rs:395-459 | keeps the laws; when calm the record ends failed without verified storage or a dump, and otherwise as its upload does |
| `BackupTask.BackupTask.ProcessNextTask` | backend/crates/gateway-admin/src/backup/task.rs:370-392 | when calm a queued row is claimed if there is one, and ends as its task does |
| `BackupTask.BackupTask.RunRetentionBatch` | backend/crates/gateway-admin/src/backup/task.rs:602-647 | rows still being worked on are untouched; without interference exactly the expired records taken and the ones the rule then picks go, ten each, and of the completed scheduled backups that were not taken a newest one is left as it was |
| `BackupTask.BackupTask.DeleteDecided` | backend/crates/gateway-admin/src/backup/task.rs:623-645 | without interference exactly the first ten due records of a newest-first listing go; some completed scheduled backup is left exactly if there was one, and a newest one is |
| `BackupTask.NewestFirst` | backend/crates/gateway-store/src/postgres/backup.rs:608-630 | the listing holds the completed scheduled rows, newest first, and its head is at least as new as every such row, listed or cut off |
| `BackupTask.BackupTask.RunDaemon` | backend/crates/gateway-admin/src/backup/task.rs:83-114 | over any number of cycles and process lives: every completion directly follows a matching head, every completed row still has its object, and every row that vanished was removed directly after its object |
| `QuotaSampling.Difference` | backend/crates/gateway-admin/src/model/quota_forecast_sampling.rs:28-53 | defined exactly when no counter went back and the cost not beyond 1e-9; adding it to the baseline gives the total, the cost within that tolerance |
| `QuotaSampling.SortIsStable` | backend/crates/gateway-admin/src/model/quota_forecast_sampling.rs:126-126 | sorting keeps observations of equal time in order |
| `QuotaSampling.ScanForAnchors` | backend/crates/gateway-admin/src/model/quota_forecast_sampling.rs:143-168 | the loop computes the scan function the laws are about |
| `QuotaSampling.SelectForecastSample` | backend/crates/gateway-admin/src/model/quota_forecast_sampling.rs:112-204 | the whole operation computes the sample function the laws are about |
| `QuotaSampling.ScanSeesNoLaterDrop` | backend/crates/gateway-admin/src/model/quota_forecast_sampling.rs:146-168 | for every history there is no drop after the first anchor, and a reset is at a drop |
| `QuotaSampling.NoDeepFallAfterReset` | backend/crates/gateway-admin/src/model/quota_forecast_sampling.rs:146-168 | since the last reset no counted observation is more than one point below any earlier one |
| `QuotaSampling.IncrementalSampleIsSound` | backend/crates/gateway-admin/src/model/quota_forecast_sampling.rs:120-204 | for every history an incremental sample starts at an observation with no drop after it, has 1 to 3 blocks and progress of at least max(5, 5 × blocks − 1), and measures the usage since that observation |
| `QuotaSampling.IncrementalIff` | backend/crates/gateway-admin/src/model/quota_forecast_sampling.rs:169-203 | for every history exactly when a sample is incremental, with as many blocks as there are up to three, and exactly when a cumulative one is discontinuous |
| `QuotaSampling.ScanKeepsAnchors` | backend/crates/gateway-admin/src/model/quota_forecast_sampling.rs:143-168 | anchors rise by at least a block, and the running maximum is less than a block above the last, so no block is left out |
| `QuotaSampling.SampleShape` | backend/crates/gateway-admin/src/model/quota_forecast_sampling.rs:127-140 | what every sample carries, and that a cumulative one is the whole usage up to the current point |
| `QuotaSampling.CycleUsageWithoutDrop` | backend/crates/gateway-admin/src/model/quota_forecast_sampling.rs:143-178 | without a drop the cycle usage is everything, or after an interruption what came since the first point |
| `QuotaSampling.CycleUsageStartsAtLastDrop` | backend/crates/gateway-admin/src/model/quota_forecast_sampling.rs:156-178 | after a drop the cycle usage is the usage since the last drop, and counters that went back make the sample unusable |
| `QuotaForecast.AccountQuotaForecast.Project` | backend/crates/gateway-admin/src/model/quota_forecast.rs:97-203 | the stepwise update computes the projection function the laws are about |
| `QuotaForecast.NeverBelowRecordedUsage` | backend/crates/gateway-admin/src/model/quota_forecast.rs:163-215 | a non-extrapolated forecast is never below the recorded cycle usage, in tokens and cost |
| `QuotaForecast.ProportionalSample` | backend/crates/gateway-admin/src/model/quota_forecast_sampling.rs:112-204 | with proportional use and no drop, the sampled usage is the rate times the sampled percent, for both methods |
| `QuotaForecast.ProportionalForecastIsExact` | backend/crates/gateway-admin/src/model/quota_forecast.rs:163-215 | under the same conditions a produced forecast is exactly the usage at one hundred percent, tokens rounded |
| `QuotaForecast.UsdForecastIs` | backend/crates/gateway-admin/src/model/quota_forecast.rs:184-199 | a cost is estimated exactly when everything is ready and both usages have one; it is the cost of the whole window scaled from the window to the target, extrapolated or not |
| `QuotaForecast.TokenForecastIs` | backend/crates/gateway-admin/src/model/quota_forecast.rs:184-199 | the same for tokens, rounded, if they fit |
| `QuotaForecast.ProportionalExtrapolation` | backend/crates/gateway-admin/src/model/quota_forecast.rs:184-199 | under proportional use a forecast of any period is the usage at one hundred percent scaled from the window to the target |
| `QuotaForecast.RoundIsNearest` | backend/crates/gateway-admin/src/model/quota_forecast.rs:211-215 | rounding goes to the nearest integer, halves up |
| `QuotaForecast.ReasonIff` | backend/crates/gateway-admin/src/model/quota_forecast.rs:139-202 | the reason given is that of the first check that fails, and none is given exactly with an estimate |
| `QuotaForecast.FlagsIff` | backend/crates/gateway-admin/src/model/quota_forecast.rs:109-138 | what the source, target and flags of a forecast say |
| `WorkerPlan.TryFrom` | backend/crates/gateway-host/src/workers.rs:149-190 | accepts exactly the lists with valid entries, distinct ids, no kind disabled twice or both active and disabled, and every kind covered; otherwise the error is that of the first bad entry, or names exactly the uncovered kinds |
| `WorkerPlan.Collect` | backend/crates/gateway-host/src/workers.rs:150-174 | the loop succeeds exactly on valid, pairwise compatible entries and its maps hold exactly them |
| `WorkerPlan.ValidateIff` | backend/crates/gateway-core/src/task.rs:392-408 | the error an entry has by itself, in both directions |
| `WorkerPlan.ClashIffIncompatible` | backend/crates/gateway-host/src/workers.rs:154-173 | the lookups in the maps find a clash exactly when some earlier entry is incompatible |
| `WorkerPlan.PlanIgnoresOrder` | backend/crates/gateway-host/src/workers.rs:149-190 | reordering a list changes neither its acceptance nor its plan |
| `Supervisor.RunLeasedCycle` | backend/crates/gateway-host/src/workers.rs:470-553 | after the token is read the release is attempted exactly once and after the cycle has ended, if and only if no panic escapes in an unwinding build, and no panic is met before it in an aborting one; success exactly if the task ends well by itself and the release succeeds, shutdown exactly if it comes first, and failure otherwise |
| `Supervisor.PanicsIff` | backend/crates/gateway-host/src/workers.rs:478-517 | the loop loses its release exactly on the panics named by the condition: those outside a future when panics unwind, any panic reached when they abort |
| `Supervisor.RunRound` | backend/crates/gateway-host/src/workers.rs:420-468 | the outcome of each way a round can go under either panic strategy; only an acquired lease is released |
| `Supervisor.RoundIff` | backend/crates/gateway-host/src/workers.rs:420-468 | the outcome of a round without a lease, in both directions |
| `Supervisor.FailuresSinceCounts` | backend/crates/gateway-host/src/workers.rs:385-411 | the failures that set the backoff are those of the rounds since the last success |
| `Supervisor.OtherDelays` | backend/crates/gateway-host/src/workers.rs:385-397 | a success is followed by the interval, a busy lease by its own advice or the interval, capped by the maximum |
| `Supervisor.RoundLeaves` | backend/crates/gateway-host/src/workers.rs:271-316 | what a round leaves in the snapshot of its worker, by its outcome |
| `Supervisor.EntryShows` | backend/crates/gateway-host/src/workers.rs:369-383 | what the snapshot shows while a round is under way |
| `Supervisor.FailureDelayIsExponential` | backend/crates/gateway-host/src/workers.rs:398-409 | after the n-th failure since a success the delay is min(initial × 2^(n−1), maximum) |
| `Supervisor.DelayIsPositive` | backend/crates/gateway-core/src/task.rs:143-167 | under a validated schedule every delay is positive |
| `Supervisor.TakeDelay` | backend/crates/gateway-host/src/workers.rs:385-411 | the running backoff gives the closed form in every round; a busy round leaves it alone |
| `Supervisor.SuperviseScheduled` | backend/crates/gateway-host/src/workers.rs:355-418 | over every run each round sleeps the closed-form delay until a final round, and the registry follows exactly the reported operations of this worker; a panic that ends the supervisor or the process reports nothing |
| `Supervisor.SuperviseDaemon` | backend/crates/gateway-host/src/workers.rs:555-600 | the i-th restart waits min(initial × 2^i, maximum), never reset, and the registry follows exactly the reported operations; where panics abort, the first panicking exit is the last thing that happens |
| `Supervisor.UnhealthyUntilRecovered` | backend/crates/gateway-api/src/health.rs:75-86 | from any failure until the next success or standby the worker is judged unhealthy at any time |
| `Supervisor.PendingFollowsRounds` | backend/crates/gateway-host/src/workers.rs:385-411 | a failure is pending exactly when the last round that had a result failed |
| `Supervisor.HealthyIff` | backend/crates/gateway-api/src/health.rs:75-86 | the verdict on the shown snapshot at any time, by the last operation, the history and the age of the last success, in both directions |
| `Supervisor.UnwoundWorkerHealth` | backend/crates/gateway-host/src/workers.rs:470-553 | in an unwinding build, the verdict at any later time on a worker whose supervisor was carried away while running, in both directions |
| `Supervisor.DaemonNeverRecovers` | backend/crates/gateway-host/src/workers.rs:555-600 | after one failure a daemon is never judged healthy again, at any time |
| `OperationRewrite.RewriteAcceptedIff` | backend/crates/gateway-core/src/operation.rs:916-1111 | a rewrite is refused exactly for a bad name, a second change of protocol, or a Generate body that is no JSON object, each with its error |
| `OperationRewrite.RewriteStep` | backend/crates/gateway-core/src/operation.rs:916-1111 | one rewrite carries the new body and protocol, keeps kind, context, session, endpoint, method, query and headers, is translated exactly if it was or the protocol changed, and a translated result has the requirements of its source |
| `OperationRewrite.LastRewriteWins` | backend/crates/gateway-core/src/operation.rs:1025-1111 | after any accepted rewrites the operation carries the body and the protocol of the last |
| `OperationRewrite.RequirementsIff` | backend/crates/gateway-core/src/operation.rs:515-557 | which features and tokens a request needs, by what paths in its body lead to; frozen requirements ignore the body |
| `OperationRewrite.ContainsTypeIff` | backend/crates/gateway-core/src/operation.rs:581-595 | the recursive search finds a type exactly if some path leads to an object of that type |
| `OperationRewrite.RewritesKeepHost` | backend/crates/gateway-core/src/operation.rs:916-1111 | the same over any sequence of rewrites |
| `OperationRewrite.TranslatedStaysFrozen` | backend/crates/gateway-core/src/operation.rs:1000-1023 | from a translation on, protocol and requirements never change again |
| `OperationRewrite.AtMostOneTranslation` | backend/crates/gateway-core/src/operation.rs:989-1111 | in any sequence at most one rewrite changes the protocol, and afterwards requirements equal those just before it |
| `OperationRewrite.NativeEncodingKeepsAdmission` | backend/crates/gateway-core/src/operation.rs:434-446 | native encoding after any rewrites keeps requirements, context and session, whatever the body |
| `OperationRewrite.NativeEncodingEndsTranslation` | backend/crates/gateway-core/src/operation.rs:426-446 | after native encoding every change of protocol is refused |
| `EventOrder.AcceptsIffWellOrdered` | backend/crates/gateway-core/src/event.rs:1008-1070 | accepted exactly when the stream starts with its only Started, ends with its only Completed, adds no index twice, and each delta names an index added earlier with its kind |
| `EventOrder.ObservedIffOrdered` | backend/crates/gateway-core/src/event.rs:1008-1047 | the same for unfinished streams, with the state described by the events seen |
| `EventOrder.FaultIff` | backend/crates/gateway-core/src/event.rs:1008-1047 | which error the next event gets, by the events before it |
| `EventOrder.Validate` | backend/crates/gateway-core/src/event.rs:1008-1062 | feeding the validator object and finishing it decides acceptance |
| `EventOrder.EventSequenceValidator.Observe` | backend/crates/gateway-core/src/event.rs:1008-1047 | the error for each event in each state, and the new state after success and after each rejection |
| `EventOrder.EventSequenceValidator.Finish` | backend/crates/gateway-core/src/event.rs:1054-1062 | succeeds exactly when started and completed, with the right error otherwise |

## Left out

- The frontend, HTTP routing, configuration, bootstrap, logging, the plugin runtime, and error and audit tables: plumbing or easy tables.
- PostgreSQL, Redis, S3, `pg_dump`, the cron crate and the time-zone database: only the contract their callers rely on is modelled.
- Memory ordering weaker than sequential consistency, and floating-point rounding.
- `quota_forecast_source_window` and `account_quota_forecasts`: they choose the arguments of `project` and would add only easy members.
- Aborting workers past the shutdown deadline, which drops their futures from outside.
- `advance_schedule` inside a backup cycle is any step that may fail: the queued row it adds is one the environment of `BackupTask` may add at any time; it is proved in `BackupCursor`.
- Error codes, messages and attempt counts of backup records, and the order among expired records of one batch.
- Header validation of `replace_provider_http_wire`.
- WaitQueue.CapacityWait.Reserve: stops at the first suspension and its two clock readings are parameters; the sleep and the turn that follow are the subject of `WaitProtocol`, and the deadline race inside `turn` is not modelled.
- ConnectionTracker.ConnectionState.TryRegister: interference is a finite schedule, since the loop of the source may spin for ever under endless contention.
- BackupSchedule.LastFiringAtOrBefore: instants beyond the range of the date library, where the source answers `None`, are not modelled.
- BackupTask.BackupTask.RunDaemon: covers one daemon; two daemons on one database are not modelled.
- BackupTask.Environment.Transition: error fields and timestamps other than the completion time are not stored.
- Supervisor.SuperviseScheduled: cancellation seen between rounds or during a sleep is the end of the list of rounds; fencing tokens and error texts are not stored.
