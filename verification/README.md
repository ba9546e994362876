# pgspawn: a verified model of the job table, its workers and its schedules

pgspawn keeps background jobs in one PostgreSQL table. Clients and operators change the table with single SQL statements;
any number of workers claim jobs from it, renew their locks, report results, recover what dead workers left behind and
enqueue scheduled jobs. This project models every statement that changes shared state, the claim loops around them and the
schedule functions, and proves what holds over all their interleavings.

- `Jobs.dfy` gives the meaning of the SQL: a row, the WHERE clause (`Selects`) and SET list (`SetRow`) of each UPDATE, the
  upsert of an enqueue, the delete of a prune, the two partial unique indexes and the two notify triggers.
- `TableInvariant.dfy` proves the table invariant of every statement and exactly when an index rejects one. `Columns.dfy` says
  column by column, without the SET lists, what every statement leaves in a row and what an insert takes from its request.
- `Batch.dfy` and `KeyFolding.dfy` prove what batches and repeated keys amount to; `Claiming.dfy` what repeated claims take
  and that the deadline query agrees with the claim query.
- `Queue.dfy` is the `Queue` of `src/queue.rs` as a class over mutable tables. Each method is proved against the meaning in
  `Jobs.dfy`, keeps the invariant, and sends a notification exactly when a trigger fires.
- `Protocol.dfy` puts workers and table together as a transition system in which a claim is a select and a later update, replies
  get lost, and owner strings are reused; `ProtocolInvariant.dfy` proves its invariant inductive; `ProtocolTheorems.dfy`
  holds the results over whole runs; `Ownership.dfy` the prefix test on owner strings.
- `RowHistory.dfy` follows one row through the protocol: what each event leaves in it, where its definition comes from over
  whole runs, and that what a worker records about a handler is what the row then says.
- `Attempts.dfy` says what `attempt` counts and exactly when the documented limit is kept.
- `Lease.dfy` gives lock renewal and heartbeats real time and an exact bound; `LiveLeases.dfy` puts them, a clock and the
  registrations into the transition system. `Lifecycle.dfy` models the lifecycle counters.
- `Calendar.dfy` and `Schedule.dfy` prove the bounded calendar scans against the declarative meaning of a schedule;
  `Cron.dfy` the coordination of polls through the `crons` table; `CronLoop.dfy` puts the two together.
- `Prelude.dfy` has result types and facts about division.

Conventions. Timestamps are whole microseconds. A statement runs atomically at its own database time, and nothing is assumed
about the clocks of different statements or workers unless a lemma says so. Fresh ids are parameters. Handlers are their
outcomes. A batch, and an enqueue made by a cron poll, occur in the protocol as the single enqueues they are proved equal to.

What the code does beyond, or short of, its documentation:

- `max_attempts` is documented as a retry limit that includes the first execution. Forced requeues do not check it, so a job
  can run more often (`ForcedRequeueExceedsTheLimit`). A keyed overwrite can take back attempts as well. Without these two the
  limit is kept, and with them it is not (`LimitKeptExactlyWhen`); the bound that always holds is `AttemptAccounting`.
- `retry` is documented to reset a failed or cancelled job. When another unfinished job holds its key by then, it fails with a
  unique violation instead and changes nothing (`RejectedExactlyWhen`, `Queue.Retry`).
- The forward scan of a daily or monthly schedule misses a slot that a clock change moved past local midnight, as long as it
  is asked in between (`MissedSlot`; `NextIsLeastExactlyWhen` says exactly when). The cron loop only asks right after an
  occurrence, and there it is right (`NextAfterOccurrence`).
- The interval functions cut fractions of a second off towards zero, so before 1970 they can be one boundary late
  (`IntervalExactlyWhen`).
- A drain of the lifecycle counters loses the completions of a job that neither started in the window nor still runs
  (`CompletionsDroppedExactlyWhen`, `ADroppedCompletion`).
- The ownership tests by prefix take jobs of worker `a:b` for jobs of worker `a`, and those of loop 0 of worker `a` for jobs
  of worker `a:0` (`ColonConfusesWorkers`); nothing keeps colons out of worker ids. `PrefixOwnership` and
  `SeparateExactlyWhen` say exactly which ids this concerns.
- A cron occurrence can be skipped although a worker polled it: when another worker's poll with a later clock reaches the
  database first, the guard that keeps occurrences from being claimed twice turns the older offer away
  (`OvertakenPollIsSkipped`). `ConsecutiveExactlyWhen` says exactly when nothing is skipped, and `FrequentPollsLoseNothing`
  how often and how promptly workers have to poll.
- Heartbeats end when shutdown is requested, while handlers may run on for the grace period. `validate` does not compare that
  period with `stale_after`, so a long one lets another worker recover jobs that are still running
  (`LongGraceIsAcceptedButUnsafe`).
- A cron statement that overlaps the very first one of its definition claims its occurrence without enqueueing it, because its
  snapshot does not show the definition recorded (`EnqueuedExactlyWhen`, `OverlappingClaimIsNotEnqueued`).

## Model

| member | source | states |
|---|---|---|
| `TableInvariant.SetRowKeepsRowOk` | src/queue.rs:248-334 | every SET list keeps status, lock, finish time, start time, attempt and error columns consistent with each other |
| `TableInvariant.NonClaimKeepsOrReleases` | src/queue.rs:724-732 | apart from claims no statement starts a job or swaps its owner; `complete_locked` and `fail_locked`, which test only id and owner, only ever find a running job |
| `TableInvariant.OnlyRetryActivates` | src/queue.rs:266-280 | only `retry` makes a finished job active again, and never a succeeded one |
| `TableInvariant.SlotAfter` | migrations/0001_init.sql:43-44 | no statement moves a job between named queues and only a claim adds a running one |
| `TableInvariant.RejectedExactlyWhen` | migrations/0001_init.sql:43-47 | a unique violation happens if and only if a claimed job's queue already runs one, or another unfinished job holds the key of a retried one; all other statements always commit |
| `TableInvariant.ExecuteKeepsTableOk` | migrations/0001_init.sql:30-47 | every committed UPDATE keeps the row invariant, one running job per named queue and one unfinished job per key |
| `TableInvariant.UpsertKeepsTableOk` | src/queue.rs:1022-1034 | so does every enqueue, inserting, overwriting or leaving the holder of its key |
| `TableInvariant.PruneKeepsTableOk` | src/queue.rs:472-487 | so does every prune |
| `TableInvariant.FinishedChangesOnlyByRetry` | src/queue.rs:248-334 | the only UPDATE that changes a finished job is a retry of a failed or cancelled one |
| `TableInvariant.RunningKeepsDefinition` | src/queue.rs:643-759 | no UPDATE changes the definition or attempts of a running job, and while it stays running only its lock time changes |
| `TableInvariant.FinishedIsRetained` | src/queue.rs:472-487 | a job that finishes is kept exactly as long as the retention, counted from its finish |
| `TableInvariant.LockIsFreshFor` | src/queue.rs:493-501 | after a claim or renewal, stale recovery selects the job exactly once `stale_after` has passed since |
| `TableInvariant.ForcedRequeueRecordsWhy` | src/queue.rs:196-207 | the COALESCE of a forced requeue always records the reason, because running jobs have no error text |
| `Columns.SetRowLeaves` | src/queue.rs:194-808 | column by column, what every UPDATE leaves in a row it selects: status, lock, times, attempt, error, and an unchanged definition |
| `Columns.ApplyLeaves` | src/queue.rs:194-545 | and in a whole table: the selected rows are left so, no other is touched, none comes or goes |
| `Columns.SelectsExactlyWhen` | src/queue.rs:248-436 | which rows of its id each operator statement is for: cancel and reschedule the queued one, complete and permanently fail the unfinished one, retry the failed or cancelled one |
| `Columns.TriggersExactlyWhen` | migrations/0001_init.sql:68-79 | for which of its rows each statement wakes the workers |
| `Columns.EnqueueNotifiesExactlyWhen` | migrations/0001_init.sql:68-72 | an enqueue wakes the workers unless the job that holds its key is running |
| `Columns.InsertLeaves` | src/queue.rs:1022-1023 | an enqueue under a free key leaves at the id it returns a queued row with name, payload, queue, priority, time, limit and key of the request, no attempt used and every other optional column empty; no other row changes |
| `Columns.OverwriteCarries` | src/queue.rs:1026-1033 | an enqueue under a queued holder leaves the request in it, its time only in mode `replace`, and keeps attempts, creation and lock; in mode `dedupe` or when running the holder is unchanged |
| `Batch.EnqueueAllSettles` | src/queue.rs:1010-1049 | for distinct keys, a sequence of enqueues gives each request the row it would get alone and touches no other |
| `Batch.EnqueueAllIdsAre` | src/queue.rs:1010-1049 | and returns in request order the id of each request's own row |
| `Batch.OrderIrrelevant` | src/queue.rs:917-924 | for distinct keys the order of the requests does not matter |
| `Batch.BatchEqualsSequential` | src/queue.rs:920-986 | the three statements by key mode leave the table that single enqueues in request order at the same time leave |
| `Batch.BatchEqualsSeparateCalls` | src/queue.rs:60-74 | and the jobs and ids that separate calls at any times leave and return, except that each separate call gives its own `created_at` |
| `Batch.BatchIdsByKey` | src/queue.rs:988-1006 | the id of every keyed request can be read back from the returned rows and is the one a single enqueue returns |
| `Batch.EnqueueAllNotifiesAlone` | migrations/0001_init.sql:68-72 | a batch notifies if and only if one of its requests would on its own |
| `KeyFolding.FoldFromTheFront` | src/queue.rs:1022-1034 | overwriting and then folding is folding, so the fold is the same read from either end |
| `KeyFolding.KeyFolding` | src/queue.rs:1022-1034 | in any run whose other events leave the holder of a key alone, the enqueues under the key leave one holder with its id, key, status and attempts; definition and time come from the last overwriting and the last replacing call, and a running holder keeps everything |
| `KeyFolding.EveryCallReturnsTheHolder` | src/queue.rs:1034-1048 | in such a run every one of the enqueues returns the holder's id |
| `KeyFolding.KeyFoldingFromFree` | src/queue.rs:1022-1034 | the same from a free key: the first enqueue creates the job, the others return its id, and in the end it waits with the definition of the last overwriting and the time of the last replacing request, the first one counting as both, no attempt used and the first creation time |
| `Claiming.LeavingFreesTheQueue` | src/queue.rs:630-638 | a job that leaves the running state leaves its named queue free |
| `Claiming.ForcedRequeueIsClaimable` | src/queue.rs:196-207 | a job requeued by release, force-unlock or recovery can be claimed at once |
| `Claiming.DeadWorkersJobsAreClaimable` | src/queue.rs:518-533 | every running job locked under the prefix of a registration older than `stale_after` is claimable right after dead-worker recovery |
| `Claiming.BackoffIsWaitedOut` | src/queue.rs:790-797 | a failed job with attempts left can be claimed from the end of its backoff on and not before |
| `Claiming.RetriedIsClaimable` | src/queue.rs:266-287 | a retried job can be claimed at once unless its queue is busy |
| `Claiming.RescheduledIsClaimable` | src/queue.rs:421-436 | a rescheduled job can be claimed from its new time on unless its queue is busy |
| `Claiming.InsertedIsClaimable` | src/queue.rs:1022-1023 | a new job can be claimed under its name from `run_at` on unless its queue is busy |
| `Claiming.InsertedJobsAreClaimable` | src/queue.rs:1022-1023 | two requests inserted one after the other into queues that run nothing are both claimable once due, each row as its request asks |
| `Claiming.FirstExists` | src/queue.rs:639-641 | whenever there is a candidate, one may come first in the claim order |
| `Claiming.CandidatesAfterClaim` | src/queue.rs:624-652 | a claim removes from the candidates exactly its job and the other jobs of the same named queue |
| `Claiming.ClaimsAreOrdered` | src/queue.rs:639-640 | repeated claims, each by its own loop, take distinct candidates in priority, time and creation order, one per named queue |
| `Claiming.UrgentJobsFirst` | src/queue.rs:639-639 | of two jobs claimed at the same time, lower priority values come first, then earlier times, then earlier creation |
| `Claiming.UrgentRequestFirst` | src/queue.rs:639-639 | from request to claim: of two requests inserted into queues that run nothing and both due, the one with the lower priority value, then the earlier time, then the earlier insert is claimed first; a run of claims takes the other only after it or after a job of its queue |
| `Claiming.NothingSkipped` | src/queue.rs:624-642 | after any number of claims each initial candidate is taken, blocked by a pick of its queue that may precede it, or still a candidate |
| `Claiming.GreedyClaiming` | src/queue.rs:624-652 | claiming until nothing is left takes every due job outside named queues and exactly one of each free named queue, one no due job of that queue precedes |
| `Claiming.ClaimingTerminates` | src/queue.rs:624-652 | no run of claims is longer than the initial candidate list |
| `Claiming.CandidatesAfterCompletion` | src/queue.rs:718-741 | a claim and its completion remove only the finished job from the candidates |
| `Claiming.DrainsEverything` | src/queue.rs:718-741 | claiming and completing in turn processes every job due in a queue free at the start, each once, in order |
| `Claiming.DeadlineAgreesWithClaim` | src/queue.rs:689-710 | a claim would find a candidate if and only if the deadline query gives zero |
| `Claiming.WaitingForTheDeadline` | src/queue.rs:691-697 | on an unchanged table nothing is claimable until less than a millisecond before the deadline, and something is at it |
| `Claiming.IdleWaitIsSafe` | src/worker.rs:1006-1011 | an idle wait is positive, at most the poll interval, and ends by the deadline if and only if the claim would find nothing now; a job that just became due costs a full poll interval |
| `Claiming.IdleWaitIs` | src/worker.rs:1006-1011 | its length: the full poll interval when nothing waits or something is claimable by now, otherwise the time to the earliest waiting job, rounded up to a millisecond, or the poll interval, whichever is shorter |
| `QueueApi.Queue.constructor` | src/queue.rs:21-23 | a queue over empty tables satisfies the invariant |
| `QueueApi.Queue.UpsertRow` | src/queue.rs:1022-1034 | one upsert computes the table, the returned id and whether the trigger fires as specified; under a free key the row at the new id has every column of the request, under a held key the holder's id comes back |
| `QueueApi.Queue.Enqueue` | src/queue.rs:1010-1049 | enqueueing leaves the specified table and id, and a new row has every column of the request; a non-positive `max_attempts` fails and changes nothing |
| `QueueApi.Queue.UpsertRows` | src/queue.rs:957-986 | a multi-row upsert acts as its rows one after another |
| `QueueApi.Queue.CollectIds` | src/queue.rs:988-992 | the loop over returned rows files each id under its key, later rows overriding |
| `QueueApi.Queue.InsertGroups` | src/queue.rs:920-993 | the three statements succeed if and only if every request is admissible, with the table, ids and notification of single enqueues in request order |
| `QueueApi.Queue.OrderIds` | src/queue.rs:995-1007 | no keyed request lacks a row, and the ids come out in request order |
| `QueueApi.Queue.EnqueueMany` | src/queue.rs:63-74 | a repeated key or an inadmissible request changes nothing and says which; otherwise table and ids are those of single enqueues in order, every request has its row at its id, new rows have every column of their request, and at most one notification is sent |
| `QueueApi.EnqueuedRowsCarry` | src/queue.rs:957-1006 | for any admissible batch, the row at each returned id holds the request's key, and a new row has every column of its own request |
| `QueueApi.Queue.Cancel` | src/queue.rs:248-264 | cancels exactly a queued job, leaving it cancelled and finished now with everything else as it was, and tells whether it did |
| `QueueApi.Queue.Retry` | src/queue.rs:266-287 | restarts exactly a failed or cancelled job; fails, changing nothing, if and only if another unfinished job holds its key |
| `QueueApi.Queue.PermanentlyFail` | src/queue.rs:292-311 | retires exactly an unfinished job as failed with the reason, unlocked and finished now with everything else as it was, and notifies when it left a named queue |
| `QueueApi.Queue.Complete` | src/queue.rs:316-334 | retires exactly an unfinished job as succeeded, unlocked and finished now with everything else as it was, and notifies when it left a named queue |
| `QueueApi.Queue.ForceUnlockWorker` | src/queue.rs:339-370 | requeues exactly the running jobs whose owner has the prefix, counts them, and deregisters the worker |
| `QueueApi.Queue.Reschedule` | src/queue.rs:421-436 | moves exactly a queued job and notifies |
| `QueueApi.Queue.PruneFinished` | src/queue.rs:472-487 | deletes exactly finished jobs past the retention and counts them |
| `QueueApi.Queue.RecoverStale` | src/queue.rs:489-509 | requeues exactly the running jobs with a stale lock and counts them |
| `QueueApi.Queue.RecoverDeadWorkers` | src/queue.rs:511-545 | removes exactly the registrations older than `stale_after`, requeues the jobs with their prefixes, counts each once, and leaves every such job claimable |
| `QueueApi.Queue.TryEnqueueCron` | src/queue.rs:547-615 | claims and enqueues an occurrence in one step; skipped, already queued and enqueued are told apart, a refused insert leaves the occurrence unclaimed, and an inserted job is due at the occurrence with name and payload of the poll and queue, priority, limit and key of the options, claimable from exactly then on when its queue is free |
| `QueueApi.CronJobIsDue` | src/queue.rs:576-579 | the job a poll inserts is claimable from the occurrence itself on and not before, unless its queue is busy |
| `QueueApi.Queue.ClaimNext` | src/queue.rs:617-683 | takes a first candidate if and only if there is one: running, locked and started now by the claimer, one more attempt, definition and time as they were; every other row is unchanged |
| `QueueApi.Queue.NextRunnableIn` | src/queue.rs:685-716 | the rounded-up milliseconds to the earliest waiting job, nothing when none waits |
| `QueueApi.Queue.CompleteLocked` | src/queue.rs:718-741 | completes exactly the job locked under that id and owner: succeeded, unlocked and finished now, everything else as it was |
| `QueueApi.Queue.RenewLock` | src/queue.rs:743-759 | refreshes exactly the lock held under that id and owner, without a notification |
| `QueueApi.Queue.FailLocked` | src/queue.rs:761-808 | fails for good or requeues with backoff exactly the job locked under that id and owner |
| `QueueApi.FailLockedInPlace` | src/queue.rs:769-805 | which row a failure writes and when it notifies, in both branches: failed for good at the limit, otherwise queued for the end of the backoff |
| `QueueApi.Queue.ReleaseWorkerJobs` | src/queue.rs:194-214 | requeues exactly the running jobs whose owner has the prefix and counts them |
| `QueueApi.Queue.Shutdown` | src/worker.rs:463-479 | after both cleanup statements no job carries the worker's prefix and its registration is gone |
| `QueueApi.ForcedRequeueMeaning` | migrations/0001_init.sql:68-72 | a forced requeue always commits, and notifies unless it selects nothing |
| `QueueApi.AtomicClaimCommits` | src/queue.rs:643-652 | a claim of a candidate of the current table is never rejected |
| `ProtocolInvariant.SilentUpdateAddsNoWork` | migrations/0001_init.sql:68-79 | an UPDATE that fires neither trigger makes no job claimable, for any names and time |
| `ProtocolInvariant.SilentUpsertIsIdle` | migrations/0001_init.sql:68-72 | an enqueue that does not notify changes nothing |
| `ProtocolInvariant.PruneAddsNoWork` | src/queue.rs:472-487 | a prune, which never notifies, makes no job claimable |
| `ProtocolInvariant.RunKeepsFenced` | src/queue.rs:724-759 | every statement keeps the fencing of every loop: it holds its job's lock exactly while its claim is the current one |
| `ProtocolInvariant.RunKeepsWakeable` | src/worker.rs:672-703 | every statement keeps the wakeup promise to every parked loop |
| `ProtocolInvariant.LockedRowsAreQueued` | src/queue.rs:641-641 | renewals and results never touch the row of a pending claim |
| `ProtocolInvariant.LoopStatementsRun` | src/worker.rs:774-841 | what a loop sends about its job always commits, and a retry after failure decides with the row's own attempt numbers |
| `ProtocolInvariant.HeardClaimIsFenced` | src/worker.rs:677-680 | a loop that hears of its claim holds the row's current claim and attempt numbers |
| `ProtocolInvariant.StepKeepsInv` | src/worker.rs:654-718 | every event of workers, clients, operators, recovery and deliveries keeps the protocol invariant |
| `Ownership.PrefixOwnership` | src/queue.rs:530-533 | for all ids, the prefix test for a worker accepts an owner string if and only if the worker is its own, or its id is that of the loop (`other:index`), or it is all before a colon in the other id |
| `Ownership.SeparateExactlyWhen` | src/worker.rs:660-665 | the test for one worker accepts no owner string of any loop of another if and only if the other id does not continue the worker's with a colon and the worker's is not the other followed by a colon and a decimal index |
| `Ownership.ColonFreeIdsAreSeparate` | src/worker.rs:660-665 | ids without colons are never confused |
| `Ownership.ColonConfusesWorkers` | src/worker.rs:660-665 | both ways the test errs: `a` takes the jobs of `a:b`, and `a:0` those of loop 0 of `a` |
| `ProtocolTheorems.ReachableInv` | src/worker.rs:654-718 | the invariant holds in every state any interleaving reaches |
| `ProtocolTheorems.MutualExclusion` | migrations/0001_init.sql:43-47 | in every reachable state each named queue runs at most one job, each key has at most one unfinished job, and all rows are consistent |
| `ProtocolTheorems.SplitClaimIsAtomic` | src/queue.rs:624-683 | whatever happened since the select, a claim commits if and only if its row is claimable at the commit, with the effect of an atomic claim, and otherwise loses the race |
| `ProtocolTheorems.StepRefinesAtomic` | src/queue.rs:624-652 | each event changes the table as one atomic claim, another committed statement, or not at all |
| `ProtocolTheorems.RunRefinesAtomic` | src/queue.rs:624-652 | every run of the split protocol shows the tables of a run with atomic claims |
| `ProtocolTheorems.ResultCountsExactlyWhenCurrent` | src/queue.rs:718-808 | a result or renewal takes effect if and only if the row's current claim is the one the loop handles, and then attempt and limit are the row's |
| `ProtocolTheorems.LostStaysLost` | src/worker.rs:660-679 | a claim that is over stays over in every continuation, even when the same loop claims the job again |
| `ProtocolTheorems.LateResultIsDiscarded` | src/worker.rs:774-841 | once a job was taken from a loop, whatever that loop still sends about that claim changes nothing, in every continuation |
| `ProtocolTheorems.TakingAwayLosesTheClaim` | src/queue.rs:289-345 | every operator or recovery statement that selects a running job ends its claim |
| `ProtocolTheorems.NoLostWakeup` | src/worker.rs:672-703 | a loop parked after finding nothing, with no wakeup pending or under way, has still nothing it could have claimed then; what it can claim later became due later |
| `Attempts.AttemptAccounting` | src/queue.rs:645-645 | `attempt` counts the claims since creation or retry; unless an overwrite lowered the limit, it stays within `max_attempts` plus the forced requeues, strictly while queued |
| `Attempts.BoundBrokenExactlyByOverwrite` | src/queue.rs:1032-1032 | that bound is lost if and only if a keyed overwrite gives a queued job no more attempts than it has used beyond its forced requeues |
| `Attempts.StatementKeepsLimitExactlyWhen` | src/queue.rs:493-501 | a statement keeps a job within the documented limit if and only if it is not a forced requeue of a job on its last attempt |
| `Attempts.OverwriteKeepsLimitExactlyWhen` | src/queue.rs:1032-1032 | a keyed overwrite does if and only if it does not give a queued job at most the attempts it has used |
| `Attempts.StepKeepsLimitExactlyWhen` | src/queue.rs:489-545 | the two together for every event of the protocol |
| `Attempts.LimitKeptExactlyWhen` | src/queue.rs:489-545 | over every run, a job is always within the documented limit if and only if neither of the two ever happens to it |
| `Attempts.FailsForGoodAtTheLimit` | src/queue.rs:769-797 | without forced requeues, a failure ends the job if and only if the claim is number `max_attempts` |
| `Attempts.AlwaysFailingEndsAtTheLimit` | src/queue.rs:769-797 | in every run in which a job is only claimed, renewed and failed, it waits with an attempt left, runs, or has failed for good after exactly `max_attempts` claims |
| `Attempts.ForcedRequeueExceedsTheLimit` | src/queue.rs:194-207 | a run from the empty table in which a job with one attempt is claimed, released by its worker's shutdown and claimed again |
| `ProtocolTheorems.NoJobIsLost` | src/queue.rs:472-487 | every id ever inserted is in the table or was deleted as a finished job past its retention |
| `ProtocolTheorems.StepKeepsFinished` | src/queue.rs:248-334 | no event deletes an unfinished job; except for a retry, a finished one is unchanged until deleted |
| `ProtocolTheorems.SucceededIsFinal` | src/queue.rs:718-741 | over every run a succeeded job is unchanged or deleted |
| `RowHistory.OperatorStatementLeaves` | src/queue.rs:248-436 | in every reachable state, cancel leaves a queued job cancelled, complete an unfinished one succeeded, permanently fail an unfinished one failed, retry a failed or cancelled one waiting afresh, reschedule a queued one moved; any other job of that status or id stays as it was |
| `RowHistory.ForcedRequeueLeaves` | src/queue.rs:194-214 | a forced requeue leaves what it selects waiting from now on, with its definition, priority and attempts and the reason recorded |
| `RowHistory.ClaimLeaves` | src/queue.rs:643-652 | a claim that commits leaves its row running for the claimer with one more attempt and its definition, and no other row changes |
| `RowHistory.RenewalLeaves` | src/queue.rs:743-759 | a renewal moves the lock time of a held job and nothing else, and notifies nobody |
| `RowHistory.SuccessLeaves` | src/queue.rs:718-741 | the success of a handler whose claim is current leaves its job succeeded, unlocked, finished now, without an error, and everything else as it was |
| `RowHistory.SuccessIsForever` | src/queue.rs:718-741 | in every continuation that job is still exactly so, or deleted; it never waits or runs again |
| `RowHistory.FailureLeaves` | src/queue.rs:761-808 | the failure of such a handler leaves its job waiting for the end of the backoff while the row has attempts left, and failed for good otherwise |
| `RowHistory.InsertLeavesRow` | src/queue.rs:1022-1023 | in every reachable state an enqueue under a free key leaves a new row with every column of its request |
| `RowHistory.StepKeepsDefinition` | src/queue.rs:1026-1033 | name, payload, queue, priority, key, limit and creation time of a job change only through an enqueue that inserts it or overwrites it while it is queued, and are then those of the request |
| `RowHistory.DefinitionIsTheLastGiven` | src/queue.rs:1022-1033 | over every run a job asks for what the last such request asked for |
| `RowHistory.CreationIsFixed` | src/queue.rs:1026-1033 | and when it was created never changes |
| `RowHistory.ClaimHandsOutTheRequest` | src/queue.rs:643-656 | in every run from the empty table, the row a claim hands out asks for what the insert or the last overwrite of the job asked for |
| `RowHistory.RecordedIsWhatTheRowSays` | src/worker.rs:800-841 | what a worker records about a handler whose claim is current is what its statement makes of the row: success if and only if succeeded, permanent failure if and only if failed, retry if and only if queued |
| `RowHistory.LateSuccessIsAbandoned` | src/worker.rs:806-809 | a success whose claim is over is recorded as abandoned, and its statement changes nothing |
| `ProtocolTheorems.RequeuesAreExact` | src/queue.rs:530-533 | for all worker ids, release, force-unlock and dead-worker recovery select exactly the jobs locked by loops whose owner strings the prefix test takes for those workers' |
| `ProtocolTheorems.SeparateWorkersKeepTheirJobs` | src/queue.rs:530-533 | where no running worker's id is confusable with the given one, these are exactly that worker's jobs |
| `ProtocolTheorems.ReleaseLeavesNoLock` | src/worker.rs:439-464 | when all loops of a worker have ended, its release leaves nothing locked by it, whatever its id |
| `ProtocolTheorems.GoneStaysGone` | src/worker.rs:439-464 | and it never holds a lock again in any continuation that does not start it again |
| `Lease.NeverStale` | src/worker.rs:774-795 | under every schedule of delays, failures and a stop within the bounds, a live timestamp is never older than the worst age |
| `Lease.LeaseSafeExactlyWhen` | src/queue.rs:489-509 | a live lease is safe under all schedules if and only if `stale_after` is at least (failures + 1) times interval plus delay, plus a delay or the grace period after the refreshing stopped, whichever is longer |
| `Lease.AcceptedExactlyWhen` | src/worker.rs:137-179 | a configuration is accepted if and only if it has a claim loop, every interval is positive and `stale_after` exceeds heartbeat and renewal interval |
| `Lease.ValidatedConfigHasSlack` | src/worker.rs:168-177 | exactly which delays leave the lock and the heartbeat of an accepted configuration safe; one refused for `stale_after` has an unsafe lease for every positive delay |
| `Lease.DefaultsAreSafeExactlyWhen` | src/worker.rs:202-216 | the default configuration is safe if and only if no statement takes more than 285 seconds |
| `Lease.LongGraceIsAcceptedButUnsafe` | src/worker.rs:494-501 | a grace period as long as `stale_after` is accepted although heartbeats end at the shutdown request, and no delay makes it safe |
| `LiveLeases.LockTimeStays` | src/queue.rs:743-759 | while a claim is current its owner stays, and only its own renewal moves the lock time |
| `LiveLeases.WorldStaysOk` | src/worker.rs:489-541 | with clock, registrations and refreshers added to the protocol, every event keeps the lock times and heartbeats in the tables equal to what the live loops and workers wrote last |
| `LiveLeases.RecoverySparesLiveJobs` | src/queue.rs:489-545 | in every history within the bounds, of workers whose ids are not confusable, no recovery statement of any worker selects the job of a live loop |
| `LiveLeases.LiveClaimEndsOnlyBy` | src/worker.rs:774-841 | in every such history, what ends the claim of a live loop is its own result or end, an operator completing, failing or force-unlocking it, or its worker's release |
| `LiveLeases.LostClaimWasEnded` | src/worker.rs:774-841 | so a claim a loop held and holds no more was ended by one of those events |
| `LiveLeases.HandlersExcludeEachOther` | src/queue.rs:289-338 | in histories within the bounds in which no operator ends a job by hand and no worker releases jobs its loops still handle, no two handlers of one job or one named queue ever run at once |
| `LiveLeases.HandlersHoldTheirClaims` | src/worker.rs:677-680 | and every running handler is the one its job's row names |
| `Calendar.CivilHasItsNumber` | src/schedule.rs:322-323 | counting days agrees with the closed form of the Gregorian day number on every day |
| `Calendar.CalendarIsABijection` | src/schedule.rs:322-323 | day numbers and valid dates correspond one to one |
| `Calendar.WeekdayIsWeekdayOf` | src/schedule.rs:278-283 | the weekday of every day is the one the classical rule gives for its year, month and day |
| `Calendar.WeekdaysFollow` | src/schedule.rs:278-283 | and consecutive days have consecutive weekdays |
| `Calendar.WeekContains` | src/schedule.rs:278-283 | any seven days contain every weekday |
| `Calendar.MonthContains` | src/schedule.rs:324-326 | any 31 days contain each day of the month from 1 to 28 |
| `Schedule.FixedZoneIsRegular` | src/schedule.rs:369-378 | UTC and every fixed offset satisfy the zone laws with no slip, and their slots are distinct |
| `Schedule.LatestDueAt` | src/schedule.rs:271-335 | in every regular zone the backward scan returns the greatest occurrence up to the instant, never nothing, on a date whose weekday by the classical rule, or day of the month, is listed |
| `Schedule.NextAfter` | src/schedule.rs:294-355 | in every regular zone, the forward scan returns the least occurrence after the instant if and only if it skips no slot that slipped past midnight, and what it returns lies on a listed date |
| `Schedule.MatchesOnTheCalendar` | src/schedule.rs:278-283 | a day matches a schedule if and only if the classical weekday of its civil date, or its day of the month, is listed |
| `Schedule.OccursExactlyWhen` | src/schedule.rs:373-378 | at any fixed offset, an instant is an occurrence if and only if the wall clock shows the schedule's hour and minute with no seconds and the calendar one of its weekdays or its day of the month |
| `Schedule.OccurrencesAreListed` | src/schedule.rs:276-291 | in any zone an instant is an occurrence if and only if it is the schedule's time on a listed date |
| `Schedule.BackScanSucceeds` | src/schedule.rs:276-291 | the backward scan hits within 7 or 31 days, one more where a slot may slip |
| `Schedule.ForwardScanSucceeds` | src/schedule.rs:299-314 | the forward scan hits within 7 or 31 days, so the fixed fallbacks are unreachable |
| `Schedule.LatestIsGreatest` | src/schedule.rs:317-335 | what the backward scan hits is the greatest occurrence up to the instant |
| `Schedule.NextIsLeastExactlyWhen` | src/schedule.rs:294-355 | the forward scan never falls back, and is right if and only if no slot slipped past midnight, is still ahead, and precedes what it found; whole dates may be left out |
| `Schedule.NoSlipNoMiss` | src/schedule.rs:294-355 | in a zone without slip, as all fixed offsets are, it is always right |
| `Schedule.NextAfterOccurrence` | src/worker.rs:634-637 | right after an occurrence it is right in every regular zone |
| `Schedule.LatestOfNextIsNext` | src/schedule.rs:271-355 | in every regular zone, what the forward scan finds after any instant the backward scan finds again from there |
| `Schedule.ScansRoundTrip` | src/schedule.rs:271-355 | in every regular zone, scanning back, forward from there and back again succeeds each time, returns to the same occurrence, and encloses the instant |
| `Schedule.MidnightGapIsRegular` | src/schedule.rs:369-378 | a zone whose clocks skip the hour before midnight satisfies the zone laws with a slip |
| `Schedule.MissedSlot` | src/schedule.rs:294-315 | in that regular zone, a schedule and an instant for which the forward scan misses the next occurrence |
| `Schedule.IntervalExactlyWhen` | src/schedule.rs:357-367 | the interval functions bracket an instant between consecutive boundaries if and only if no cut-off fraction before 1970 reaches a boundary |
| `Schedule.AFractionBeforeTheEpoch` | src/schedule.rs:357-361 | one microsecond before 1970 the latest one-second boundary is reported a second too late |
| `Schedule.NothingBetweenBoundaries` | src/schedule.rs:357-367 | no boundary lies between the two they return |
| `Schedule.OnIntervalExactlyWhen` | src/schedule.rs:357-367 | the boundaries are the instants divisible by the interval |
| `Cron.ClaimsStrictlyIncrease` | src/queue.rs:555-567 | for any interleaving of polls, clocks and schedules, the claimed occurrences of an identifier strictly increase past the recorded one, so none is claimed twice |
| `Cron.StoredRowsAdvance` | src/queue.rs:556-563 | every stored row has its next run after its last |
| `Cron.CatchUpEnqueuesAll` | src/queue.rs:576-579 | with catch-up every claimed occurrence is enqueued |
| `Cron.EnqueuedExactlyWhen` | src/queue.rs:568-579 | for any overlap and any times of the statements, a claim is enqueued if and only if it catches up, or a row of the identifier had been committed when its statement began and is older than the statement |
| `Cron.DuesStepByStep` | src/queue.rs:555-579 | the claimed and the enqueued occurrences of a run are those of its statements, in order |
| `Cron.OverlappingClaimIsNotEnqueued` | src/queue.rs:568-575 | two overlapping first polls of a schedule with an occurrence every ten seconds claim two occurrences and enqueue neither |
| `Cron.RecordedEnqueuesAll` | src/queue.rs:568-579 | every claim by a statement that sees the definition recorded is enqueued |
| `Cron.FirstObservationOnlyRecords` | src/queue.rs:568-579 | when statements do not overlap, without catch-up exactly the first claim of a new definition is not enqueued |
| `Cron.ClaimedExactlyWhen` | src/queue.rs:564-565 | for any polls in any order, an occurrence is claimed if and only if it lies after the recorded one and some poll offers it before any poll that offers a later one |
| `Cron.ConsecutiveExactlyWhen` | src/queue.rs:564-565 | from any table and in any order of the statements, the claims are consecutive occurrences if and only if every occurrence between two of them is offered before a later one is |
| `Cron.FirstClaimFollowsExactlyWhen` | src/queue.rs:564-565 | the first claim is the successor of the recorded one if and only if every occurrence up to it is offered before a later one is |
| `Cron.OvertakenPollIsSkipped` | src/queue.rs:564-565 | an occurrence that a poll offers is skipped because a poll with a later clock reached the database first |
| `Cron.CaughtIsInTime` | src/queue.rs:564-565 | an occurrence is offered in time when some poll reads its clock within the spacing after it and none that reads it later overtakes that poll |
| `Cron.TookEffectInItsSlot` | src/worker.rs:631-638 | or when a poll reads its clock and takes effect before the next occurrence, however late others are |
| `Cron.PromptPollsCatch` | src/worker.rs:613-629 | readings within a period and statements within a delay, together no longer than the spacing, catch every instant for any number of workers |
| `Cron.SteadyPollsCatch` | src/worker.rs:613-629 | the polls of one worker do when its readings are no further apart than the spacing, however slow its statements are |
| `Cron.FrequentPollsSkipNothing` | src/worker.rs:613-638 | polls that catch every instant claim consecutive occurrences, from any table, in any order of the statements and among polls of any other identifiers |
| `Cron.RestartSkipsNothing` | src/worker.rs:613-638 | and a restart over which every instant is caught continues where the record ends |
| `Cron.IdentifiersAreIndependent` | src/queue.rs:558-565 | polls of other identifiers have no influence on what is claimed and enqueued for this one |
| `CronLoop.LatestDue` | src/schedule.rs:242-254 | for every kind of schedule the dispatch gives the greatest occurrence up to the instant |
| `CronLoop.NextDue` | src/schedule.rs:256-268 | and the least one after an occurrence |
| `CronLoop.PollDefinition` | src/worker.rs:634-650 | one round of the loop offers the latest occurrence and its successor and leaves the tables of that one statement |
| `CronLoop.EnqueueDueCrons` | src/worker.rs:631-652 | a pass polls every definition once at one clock, a failing one does not stop the others, and every job it adds is due at the greatest occurrence up to that clock of a definition that made it or shares its key |
| `CronLoop.PassInsertsWhatIsDue` | src/queue.rs:576-579 | every job a pass adds is due at the occurrence offered by the attempt that made it or by one with its key |
| `CronLoop.PassInsertsEachJob` | src/queue.rs:576-579 | when no two definitions share a key, every job added has the time, name and payload of its own poll and the options of its own definition |
| `CronLoop.IntervalOccursExactlyWhen` | src/schedule.rs:357-367 | an interval schedule is due whenever a whole number of intervals, of at least a second, has passed since the epoch |
| `CronLoop.AttemptsArePolls` | src/worker.rs:633-638 | a pass whose inserts are admissible is a run of polls as the coordination lemmas speak of |
| `CronLoop.FrequentPollsLoseNothing` | src/worker.rs:613-652 | polled by any workers with a period and a statement delay that together are no longer than a day, a daily or monthly schedule at a fixed offset is claimed occurrence by occurrence, and likewise an interval; statements may overtake each other |
| `CronLoop.SteadyPollsLoseNothing` | src/worker.rs:613-652 | polled by one worker whose readings are no further apart than that, whatever the delay |
| `CronLoop.RestartLosesNothing` | src/worker.rs:613-652 | and the first claim after a restart within those bounds is the successor of the recorded one |
| `Lifecycle.JobSummaries.RecordSucceeded` | src/worker.rs:859-868 | records a success of the name |
| `Lifecycle.JobSummaries.RecordFailed` | src/worker.rs:870-884 | records a failure of the name as permanent or retried |
| `Lifecycle.JobSummaries.RecordAbandoned` | src/worker.rs:886-895 | records an abandoned run of the name |
| `Lifecycle.JobSummaries.Drain` | src/worker.rs:1013-1030 | the loop over the map empties every window, keeps what runs, and reports exactly the names that started or run |
| `Lifecycle.RunClaimedJob` | src/worker.rs:720-841 | whatever the database replies, a started handler is recorded finished exactly once under its name with the outcome its end and the replies determine; an unknown job is not recorded |
| `Lifecycle.InterleavingsAreWellFormed` | src/worker.rs:745-841 | every merge of such runs, with drains anywhere, is a log the next lemmas apply to |
| `Lifecycle.RunningCountsOpenHandlers` | src/worker.rs:849-895 | `running` is the number of handlers in progress, starts minus recorded finishes, and `failed` is retried plus permanently failed |
| `Lifecycle.CountersCountOutcomes` | src/worker.rs:859-895 | each counter is the number of finishes with its outcome since the last drain, and the total time their sum, saturated |
| `Lifecycle.FinishNeverSaturates` | src/worker.rs:866-866 | the saturating decrement is never taken at zero |
| `Lifecycle.EveryStartReportedOnce` | src/worker.rs:1013-1030 | every start is reported in exactly one snapshot or still in the window |
| `Lifecycle.CompletionsDroppedExactlyWhen` | src/worker.rs:1021-1027 | a drain loses completions of a name if and only if there are some and nothing started in the window or still runs |
| `Lifecycle.ADroppedCompletion` | src/worker.rs:1021-1027 | a log whose only completion no snapshot reports |

## Left out

- SQLx, pools, migrations, row decoding, Tokio scheduling and tracing: a statement is an atomic step with its effect on the tables, a reply may be lost, and a handler is its outcome.
- Lock waits of longer client transactions, and a statement that executes only after its client gave up on it: a statement is an atomic step of its caller. Pending claims are the exception; they hold a row lock and other statements respect it.
- `updated_at` and `queued_at`, which no statement reads, and the `metadata`, `task_names` and `started_at` of workers.
- The widths of 32-bit and 64-bit columns and the ends of the timestamp range: numbers are unbounded, except for the saturating total of the lifecycle counters.
- Uniqueness of generated ids: fresh ids are parameters required to be fresh, and owner suffixes to make the owner string new.
- Loss of the listener connection: a notification under way stays under way until delivered. The wakeup after a reconnect is one of the local wakeups the model allows at any time.
- Rows written to the tables outside the API.
- Supervision of tasks in `run_until_shutdown` and its validation of cron definitions: the loops of a worker may end at any time, alone or together, and its cleanup is `Queue.Shutdown`.
- `get`, `recent`, `workers`, `counts`, registries, `Environment` and `JobStatus` parsing, builder methods and their assertions, `average_duration_ms`: reads, and members that say nothing beyond their bodies.
- Time-zone data: a named zone is any pair of functions satisfying `Regular`; UTC and fixed offsets are built and proved regular. A zone whose clocks go back across local midnight, so that a local date recurs, is not regular and nothing is claimed of it.
- The claim, heartbeat, recovery and listener loops as loops: what they promise is about interleavings, so each round is a sequence of events of the transition system; only the loops over a batch, a cron list, renewals and counters are loops here.
- NoLostWakeup: is about a loop whose query returned no candidate at all; a loop that lost the race for its queue, or skipped rows locked by other claims, may sleep until its timer, as in the code.
- SplitClaimIsAtomic: the select may pick any lockable row, in any order and with an out-of-date queue test; the order of claims is proved for the atomic claim that the split one refines.
- RecoverySparesLiveJobs: one clock serves all processes and the database, each statement takes effect at a time between its sending and its reply, and a worker id belongs to one running process; clocks that drift apart are not modelled.
- The real-valued exponential of the backoff: `fail_locked` takes any function of the attempt, capped at ten as in the code.
- FrequentPollsLoseNothing: the clock a worker reads is not ahead of the time at which its statement takes effect; how far workers' clocks lag behind is part of the delay.
