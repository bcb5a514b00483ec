# runs-fleet: verified model of the orchestrator's coordination logic

runs-fleet is an orchestrator for ephemeral CI runners on EC2. Several processes race on a
few shared tables and coordinate only through conditional writes: a job is provisioned by
whoever wins its lease in the jobs table, an instance is used by whoever holds its claim in
the pools table, and a queue message may go only once its job is in safe hands. This project
models that protocol in Dafny, together with the algorithms and small state machines beside
it, and proves what they guarantee over every input, every interleaving and every run.

`dafny verify dfyconfig.toml` checks everything. One module per component:

| module | models |
|---|---|
| `Clock`, `Wrappers`, `Sequences` | instants and stored seconds; optional values and table rows; sums, counts, insertion sort |
| `Jobs` | rows of the jobs table and the class whose methods write them |
| `JobLease`, `JobRuns` | processors, agents, sweeps and an operator interleaving on the jobs table, the invariant, and what every run guarantees |
| `MessageProcessing`, `RetryBudget` | one queue message around the lease, the webhook handlers, and why requeue chains end |
| `TtlLease`, `PoolsTable`, `WarmPool` | the expiring lease, the three leases on the pools table that refine it, the reaper, warm assignment |
| `PoolConcurrency` | the sweep behind the 90th percentile of concurrent jobs |
| `InstanceRanking`, `OverrideMatrix` | weighted interleaving of instance types, one subnet per zone, the bounded override matrix |
| `CircuitBreaker`, `AmiResolver`, `RateLimiter`, `MirrorConfig` | the smaller state machines and the buildx shim's rewriting |

## How the job lease is modelled

A claim is two steps, a read and a later compare-and-swap on `created_at`, and any step of any
other process may fall in between. The other writers of a row are modelled too: saves, releases and
give-ups of processors, agents and webhooks (pkg/db/jobs.go), and the writes of the housekeeping
sweeps and of an operator, which look at the status alone or at nothing: the flips to requeued
(pkg/housekeeping/requeue.go:835-861, pkg/housekeeping/unconfirmed.go:164-171) and their rollback
(requeue.go:788-806), orphaning (pkg/housekeeping/orphans.go:347-380), settling from GitHub's
conclusion (pkg/housekeeping/tasks.go:1692-1726), failing an unconfirmed job (unconfirmed.go:173-181),
the agent's times (pkg/db/jobs.go:511-543) and the deletion of week-old rows (tasks.go:1039-1116).

`JobLease.Enabled` says what these can do. `JobLease.Disciplined` adds what the code relies on and
does not enforce:

- all processes share one non-decreasing clock, and a row is stamped at the instant its write lands;
- a holder saves, releases or fails its claim within 90 s of claiming, or never writes again. The
  comments at pkg/db/jobs.go:33-36 and pkg/config/timeouts.go:13-15 intend this; on traced messages
  internal/worker/ec2.go:238-240 replaces the context that would enforce it;
- a takeover of a requeued or terminating row is stamped in a later second than the row it read (for
  a stale lease this is proved from the 100 s threshold);
- a completion carries a terminal status;
- a sweep's or operator's write, the release of a processor that already saved its row
  (internal/worker/ec2.go:386-394, internal/worker/direct.go:184-192), and a give-up on a job that a
  sweep or such a release has touched do not land on a row that might be held (`JobLease.MightBeHeld`: a claiming stub less
  than 90 s old, which the writer could check), and a delete only on a row of an earlier second.
  Nothing in the code checks this: the operator's requeue accepts any claiming row
  (requeue.go:343-347), the stale sweep re-reads only the status it scanned ten minutes before;
- marking an instance's job terminating is one step, although pkg/db/jobs.go:547-587 reads and then writes;
- reads are consistent, a launch yields one instance (pkg/fleet/fleet.go:278 asks for one), and a
  run starts, with no processor active, from rows with readable, past timestamps whose claiming rows
  carry no instance.

## What does not hold as promised

- A sweep or operator that flips a claiming row while it is held lets a second processor take it over:
  two live holders (`JobRuns.FlipMeetsHolder`). `JobRuns.FlipSafeExactly` gives the exact
  condition on the row, `JobRuns.SweepSafeExactly` that of every such write.
- Failing an exhausted lease is guarded on the status alone (pkg/db/jobs.go:344-352): if a sweep
  requeues the row and another processor claims it first, the new holder's lease is failed
  (`JobRuns.GiveUpMeetsHolder`; exactly when, `JobRuns.GiveUpThenHolder`). For a job neither a sweep nor a
  late release has touched the guard is enough (`JobRuns.GiveUpSparesHolders`).
- Two processors that re-claim one requeued or terminating row within the second of its `created_at`
  both win (`JobRuns.SameSecondTakeover`); `JobRuns.TakeoverRace` gives the exact condition.
- A processor that releases after a successful save deletes whatever is in the row. It may meet a live
  holder (`JobRuns.LateReleaseMeetsHolder`); or, nobody holding the row, it may delete a row of the same
  second that another processor has read requeued, which then wins over the next claimer
  (`JobRuns.LateReleaseMeetsReader`). It is safe exactly when the row is absent, or of an earlier second
  and not one that might be held (`JobRuns.LateReleaseSafeExactly`).
- A holder that overruns its 90 s overwrites the stub of the processor that took over from it
  (`JobRuns.OverdueSaveMeetsHolder`; exactly when, `JobRuns.OverdueWriteSafeExactly`).
- The comment at pkg/db/jobs.go:268-270 says a corrupt lease can never strand a job. A lease whose
  `created_at` is the empty text is judged stale but can never be taken over (`Jobs.StaleLeaseRecoverable`).
- A forced operator requeue, or one after a spot interruption, is not capped and reaches a fourth
  deduplication id (`RetryBudget.FourthDedupId`); `RetryBudget.BudgetKeptExactly` says exactly when.
- `HasLiveInstanceClaim` denies a claim during the very second it expires, when no other job can take
  it yet (`PoolsTable.HoldIsVisible`).
- Deleting and recreating a pool's row forgets its reconcile lock exactly when the pool is ephemeral
  (`PoolsTable.DeletedPoolForgetsLock`).
- A release of the claim from under a failed assignment lets its stop reach another job's instance
  (`WarmPool.ReleasedUnderAssignment`).
- A circuit opens only on three interruptions within 15 minutes while its row has a window
  (`CircuitBreaker.OpensWithinWindow`). A manual reset removes the window: any three interruptions after
  it open the circuit, however far apart (`CircuitBreaker.ResetForgetsWindow`).
- A sweep sample counts the jobs with start < t <= end only when no job was recorded as ending before
  it started around t (`PoolConcurrency.LevelCountsJobs`), as an agent's own clock can
  (`PoolConcurrency.InvertedUndercounts`).

## Model

| member | source | states |
|---|---|---|
| `Jobs.StaleLeaseRecoverable` | pkg/db/jobs.go:242-322 | a stale lease below the cap can be taken over if and only if its created_at is not the empty text |
| `Jobs.JobsTable.WriteClaim` | pkg/db/jobs.go:279-322 | the put lands exactly when there is no row, or when a row was seen and its created_at is still the one seen |
| `Jobs.JobsTable.ClaimJob` | pkg/db/jobs.go:180-266 | every answer from the row and the calls alone: rejected without id or table; claimed exactly on an absent, requeued, terminating or 100 s old lease below 3 attempts, which then becomes the claimer's stub with the count kept or raised; exhausted exactly on a 100 s old lease at 3; otherwise somebody's; nothing else changes |
| `Jobs.JobsTable.SaveJob` | pkg/db/jobs.go:109-157 | replaces the row by the launched one, whatever was there; rejects a missing id, instance or table |
| `Jobs.JobsTable.DeleteJobClaim` | pkg/db/jobs.go:418-443 | removes the row, whatever it is, and nothing else |
| `Jobs.JobsTable.FailExhaustedClaim` | pkg/db/jobs.go:331-367 | only a claiming row becomes error; a row that moved on is left alone without an error |
| `Jobs.JobsTable.MarkJobStarted` | pkg/db/jobs.go:378-415 | only a launched row becomes running, and only then is it echoed back |
| `Jobs.JobsTable.MarkJobComplete` | pkg/db/jobs.go:450-507 | only a row bound to the reporting instance changes, and only then is it echoed back |
| `Jobs.JobsTable.MarkJobCancelled` | pkg/db/jobs.go:1167-1200 | true exactly when a launched row became cancelled |
| `Jobs.JobsTable.MarkJobRequeued` | pkg/db/jobs.go:1205-1260 | true exactly when a launched or running row became requeued |
| `Jobs.JobsTable.MarkInstanceTerminating` | pkg/db/jobs.go:547-587 | only a running or launched row bound to the instance becomes terminating |
| `Jobs.JobsTable.MarkRequeued` | pkg/housekeeping/requeue.go:835-861 | true exactly when the row was still in the observed status; it becomes requeued, its instance cleared by the operator's form |
| `Jobs.JobsTable.RollbackRequeueFlip` | pkg/housekeeping/requeue.go:788-806 | only a requeued row is put back |
| `Jobs.JobsTable.MarkJobOrphaned` | pkg/housekeeping/orphans.go:347-380 | refused for a settled status; otherwise exactly a row still in the observed status is orphaned, completed and taken out of its pool |
| `Jobs.JobsTable.MarkJobCompleted` | pkg/housekeeping/tasks.go:1692-1726 | only a running or claiming row becomes completed |
| `Jobs.JobsTable.MarkLaunchedJobError` | pkg/housekeeping/unconfirmed.go:173-207 | only a launched row becomes error |
| `Jobs.JobsTable.UpdateJobMetrics` | pkg/db/jobs.go:511-543 | sets the completion time of an existing row, whatever its status |
| `Jobs.IsTerminal` | pkg/db/job_status.go:42-50 | every status but the live ones, failed and orphaned |
| `JobLease.WinnerMeetsNoHolder` | pkg/db/jobs.go:279-322 | a claim that wins its compare-and-swap meets no live holder, nor, on a job neither a sweep nor a late release has touched, anybody about to fail that job |
| `JobLease.ClaimKeepsPhase` | pkg/db/jobs.go:242-322 | a winning claim keeps what every other processor, mid-claim or giving up, knows about the row |
| `JobLease.HolderKeepsPhase` | pkg/db/jobs.go:109-157 | a live holder's save or delete keeps what every other processor knows about the row |
| `JobLease.HarmlessKeepsPhase` | pkg/housekeeping/requeue.go:788-861 | a write or delete on a row that might not be held keeps what every processor, mid-claim, giving up or holding, knows about it |
| `JobLease.StepKeepsInv` | pkg/db/jobs.go:109-587 | every step of every process, sweeps and operator included, keeps the invariant: one live holder, whose row is its own stub; pending claims can win only where nobody holds |
| `JobRuns.ExcludedSteps` | pkg/config/timeouts.go:13-15 | what the hypotheses exclude, step by step and in full; every other step the code can take is in the runs |
| `JobRuns.AtMostOneLiveHolder` | pkg/db/jobs.go:180-322 | in every reachable state, whatever the sweeps do outside rows that might be held, a job has at most one live holder, and its row is exactly the stub that holder wrote |
| `JobRuns.HolderWritesOwnStub` | pkg/db/jobs.go:109-157 | in every run a holder's save, release and give-up land on its own stub, and never on a job somebody else holds |
| `JobRuns.GiveUpSparesHolders` | pkg/db/jobs.go:331-367 | a processor answered exhausted never fails a job that is held; on a job neither a sweep nor a late release has touched this needs no hypothesis about its write |
| `JobRuns.TakeoverRace` | pkg/db/jobs.go:242-322 | of two takeovers of one row, the second also wins if and only if the first was stamped in the row's own second; never for a stale lease |
| `JobRuns.SameSecondTakeover` | pkg/db/jobs.go:249-252 | a run of the code that ends with two live holders of a requeued job |
| `JobRuns.LateReleaseSafeExactly` | internal/worker/ec2.go:378-398 | deleting a saved row again leads to two live holders in no disciplined continuation, from any state of the invariant with that row, if and only if the row is absent, or of an earlier second and not a claiming stub that might still be held |
| `JobRuns.LateReleaseMeetsReader` | internal/worker/ec2.go:378-398 | a disciplined run, such a release of a row of the same second that nobody might hold, and a disciplined continuation with two live holders |
| `JobRuns.SweepSafeExactly` | pkg/housekeeping/requeue.go:788-861 | any write of the sweeps (flip, rollback, orphan, settle, fail, report, purge) keeps the invariant in every state with that row if and only if nobody might hold the row before or after it and a deleted row is of an earlier second |
| `JobRuns.FlipSafeExactly` | pkg/housekeeping/requeue.go:835-861 | a status-guarded flip leads to two live holders in no disciplined continuation, from any state of the invariant with that row, if and only if the row might not be held |
| `JobRuns.FlipMeetsHolder` | pkg/housekeeping/requeue.go:835-861 | a run, disciplined but for the flip, that ends with two live holders |
| `JobRuns.GiveUpMeetsHolder` | pkg/db/jobs.go:331-367 | a disciplined run after which the terminal write of an exhausted answer fails the lease of a live holder |
| `JobRuns.GiveUpThenHolder` | pkg/db/jobs.go:331-367 | a give-up meets no live holder in any state with that row if and only if the row might not be held |
| `JobRuns.OverdueWriteSafeExactly` | pkg/db/jobs.go:109-157 | the write of a holder past its 90 s meets no live holder in any state with that row if and only if the row might not be held |
| `JobRuns.OverdueSaveMeetsHolder` | pkg/db/jobs.go:109-157 | a disciplined run after which the save of a holder past its 90 s overwrites the stub of a live holder |
| `JobRuns.LateReleaseMeetsHolder` | internal/worker/ec2.go:374-398 | a disciplined run that ends where such a release would meet a live holder |
| `JobRuns.TerminalLeftOnlyByEarlierRead` | pkg/db/jobs.go:242-507 | in every run a terminal row takes another status only by a claim write, and the read of that very claim came before the row was terminal; otherwise it was deleted by the purge or a late release |
| `JobRuns.CompletionBoundToLatestSave` | pkg/db/jobs.go:483-503 | a completion takes effect only for the instance bound by the latest save, with no claim, save, release or purge of the job since; the row has been that instance's at every moment since |
| `JobRuns.StaleAgentIgnored` | pkg/db/jobs.go:450-507 | once the row is not an instance's any more (claimed, saved for another, cut off by an operator, or gone), that instance's completion changes nothing until a save binds it anew |
| `JobRuns.ProcessorsTakeEffect` | pkg/db/jobs.go:109-157 | in the machine a save binds the launched instance, a release removes the row, a give-up ends in error, a winning claim writes its fresh stub and a losing one nothing |
| `JobRuns.WebhooksTakeEffect` | pkg/db/jobs.go:378-415 | a start confirms exactly a launched job, a cancel ends it, a requeue of a launched or running one makes it claimable at once |
| `JobRuns.InstancesTakeEffect` | pkg/db/jobs.go:450-587 | a completion by the row's own instance ends the job and an interruption marks an active one; from any other instance nothing happens |
| `JobRuns.SweepsTakeEffect` | pkg/housekeeping/requeue.go:788-861 | the operator's flip cuts the old instance off: its completion then changes nothing, and a rollback restores the status; orphaning, settling, failing and purging do what they say |
| `JobRuns.OwningIsDeactivating` | pkg/db/jobs.go:1167-1260 | a call returns true exactly when it took the row out of launched and running |
| `JobRuns.OneRecoveryPerLaunch` | pkg/db/jobs.go:1167-1260 | between two calls of cancel, requeue or a sweep's flip of a launched or running row that return true, the job was saved again or a requeue was rolled back |
| `JobRuns.LateStartIgnored` | pkg/db/jobs.go:378-415 | a started message after a cancel, requeue or completion changes nothing until the next save or rollback |
| `JobRuns.TakeoverRaisesCount` | pkg/db/jobs.go:242-287 | a claim wins over an unsaved lease only as the takeover of exactly that stale row, below the cap, adding one attempt; for jobs neither a sweep nor a late release has touched |
| `JobRuns.AttemptsBounded` | pkg/db/jobs.go:242-287 | in every run, sweeps included, with no save or deletion of the row the attempt count is what it was plus the takeovers of stale leases since, and at most max(3, what it was) |
| `JobRuns.ExhaustedStandsStill` | pkg/db/jobs.go:242-277 | at the cap the row does not change until saved, deleted or failed; a claim is answered exhausted exactly when it reads it stale, else refused; for jobs neither a sweep nor a late release has touched |
| `JobRuns.GiveUpEndsInError` | pkg/db/jobs.go:331-367 | in every run the terminal write after an exhausted answer leaves the job in error; for jobs neither a sweep nor a late release has touched |
| `MessageProcessing.DeleteMessageWithRetry` | internal/worker/ec2.go:584-591 | deletes one after another, at most three, stopping at the first success |
| `MessageProcessing.SendMessageWithRetry` | internal/worker/ec2.go:593-600 | sends the same message at most three times, stopping at the first success, and reports whether there was one |
| `MessageProcessing.CreateFleetWithRetry` | internal/worker/ec2.go:431-446 | succeeds exactly when one of three launches does, with the instances of the first that does |
| `MessageProcessing.PrepareRunners` | internal/worker/ec2.go:487-514 | every instance is tried; failure is reported exactly when one of them fails |
| `MessageProcessing.SaveJobRecords` | internal/worker/ec2.go:449-481 | every row is tried, up to the given number of times, and saved exactly when one attempt is answered |
| `MessageProcessing.Provision` | internal/worker/ec2.go:374-398 | all rows tried, then all runners prepared, then the claim released exactly when a preparation failed; an unsaved row does not stop it |
| `MessageProcessing.ProvisionedMeans` | internal/worker/ec2.go:374-398 | over the answers alone: each row saved exactly when one of its attempts is answered, each runner prepared, all saves before all preparations, the claim released exactly when a preparation failed |
| `MessageProcessing.SendFallback` | internal/worker/ec2.go:354-357 | the fallback is accepted exactly for a spot job, not forced on demand, with fewer than 2 retries, when one of three sends is |
| `MessageProcessing.FallBack` | internal/worker/ec2.go:539-567 | after a failed launch the claim goes first, then the fallback message; the original is deleted only after an accepted send, and then always |
| `MessageProcessing.FallbackLogMeans` | internal/worker/ec2.go:328-372 | after three failed launches nothing is saved or prepared, the claim is released first, and only the on-demand copy with one more retry is ever sent |
| `MessageProcessing.ColdStart` | internal/worker/ec2.go:328-398 | processed exactly when a launch succeeded with every runner prepared; every delete is justified |
| `MessageProcessing.ProcessEC2Message` | internal/worker/ec2.go:145-413 | for every combination of answers a delete comes after one of the six justifying outcomes, and one is attempted if and only if one of them came about; a fleet is launched only under the claim |
| `MessageProcessing.DoneMeans` | internal/worker/ec2.go:145-413 | the six outcomes spelled out over the answers of table, warm pool, fleet, runners and queue |
| `MessageProcessing.JustifiedMeans` | internal/worker/ec2.go:154-221 | what must stand in the log before a delete, spelled out |
| `MessageProcessing.MessageLogMeans` | internal/worker/ec2.go:247-306 | the claim comes first; the give-up write happens exactly on an exhausted claim; the warm pool is asked exactly under our claim for a job with a pool |
| `MessageProcessing.LaunchMeans` | internal/worker/ec2.go:306-398 | a fleet is launched exactly under our claim without a warm instance and with a fleet manager; otherwise nothing is sent, saved, prepared or released |
| `MessageProcessing.RecoverFleetFailure` | internal/worker/direct.go:228-264 | an eligible job is handed back to the queue after its claim was let go of; any other is marked failed |
| `MessageProcessing.RecoveryMeans` | internal/worker/direct.go:228-306 | over the answers alone: handed back exactly for a spot job not forced with fewer than 2 retries and a queue, the claim released first, as its on-demand copy with one more retry; otherwise exactly the terminal write |
| `MessageProcessing.ProcessJobDirect` | internal/worker/direct.go:69-213 | returns true exactly on a warm assignment or a fully prepared launch; sends or writes off only after a failed launch |
| `MessageProcessing.HandleJobFailure` | internal/handler/webhook.go:286-358 | a requeue is sent exactly when the record has fewer than 2 retries, a run and a repository and this caller's mark succeeded; it is the record's own job on demand with one more retry, and can never fall back again |
| `MessageProcessing.HandleJobCancelled` | internal/handler/webhook.go:222-283 | config and claim are cleaned up only by the caller whose mark succeeded, for the recorded instance |
| `RetryBudget.RetriesCountUp` | internal/worker/ec2.go:522-537 | in every run each retry carries one more than what it was built from, is not fallback-eligible, and is at most 2 if and only if it is not an uncapped requeue from a count of 2 or more |
| `RetryBudget.BudgetKeptExactly` | pkg/housekeeping/requeue.go:444-552 | over any run of enqueues, fallbacks, capped and uncapped requeues, with reads as old as they like, a job's ids stay among the three of the budget if and only if no uncapped requeue was built from a count of 2 or more |
| `RetryBudget.AtMostThreeDedupIds` | pkg/queue/sqs.go:73-89 | without such a requeue a job has at most three deduplication ids |
| `RetryBudget.FourthDedupId` | pkg/events/handler.go:405-418 | a run in which an uncapped requeue gives a job four deduplication ids |
| `TtlLease.UnexpiredSurvives` | pkg/db/instance_claims.go:35-142 | no acquire or release by another owner and no reaper on the clock disturbs an unexpired lease |
| `PoolsTable.KeysDistinct` | pkg/db/pool_config.go:111-116 | no two leases share a row, given that pools are not named like reserved rows |
| `PoolsTable.TableRefinesLease` | pkg/db/locks.go:45-231 | every write to the pools table is a step of the abstract lease on each instance, task and pool, the deletion of an ephemeral pool's own row excepted |
| `PoolsTable.LeaseExclusion` | pkg/db/instance_claims.go:35-142 | in every run no two owners hold unexpired grants of one lease |
| `PoolsTable.HolderUndisturbed` | pkg/db/instance_claims.go:96-142 | late releases and reaper deletes leave a holder's lease exactly as it was |
| `PoolsTable.HoldIsVisible` | pkg/db/instance_claims.go:151-184 | throughout a hold the instance reads as claimed, if and only if the hold's last second has not come |
| `PoolsTable.ClaimedExactlyWhenHeld` | pkg/db/instance_claims.go:151-184 | in every run an instance reads as claimed if and only if somebody holds an unexpired grant of it that is not in its last second |
| `PoolsTable.DeletedPoolForgetsLock` | pkg/db/pool_config.go:530-559 | deleting and recreating a pool under a held lock lets a second owner in if and only if the pool is ephemeral |
| `PoolsTable.PoolsClient.ClaimInstanceForJob` | pkg/db/instance_claims.go:35-82 | acquired exactly when free, expired or already this job's; nothing changes otherwise |
| `PoolsTable.PoolsClient.ReleaseInstanceClaim` | pkg/db/instance_claims.go:107-142 | removes only this job's claim; another's is left without an error |
| `PoolsTable.PoolsClient.HasLiveInstanceClaim` | pkg/db/instance_claims.go:151-184 | true exactly for a row unexpired or without a readable expiry |
| `PoolsTable.PoolsClient.AcquirePoolReconcileLock` | pkg/db/locks.go:45-96 | as a claim, but only on an existing pool row that is not a reserved one |
| `PoolsTable.PoolsClient.AcquireTaskLock` | pkg/db/locks.go:144-190 | as a claim, creating the row when there is none |
| `PoolsTable.PoolsClient.ReleaseTaskLock` | pkg/db/locks.go:195-231 | clears only this owner's lock attributes, keeping the row |
| `PoolsTable.PoolsClient.ReleasePoolReconcileLock` | pkg/db/locks.go:101-135 | clears only this owner's lock attributes, keeping the pool |
| `PoolsTable.PoolsClient.ReapReservedRows` | pkg/db/pool_config.go:127-183 | for scan pages however out of date, only scanned rows past the cutoff are gone and all other rows are as before; the count is the number gone; on success no scanned row is past the cutoff |
| `WarmPool.ReleaseFailedAssignment` | internal/worker/warmpool.go:160-189 | the claim is released exactly when some stop was accepted, as the last effect, right after that stop |
| `WarmPool.TryAssignToWarmPool` | internal/worker/warmpool.go:55-150 | assigned exactly when claimed, configured and saved in that order; a claimed instance that is not assigned is undone |
| `WarmPool.StopSparesOtherJobs` | internal/worker/warmpool.go:160-189 | in every interleaving where stops are tried before the claim expires, a stop reaches an instance another job holds only if somebody else released the claim from under the assignment |
| `WarmPool.ReleasedUnderAssignment` | internal/worker/warmpool.go:160-189 | after such a release any other job can claim the instance, and the next stop of the failed assignment, whichever attempt it is, reaches it |
| `WarmPool.ReleaseFollowsStop` | internal/worker/warmpool.go:160-189 | in every interleaving an assignment that releases its claim has done what the undo procedure does, in its order, an accepted stop right before the release |
| `PoolConcurrency.NetIsLevel` | pkg/db/jobs.go:946-953 | whatever the order of the events, the deltas before t add up to the jobs spanning t less the inverted ones |
| `PoolConcurrency.LevelCountsJobs` | pkg/db/jobs.go:862-923 | that sum is the cardinality of the jobs with start < t <= end if and only if no job has end < t <= start |
| `PoolConcurrency.InvertedUndercounts` | pkg/db/jobs.go:511-543 | one job recorded as over before it began hides one that was there |
| `PoolConcurrency.CollectEvents` | pkg/db/jobs.go:905-923 | exactly one start and one end event for each job that occupied an instance |
| `PoolConcurrency.Sweep` | pkg/db/jobs.go:942-953 | one sample a minute; each is the sum over all events strictly before its time |
| `PoolConcurrency.Percentile` | pkg/db/jobs.go:959-966 | the k-th of N sorted samples is a sample, at most N-1-k samples exceed it and at most k are below it |
| `PoolConcurrency.LevelIsBusy` | pkg/db/jobs.go:905-953 | the sweep's counter at t is the number of jobs of the history there at t, less those inverted around it |
| `PoolConcurrency.CountIsOfJobs` | pkg/db/jobs.go:862-923 | each minute's count over the history itself: jobs created before it and completed at it or later or, never completed, launched, running or terminating and under two hours old; less those recorded as over before they began |
| `PoolConcurrency.GetPoolP90Concurrency` | pkg/db/jobs.go:885-967 | one count for each minute of the window; the result is one of them that at most N-1-⌊9(N-1)/10⌋ of the N exceed and at most ⌊9(N-1)/10⌋ undercut; zero for an empty window |
| `InstanceRanking.InterleaveWeighted` | pkg/fleet/fleet.go:1082-1100 | terminates with exactly weight-many copies of each item, every k-th copy before every (k+1)-th, items in order within a round |
| `InstanceRanking.CountByName` | pkg/fleet/fleet.go:1082-1100 | for distinct types, a type occurs in the list exactly as often as its item has copies |
| `InstanceRanking.WeightIsRatio` | pkg/fleet/fleet.go:1057-1071 | a weight is the nearest whole number of times the dearest price holds the type's own, within 1 and 5 |
| `InstanceRanking.RankInstanceTypesByPrice` | pkg/fleet/fleet.go:1010-1074 | only requested types; distinct ones 1 to 5 times, by that weight, once without a price, a cheaper one never less often than a dearer; listed round by round, the cheaper first and the unpriced last |
| `OverrideMatrix.SubnetsOnePerAZ` | pkg/fleet/fleet.go:449-484 | keeps, in order, each subnet whose zone is unknown or met for the first time; all of them when the lookup failed |
| `OverrideMatrix.CollapsedCovers` | pkg/fleet/fleet.go:449-484 | one subnet per known zone is left, whether or not all zones are known, and no zone is lost |
| `OverrideMatrix.CollapsedMembers` | pkg/fleet/fleet.go:464-476 | a subnet is kept exactly when its zone is unknown or no earlier subnet is in it |
| `OverrideMatrix.CollapsedInOrder` | pkg/fleet/fleet.go:464-476 | the kept subnets keep their order |
| `OverrideMatrix.TypesPerSubnetFits` | pkg/fleet/fleet.go:557-569 | at least one type per subnet, the total within max(60, subnets), and one more type each would exceed 60 |
| `OverrideMatrix.BuildOverrides` | pkg/fleet/fleet.go:577-620 | the matrix of the first types against every subnet; one unnamed subnet when there is none |
| `OverrideMatrix.MatrixMembers` | pkg/fleet/fleet.go:585-611 | the entries are exactly the overrides of a chosen type in a subnet |
| `OverrideMatrix.MatrixAt` | pkg/fleet/fleet.go:585-611 | subnet by subnet, the types in the order given, with subnet and storage set when there are any |
| `OverrideMatrix.FleetMatrix` | pkg/fleet/fleet.go:449-620 | no repeated pair of type and known zone, every known zone of the configured subnets and no other, at most max(60, kept subnets) entries |
| `CircuitBreaker.Breaker.RecordInterruption` | pkg/circuit/breaker.go:130-189 | the row after one more interruption, or no change when a call failed; the cached answer is dropped |
| `CircuitBreaker.Breaker.CheckCircuit` | pkg/circuit/breaker.go:201-256 | the cached answer within a minute, else the row's, closed and reset once its auto-reset has passed |
| `CircuitBreaker.Breaker.ResetCircuit` | pkg/circuit/breaker.go:259-281 | the row is closed and empty and its cached answer dropped, or nothing changed |
| `CircuitBreaker.Breaker.CleanupExpiredCache` | pkg/circuit/breaker.go:106-127 | removes exactly the cached answers more than two minutes old |
| `CircuitBreaker.CircuitRows` | pkg/circuit/breaker.go:130-281 | in every reachable state a closed circuit counts fewer than 3 and an open one resets exactly 30 minutes after opening |
| `CircuitBreaker.AnswerAtMostAMinuteOld` | pkg/circuit/breaker.go:201-256 | every answer equals an uncached check at a step within the last minute, and what today's row would have answered then |
| `CircuitBreaker.CountIsOfRecordings` | pkg/circuit/breaker.go:130-189 | in every run a row with a window counts no more than the interruptions recorded since the window began |
| `CircuitBreaker.StaysOpen` | pkg/circuit/breaker.go:201-256 | in every run, for 30 minutes after a circuit opened, every answered check says open and leaves the row |
| `CircuitBreaker.ClosesAfterCooldown` | pkg/circuit/breaker.go:222-254 | after that a check that reads the table answers closed and empties the row |
| `CircuitBreaker.OpensWithinWindow` | pkg/circuit/breaker.go:130-189 | in every run a circuit whose row has a window opens only when at least three interruptions were recorded within 15 minutes |
| `CircuitBreaker.WindowOpens` | pkg/circuit/breaker.go:149-172 | conversely a closed circuit is open as soon as the recordings within 15 minutes of its window's first second bring the count to three |
| `CircuitBreaker.ThirdOpens` | pkg/circuit/breaker.go:130-172 | the first interruption of a type and two more within 15 minutes open the circuit |
| `CircuitBreaker.ResetForgetsWindow` | pkg/circuit/breaker.go:259-281 | a run in which, after a reset, a circuit opens with a single interruption in the last 15 minutes |
| `AmiResolver.AMIResolver.Current` | pkg/fleet/ami.go:84-131 | what could be read is merged over what was known; only a read that learned something renews the cache |
| `AmiResolver.CurrentMeans` | pkg/fleet/ami.go:84-131 | nothing changes within five minutes of the last learning; otherwise every template with an image is taken over, stamped now, and everything else kept |
| `AmiResolver.AMIResolver.CurrentImageIDs` | pkg/fleet/ami.go:140-156 | the image ids of exactly the architectures confirmed within ten minutes |
| `AmiResolver.AMIResolver.UnresolvedArchs` | pkg/fleet/ami.go:160-176 | in name order, exactly the architectures without a confirmed image |
| `AmiResolver.CurrentIsFresh` | pkg/fleet/ami.go:84-131 | in every run with readable templates, Current has an image for each architecture, the latest read, less than five minutes old |
| `AmiResolver.ImageIDsAreFresh` | pkg/fleet/ami.go:84-156 | in every run, with any template failures, an image id handed out is the latest one read from its template, at most ten minutes before |
| `AmiResolver.FreshReadsHandedOut` | pkg/fleet/ami.go:84-156 | conversely an architecture read within ten minutes has an image id handed out |
| `AmiResolver.NeverForgotten` | pkg/fleet/ami.go:84-131 | an architecture once resolved never disappears |
| `RateLimiter.Limiter.Allow` | pkg/admin/ratelimit.go:80-109 | opens a window when there is none, else spends a token; admitted while tokens last; other clients untouched |
| `RateLimiter.Limiter.RetryAfterSeconds` | pkg/admin/ratelimit.go:111-128 | the fewest whole seconds that reach past the window's end, at least one |
| `RateLimiter.Limiter.Cleanup` | pkg/admin/ratelimit.go:130-153 | drops exactly the buckets unseen for two windows |
| `RateLimiter.AtMostTwiceTheLimit` | pkg/admin/ratelimit.go:80-153 | in every run, sweeps included, any closed interval of one window admits at most twice the limit |
| `RateLimiter.TwiceIsReached` | pkg/admin/ratelimit.go:80-109 | a run that reaches it |
| `RateLimiter.WindowAdmitsLimit` | pkg/admin/ratelimit.go:80-109 | within the window a first request opens, a further one is admitted if and only if fewer than the limit came before |
| `RateLimiter.RetryAfterSuffices` | pkg/admin/ratelimit.go:111-128 | a refused client that waits the Retry-After delay (section 10.2.3 of RFC 9110) is admitted; a wait one second shorter ends no later than the window does |
| `MirrorConfig.RewriteMirrorHosts` | pkg/buildxshim/mirrorconfig.go:44-64 | text and count are those of replacing every leftmost quoted local address on the mirror's port; unchanged for an unreadable mirror address |
| `MirrorConfig.AddressesAre` | pkg/buildxshim/mirrorconfig.go:13-16 | what counts as an address between quotes: something without a blank, a colon, digits |
| `MirrorConfig.QuotedAddressRewritten` | pkg/buildxshim/mirrorconfig.go:53-75 | a quoted address anywhere becomes the mirror's exactly when it has the mirror's port, another host, and that is one of this machine's, localhost or a loopback address; it counts as one change |
| `MirrorConfig.NoMirror` | pkg/buildxshim/mirrorconfig.go:44-51 | an address without a port, or with several unbracketed colons, redirects nothing |
| `MirrorConfig.DottedMirrorIsSettled` | pkg/buildxshim/mirrorconfig.go:44-51 | an IPv4 host and port split into themselves, read back, and are left alone |
| `MirrorConfig.BracketedMirrorIsSettled` | pkg/buildxshim/mirrorconfig.go:44-75 | a bracketed address reads back and is left alone if and only if its bracketed host is not taken for this machine |
| `MirrorConfig.NoNewAddress` | pkg/buildxshim/mirrorconfig.go:53-63 | where no quoted address starts, rewriting the rest of the text makes none start |
| `MirrorConfig.RewriteIdempotent` | pkg/buildxshim/mirrorconfig.go:44-64 | rewriting twice is rewriting once, and the second time reports no change, for a mirror address that reads back |
| `MirrorConfig.IdempotentExactly` | pkg/buildxshim/mirrorconfig.go:21-64 | where anything is redirected, that holds of every text if and only if the mirror's own quoted address parses and is not itself redirected |
| `MirrorConfig.ChangesCountRewrites` | pkg/buildxshim/mirrorconfig.go:53-63 | zero changes are reported if and only if the text is unchanged |
| `MirrorConfig.ReplaceFlagValue` | pkg/buildxshim/mirrorconfig.go:98-115 | the value of the first occurrence of the flag that has one is replaced |
| `MirrorConfig.FoundAt` | pkg/buildxshim/mirrorconfig.go:79-94 | the flag found is the first token of the vocabulary, with a value of its own or a token after it |
| `MirrorConfig.FlagFound` | pkg/buildxshim/mirrorconfig.go:79-94 | each of the four flags is found with the token after it, as inline or not by its name, when no flag comes before; alone at the end it is not |
| `MirrorConfig.AssignedFlagFound` | pkg/buildxshim/mirrorconfig.go:79-94 | likewise with its value after an equals sign |
| `MirrorConfig.FlagRoundTrip` | pkg/buildxshim/mirrorconfig.go:79-115 | reading back a replaced flag finds the same flag in the same place with the new value; every other token is untouched |

## Left out

- AWS, GitHub, SQS and SSM calls, retry delays, metrics, tracing and logging: a call is an answer chosen by the environment, a conditional write an atomic guarded update.
- Row attributes no decision reads (instance type, traceparent, labels, exit code, durations, started and warm-pool marks) and the flexible instance spec of a message.
- MessageProcessing.ProcessEC2Message: does not carry the job-table rows; the lease's effects on them are in `JobLease`.
- JobRuns.AtMostOneLiveHolder: under the hypotheses listed above; each guard the code lacks has a run that fails without it and its exact condition (overdue holder, same-second takeover, late release, flip, give-up).
- JobRuns.ExhaustedStandsStill: for jobs that neither a sweep nor a late release has touched since the run began; a sweep may requeue, settle or orphan an exhausted lease.
- JobRuns.GiveUpEndsInError: likewise; after a sweep or a late release the guarded write may find another status, or no row, and leaves it.
- JobRuns.TakeoverRaisesCount: likewise; `JobRuns.AttemptsBounded` does not need it.
- The unguarded update of the agent's times creates a row when there is none; the model writes them to existing rows only.
- JobRuns.CompletionBoundToLatestSave: for jobs that had no row when the run began, so that there is a latest save to name.
- PoolsTable.LeaseExclusion: counts each owner's latest grant, on one shared clock, with a reaper cutoff not ahead of it; the reserved rows other than locks and claims are not modelled.
- WarmPool.StopSparesOtherJobs: that the cancel handler's release can fall into an assignment needs a save whose error hid a landed write; the model allows the release without asking.
- InstanceRanking.RankInstanceTypesByPrice: prices are reals and sorting is an insertion sort; the price cache's refresh, one expiry shared by all types, is a parameter.
- PoolConcurrency.GetPoolP90Concurrency: the history query is a parameter, and 0.9 is exact where the code computes in floating point.
- The circuit table's own expiry of rows an hour after their auto-reset, after which the next interruption starts a new row with a window.
- CircuitBreaker.AnswerAtMostAMinuteOld: calls are taken one at a time, each at one instant; concurrent callers sharing a breaker are not modelled.
- AmiResolver.ImageIDsAreFresh: calls are taken one at a time; the code drops its lock between reading the images and their times.
- RateLimiter.AtMostTwiceTheLimit: one client's requests are taken one at a time, so races between loading and storing a bucket are not modelled.
- MirrorConfig.RewriteIdempotent: for a mirror address without a quote, as it is always read from between quotes; loopback recognition is a parameter.
- "No job is ever lost": on the direct path the code accepts a loss when the requeue cannot be sent after the queue copy is gone.
- The requeue after a spot interruption: it looks for a running job it has just marked terminating, so no requeue guarantee can be stated.
- How the housekeeping sweeps and the operator's actions select their candidates, terminate instances and ask GitHub: any of their writes may come at any time.
- Pool reconciliation, cost reports, admin handlers, sessions, the agent and the mirror proxy: I/O or bookkeeping that would add easy members only.
