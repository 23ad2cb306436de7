# Image bed: verified model

A Dafny model of the parts of the image hosting server whose correctness depends on more than one
function: the protocol by which image variants are produced, the ownership of files, and four smaller
algorithms. `dafny verify dfyconfig.toml` checks everything.

The variant protocol:

- `VariantTable.dfy` is the `image_variants` table. Each SQL statement is one function from table to table,
  with its WHERE guard and the soft-delete scope; tombstones stay in the table. Runs of statements and the
  row invariants are stated here.
- `VariantRepository.dfy` and `ImageRepository.dfy` are the repository objects. Any statement may be
  refused by the database.
- `Pipeline.dfy` is one task: `Execute` with its claims, semaphore, heartbeat start, generators, persistence
  and `finalize`, over the in-place list of `Tracking.dfy` and the registry of `InFlight.dfy`. `Outcome.dfy`
  says, without the code's bookkeeping, what is to become of each row and of the image. Generators are
  nondeterministic: an error, a skip, a result or a panic; the claims, the storing of results, giving up
  without a slot, the status write and the cache deletion may panic too.
- `Lease.dfy` is the concurrent view: any number of tasks with a clock and the program's time constants, a
  sweeper whose single updates interleave with everything else, crashes and restarts. Time advances only as
  far as the program's own deadlines allow.
- `RetryBudget.dfy`, `Sweep.dfy`, `Shutdown.dfy` and `Converter.dfy` are the sweeper's retry bound, one pass
  of the sweeper, the shutdown rollback, and the creation and submission of work. `Pool.dfy` is the worker
  pool, statement by statement, under all interleavings.

File ownership: `TempFile.dfy` follows an upload's staged file through request handler, write service,
converter job and pipeline task; `UploadParse.dfy` reads the multipart request that stages it;
`Originals.dfy` is the sharing of original files between deduplicated records.

Smaller algorithms: `RateLimiter.dfy`, `Paths.dfy`, `RandomSelect.dfy`, `Restore.dfy`.

Code that updates objects in place is modelled by classes and methods with loops, proved against functions
over values; protocols of several parties are step systems, and their theorems speak about every run. Times
are nanoseconds. Clock readings, row ids chosen by the database, and the results of I/O are parameters or
nondeterministic choices. Slices whose aliasing matters are arrays.

Where the code differs from its comments or from what one would expect, the code is followed, and a lemma
states the exact condition or a concrete case:

- The lease holds for tasks of up to 21 minutes only if the writes after the last touch, or after giving up
  waiting, take at most five minutes; tasks of up to 15 minutes need no such bound. All bounds are sharp
  (`LeaseSafety`). A shutdown rollback breaks it exactly when it resets a processing row that a live task
  tracks, or one that a running sweep is about to send back (`RollbackKeepsLease`,
  `ShutdownRollbackBreaksLease`).
- The heartbeat reads the tracked list without a lock. At every single write of the filter it would find
  everything it needs, but a read spread over several writes can miss one id (`TornReadMisses`).
- A skipped variant is soft-deleted while its status is processing. The tombstone blocks its unique key for
  good (`TombstoneBlocksKey`), makes every later trigger with that format abort and fail the rows it had found
  pending (`TriggerConversion`, `AbortIsExact`, `SkippedAvifAborts`), and hides the image from the sweeper
  (`TombstoneShieldsImage`).
- Completed is final exactly as long as the unguarded force-fail does not meet the row alive (`CompletedKept`,
  `ForceFailOverwritesCompleted`).
- A staged file is lost exactly when the pipeline's stat fails on a file that exists
  (`StagedFileDisposedOf`).
- Restoring a soft-deleted image never succeeds while no two hashes share a prefix, because the ORM scopes
  the update to records that are not deleted (`RestoreNeverSucceeds`). An upload is turned away for it exactly
  when its hash survives only in deleted records, the first of which is the user's own and still has its file
  (`OwnDeletedFileTurnsAway`, `ExpectedIsExact`).
- No original dangles exactly when no two hashes share the twelve-digit prefix (`NoDanglingOriginal`).
- A date cannot be read back from a converted path (`ConvertedDateIsShifted`).
- The random choice is uniform over the id range, not over images (`TimesSelected`).

## Model

| member | source | states |
|---|---|---|
| Lease.LeaseSafety | internal/worker/pipeline_task.go:271-378 | In any run of any number of tasks, sweeps whose updates interleave with everything else and may break off at a refused one, crashes, restarts and shutdown rollbacks that spare held rows, from any table: no two live tasks ever hold the same row if and only if every task ends within 15 minutes, or within 21 minutes with closing writes of at most 5 |
| Lease.NeverStale | internal/worker/sweeper.go:13-15 | Ten-minute deadline, four-minute heartbeat and 15-minute threshold fit together: a live task's last touch is never older than the threshold |
| Lease.StepKeepsInv | database/repo/images/variant_repository.go:196-245 | Every step (claim, touch, settle, roll back, sweep snapshot, single recovery, broken-off sweep, crash) keeps rows of live tasks exclusive, freshly touched and out of the sweeper's snapshot |
| Lease.StepsWrittenOut | internal/worker/pipeline_task.go:824-859 | A row leaves the tracked list only with a statement that took effect, except in the closing writes, whose errors are ignored; no step of one task touches another task |
| Lease.AlwaysPossible | internal/worker/pipeline_task.go:925-949 | What the step system never forbids: a crash, a broken-off sweep, a sweep when none runs, and a closing task letting go of any row it tracks and ending once it tracks none |
| Lease.HastyPaceCollides | internal/worker/pipeline_task.go:876-898 | For every slower pace there is a run in which two live tasks hold one row, so the bounds of 21 and 5 minutes are sharp |
| Lease.RollbackKeepsLease | cmd/serve.go:291-336 | In any reachable state, even during a sweep: after a shutdown rollback the lease holds in every continuation if and only if it resets no processing row that a live task tracks and none that the running sweep is about to send back |
| Lease.ShutdownRollbackBreaksLease | cmd/serve.go:291-336 | With no sweep under way: some continuation breaks the lease if and only if a listed row is tracked by a live task and still processing |
| VariantTable.ReachableTableOk | database/models/image_variant.go:16-17 | In every reachable table the pair of image and format is unique even counting tombstones, a retry window implies a pending row, and a completed row has retry count zero |
| VariantTable.StepIsLegal | database/repo/images/variant_repository.go:58-169 | What any one statement may do to any existing row: failed stays failed, tombstones are frozen, completed is entered only from processing with the stored result and left only by force-fail, processing is entered only by a claim |
| VariantTable.ColumnByColumn | database/repo/images/variant_repository.go:87-273 | The same statements column by column, with WHERE clauses and values written out: which statement writes status, artifact, retry count, retry window, message, time and deletion mark of a row, and what; a row no statement meets is untouched |
| VariantTable.InsertedRow | database/repo/images/variant_repository.go:66-84 | The insert adds one live pending row without window, count or artifact, and only when no row, tombstones included, has the key |
| VariantTable.FailedForever | database/repo/images/variant_repository.go:130-146 | Along any run a failed row stays failed and a tombstone stays exactly as it is |
| VariantTable.CompletedKept | database/repo/images/variant_repository.go:105-156 | Along any run a completed row keeps its result, at most being tombstoned, if and only if no force-fail meets it alive; otherwise it ends up failed |
| VariantTable.CompletedWasWritten | database/repo/images/variant_repository.go:105-127 | Wherever a completed row appears, an earlier UpdateCompleted on the then processing row wrote exactly its result |
| VariantTable.ForceFailOverwritesCompleted | database/repo/images/variant_repository.go:149-156 | The unguarded update turns a completed row into a failed one that keeps its artifact |
| VariantTable.TombstoneBlocksKey | database/repo/images/variant_repository.go:58-85 | Once a row is soft-deleted, its image and format never have a live row again, so creating one keeps failing |
| VariantRepo.VariantRepository.UpsertPending | database/repo/images/variant_repository.go:58-85 | Returns the live row of the key unchanged, or inserts a fresh pending one when the key is free; a key held only by a tombstone is an error |
| VariantRepo.VariantRepository.UpdateStatusCAS | database/repo/images/variant_repository.go:88-102 | Acquires exactly when the live row has the expected status; then status and time change, the retry window is cleared exactly when entering processing, the message only when one is given, and every other column and row stays |
| VariantRepo.VariantRepository.UpdateCompleted | database/repo/images/variant_repository.go:105-127 | Succeeds only on a processing row and stores result and zero retry count; otherwise nothing changes |
| VariantRepo.VariantRepository.UpdateFailed | database/repo/images/variant_repository.go:130-146 | Succeeds only on a processing row; otherwise nothing changes |
| VariantRepo.VariantRepository.ForceUpdateFailed | database/repo/images/variant_repository.go:149-156 | Fails the live row whatever its status |
| VariantRepo.VariantRepository.DeleteVariant | database/repo/images/variant_repository.go:184-186 | Soft-deletes the row and leaves its other columns |
| VariantRepo.VariantRepository.TouchProcessing | database/repo/images/variant_repository.go:160-169 | Refreshes the update time of exactly the listed processing rows |
| VariantRepo.VariantRepository.ResetVariantsToPending | database/repo/images/variant_repository.go:258-273 | Sends exactly the listed processing rows to pending and reports their number |
| VariantRepo.VariantRepository.RecoverRow | database/repo/images/variant_repository.go:207-236 | One guarded update, decided by the retry count of the snapshot |
| VariantRepo.VariantRepository.RecoverRows | database/repo/images/variant_repository.go:205-239 | The loop in any order: the table, counters and image set after exactly the rows handled |
| VariantRepo.VariantRepository.RecoverStaleProcessing | database/repo/images/variant_repository.go:196-245 | In any visiting order: without an error every live row processing since before the cutoff is sent back or failed by the budget, and the two counters add up to their number; an image is returned, once, exactly when such a row of it has a retry left; an error leaves exactly the rows handled so far |
| RetryBudget.RetryCountIsExact | database/repo/images/variant_repository.go:196-245 | With one sweeper and any interleaving, an unfinished row's retry count is the number of times the sweeper sent it back, at most two for the limit of three |
| RetryBudget.RecoveryVerdict | database/repo/images/variant_repository.go:206-236 | The recovery of a stale row sends it back with a window of 5, then 15 minutes, and fails it the third time |
| RetryBudget.WindowKept | database/repo/images/variant_repository.go:223-236 | Along any run a pending row keeps its retry window until it is claimed, failed or deleted |
| RetryBudget.FirstWindow | database/repo/images/variant_repository.go:247-256 | A row sent back for the first time at some moment and not claimed since is pending with a window of exactly five minutes from then, or failed or deleted |
| RetryBudget.SweepCanBegin | database/repo/images/variant_repository.go:196-204 | Between sweeps one can always begin, with exactly the live rows processing since before the cutoff and their retry counts, and be broken off at any time |
| RetryBudget.TwoSweepersLoseACount | database/repo/images/variant_repository.go:199-233 | With two sweepers on one snapshot a row is sent back twice and counted once |
| Tracking.WithoutElems | internal/worker/pipeline_task.go:824-837 | The filtered list holds exactly the other ids, and stays free of duplicates |
| Tracking.TraceViews | internal/worker/pipeline_task.go:829-834 | At every intermediate write of the in-place filter a reader of any longer stretch of the array still finds every id that stays tracked, and only acquired ids |
| Tracking.HeartbeatSeesTracked | internal/worker/pipeline_task.go:876-893 | The same after any sequence of earlier releases of the task, for the stretch the heartbeat was started with |
| Tracking.TrackedIds.Append | internal/worker/pipeline_task.go:305 | Adds the id at the end, in place or in a grown array |
| Tracking.TrackedIds.FilterInPlace | internal/worker/pipeline_task.go:829-834 | The loop over the shared array: what it has written after each round is the specified filter of the original contents |
| Tracking.FilteredIs | internal/worker/pipeline_task.go:829-834 | That filter leaves the kept ids in front, in order, and the rest of the array as it was, and each write of it is one state of the trace |
| Tracking.TrackedIds.Release | internal/worker/pipeline_task.go:824-837 | Filters into the same backing array; the contents before and after each single write are the specified trace |
| Tracking.TornReadMisses | internal/worker/pipeline_task.go:824-837 | Exactly which still tracked id a cell-by-cell read overlapping a removal misses |
| Tracking.TornReadExample | internal/worker/pipeline_task.go:900-905 | Such a read exists |
| InFlight.InFlightRegistry.Begin | internal/worker/worker.go:355-370 | Registers a copy under a new id and leaves the other entries alone |
| InFlight.InFlightRegistry.Update | internal/worker/worker.go:386-401 | Replaces the entry of a registered lease by a fresh copy; a released lease stays released |
| InFlight.InFlightRegistry.Release | internal/worker/worker.go:403-411 | Removes exactly this entry |
| InFlight.InFlightRegistry.Snapshots | internal/worker/worker.go:372-384 | One snapshot per task, equal to its entry, in storage of its own that later edits cannot reach |
| Pipeline.ImagePipelineTask.ReleaseTrackedVariant | internal/worker/pipeline_task.go:824-837 | The list loses the id and the registry entry equals the list again |
| Pipeline.ImagePipelineTask.MarkVariantFailed | internal/worker/pipeline_task.go:839-848 | A held row fails and leaves the tracked list; list, registry entry and processing rows stay the same set whatever statement is refused |
| Pipeline.ImagePipelineTask.DeleteTrackedVariant | internal/worker/pipeline_task.go:850-859 | The same for a skipped row, which becomes a tombstone |
| Pipeline.ImagePipelineTask.SettleVariant | internal/worker/pipeline_task.go:401-414 | An error fails the row, no result deletes it, a result is kept for later |
| Pipeline.ImagePipelineTask.SaveResult | internal/worker/pipeline_task.go:761-779 | A held row is completed with its result; a row that cannot be stored fails |
| Pipeline.ImagePipelineTask.SaveBlock | internal/worker/pipeline_task.go:761-779 | One block: moves this row's fate and no other, errs exactly when the row is no longer held, and does nothing when the run panics before it |
| Pipeline.ImagePipelineTask.SaveVariantResults | internal/worker/pipeline_task.go:758-822 | Each of the three results is stored or its row failed independently; an AVIF error counts only without a requested WebP; a panic leaves the later rows as they were |
| Pipeline.ImagePipelineTask.FailAll | internal/worker/pipeline_task.go:382-393 | Every requested row fails and nothing else changes; a panic leaves the later rows held |
| Pipeline.ImagePipelineTask.GenerateAll | internal/worker/pipeline_task.go:397-467 | After the generators each row has the fate its generator, the load and an earlier panic give it, and the failure flag says whether the image is to be marked failed |
| Pipeline.ImagePipelineTask.Classify | internal/worker/pipeline_task.go:479-493 | The image gets the classification unless the run panics before that; a panic in the cache deletion comes after it |
| Pipeline.ImagePipelineTask.Persist | internal/worker/pipeline_task.go:469-493 | Stores what was made and writes the classification exactly when nothing failed, with a panic possible before each of these and in the cache deletion after them |
| Pipeline.ImagePipelineTask.RunPipeline | internal/worker/pipeline_task.go:381-493 | For every mix of errors, skips, results and panics at any point each row meets its fate; an error is reported exactly when the image is to fail |
| Pipeline.ImagePipelineTask.ClaimVariant | internal/worker/pipeline_task.go:290-306 | Goes on only with the row newly moved from pending to processing and tracked, or with no row; what is held is exactly what is tracked also when the claim is lost or panics |
| Pipeline.ImagePipelineTask.ClaimAll | internal/worker/pipeline_task.go:290-339 | Claims in order up to the first one lost or panicking; what is claimed is exactly what is tracked and processing, and how it ends can be read off the table before |
| Pipeline.ImagePipelineTask.GiveUp | internal/worker/pipeline_task.go:348-363 | Without a slot every row and the image fail; a panic in between leaves the rest to the clean-up |
| Pipeline.ImagePipelineTask.GiveBack | internal/worker/pipeline_task.go:925-949 | When the claims did not all succeed, what was claimed goes back with every other column kept, or fails with the image after a panic |
| Pipeline.ImagePipelineTask.StartHeartbeat | internal/worker/pipeline_task.go:876-912 | Unless it is refused the first touch gives every tracked row, and an image that is processing, one and the same time; it changes no status |
| Pipeline.ImagePipelineTask.RunLeased | internal/worker/pipeline_task.go:341-376 | A task with a row or an image runs, or gives up, only under a lease; from its begin to its release the registry entry equals the tracked list after every change, and afterwards the registry is as before |
| Pipeline.ImagePipelineTask.Finalize | internal/worker/pipeline_task.go:925-949 | What is still tracked goes to pending, or to failed after a panic; each row left processing stands for one refused statement |
| Pipeline.ImagePipelineTask.Execute | internal/worker/pipeline_task.go:271-378 | Clean exit on every path, with a panic at any claim, generator, store, status write or cache deletion, with or without a slot: no more rows this task claimed are left processing than statements were refused; a lost claim puts everything back, ready for the next trigger with retry count, artifact and message as before and no retry window, and does not touch the image; a panicking claim fails what was claimed before it, and the image; otherwise every row and the image end as the independent outcome says |
| Pipeline.ImagePipelineTask.FullRunTracksNothing | internal/worker/pipeline_task.go:469-493 | When every row has met its final fate nothing is left in the tracked list |
| Pipeline.VerdictIsClassified | internal/worker/pipeline_task.go:737-755 | The code's classification agrees with the outcome read off the rows: failed, else completed if a full-size row completed, else thumbnail completed, else none |
| ImageRepo.ImageRepository.UpdateVariantStatus | database/repo/images/images_repository.go:364-366 | Sets the status of the live image |
| ImageRepo.ImageRepository.TouchVariantProcessingStatus | database/repo/images/images_repository.go:385-390 | Refreshes the update time of an image that is still processing, nothing else |
| ImageRepo.StatementsWrittenOut | database/repo/images/images_repository.go:364-390 | The three updates by id with their WHERE clauses written out: which image gets which status and time, and that nothing else changes |
| ImageRepo.ImageRepository.MarkStaleProcessingAsFailed | database/repo/images/images_repository.go:302-319 | Fails exactly the stale processing images without a processing row and with a failed one, tombstones included, outside the exclude list |
| ImageRepo.ImageRepository.ResetStaleProcessingToNone | database/repo/images/images_repository.go:324-338 | Resets exactly the stale processing images without a processing row outside the exclude list |
| ImageRepo.SweepsWrittenOut | database/repo/images/images_repository.go:302-338 | The two sweeper updates likewise: live, processing, overdue, not excluded, no processing row, and for the first a failed one |
| ImageRepo.ImageRepository.ResetProcessingVariantStatus | database/repo/images/images_repository.go:368-381 | Resets exactly the listed processing images |
| Sweep.SweepPartition | internal/worker/sweeper.go:110-129 | The two updates in order: a stale image becomes failed exactly if it has a failed row and none otherwise; excluded images and those with a processing row are untouched |
| Sweep.SwappedOrderLosesFailed | internal/worker/sweeper.go:110-129 | In the other order no image is ever marked failed |
| Sweep.RecoveredRows | internal/worker/sweeper.go:81-84 | What the EXISTS queries see after the recovery, in terms of the table before it |
| Sweep.SweepVerdict | internal/worker/sweeper.go:72-136 | The whole fault-free sweep on a fixed table, from the tables before it: when an image that is not re-triggered is untouched, failed or none |
| Sweep.TombstoneShieldsImage | database/repo/images/images_repository.go:302-306 | The tombstone of a skipped row keeps status processing, so in every later state of any run no sweep touches that image again |
| Sweep.RefusedMarkLosesFailed | internal/worker/sweeper.go:113-129 | If only the first update is refused, images that should be failed go back to none |
| Sweep.Sweeper.TriggerAll | internal/worker/sweeper.go:95-108 | Re-submits exactly the retried images that can be fetched, in order, and changes only retried images and their rows |
| Sweep.Sweeper.SweepOnce | internal/worker/sweeper.go:72-136 | Every image outside the retried ones ends as the partition of the tables at the start says, whatever the triggers do and whichever update is refused; the counts are the sizes of the sets; a failed recovery leaves images alone; only an image with a live row stuck in processing and a retry left is re-triggered or excluded |
| Shutdown.CollectVariants | cmd/serve.go:312-321 | Appends the unseen nonzero ids of one snapshot's array, each once |
| Shutdown.Collect | cmd/serve.go:300-322 | Both id lists are free of duplicates and are the union of the snapshots without zero |
| Shutdown.ResetVariantWorkSnapshots | cmd/serve.go:295-336 | Resets variants, then images; an error in the first leaves the images alone |
| Shutdown.SnapshotsHoldTheRegistry | internal/worker/worker.go:372-384 | The snapshots hold exactly the variants and images of the registry, in whatever order they were taken |
| Shutdown.ResetInFlightVariantWork | cmd/serve.go:291-336 | Without an error exactly the processing rows and images that running tasks are registered with go to pending and none |
| Shutdown.RollbackIsExact | database/repo/images/variant_repository.go:258-273 | Exactly the listed processing rows go to pending, with retry count and artifact kept |
| Shutdown.RollbackIsIdempotent | cmd/serve.go:295-336 | Rolling back twice at whatever times is the same as once, for both tables |
| Pool.StepKeepsInv | internal/worker/worker.go:237-334 | Every statement of every submitter, worker and shutdown caller keeps the accounting invariant |
| Pool.EveryTaskAccounted | internal/worker/worker.go:268-289 | In every reachable state an accepted task is in exactly one of queue, a worker's hands, finished or passed over, and once; any other is nowhere; the totals, the queue bound and the counters agree |
| Pool.SendIsDecided | internal/worker/worker.go:268-289 | In every reachable state a call at the select is taken exactly when the channel is open with a slot free and turned down exactly when it is closed or full; a call just made is turned down exactly when the pool is shut down |
| Pool.FreeSlotsAreFilled | internal/worker/worker.go:281-284 | As many sends as there are free slots go through with no receive between them, all accepted and queued in order |
| Pool.QueueIsFirstInFirstOut | internal/worker/worker.go:237-250 | Tasks are received in the order in which they were sent |
| Pool.DrainedMeansRun | internal/worker/worker.go:321-334 | Once a shutdown returned without error every non-nil accepted task has run exactly once, a rejected one not at all, and nothing is queued or in hand, even when a send raced with the close |
| Pool.WorkGetsLess | internal/worker/worker.go:237-266 | Every worker step lessens the work left, and after the close no other step adds any, so a drain cannot go on for ever |
| Pool.DrainCanFinish | internal/worker/worker.go:237-266 | From every state with the channel closed the workers alone can bring the pool to all workers gone |
| Pool.ShutdownIsDecided | internal/worker/worker.go:321-334 | A shutdown call closes the channel exactly if it is the first, then waits; it returns nil only once all workers are gone, and may time out before |
| Pool.ShutdownCanFinish | internal/worker/worker.go:316-334 | From every reachable state a new shutdown call can run to its end with the channel closed and the pool drained, also while another call is in the middle of closing |
| Pool.FailuresAreCounted | internal/worker/worker.go:253-264 | Along any run the failure count is the number of tasks that panicked, and the tasks passed over are those handed over as nil |
| Pool.NoSendAfterDrain | internal/worker/worker.go:276-288 | After the drain every send still to come is turned down |
| Pool.NoDoubleClose | internal/worker/worker.go:322-325 | The channel is closed at most once, however many callers shut down |
| Converter.Converter.Prepare | internal/image/converter.go:104-117 | Reads or creates one row without changing any other; hands over a pointer only to the pending row of the key with its retry window over; errs only for a refused statement or a key blocked by a tombstone |
| Converter.Converter.PrepareAll | internal/image/converter.go:104-144 | The three blocks in order up to the first error: one pointer for each block that came through, each to the ready row of its key in the table then; without refused statements the error is at the first enabled format with a blocked key |
| Converter.Converter.SubmitPrepared | internal/image/converter.go:146-198 | With nothing ready nothing happens; with all three blocks read and the pool, the storage or the submission turning the task down, exactly what was read fails |
| Converter.Converter.FailPendingVariantsOnSubmitFailure | internal/image/converter.go:200-227 | Force-fails the rows that were pending when read, whatever they are now, and the image if there was one |
| Converter.Converter.Abort | internal/image/converter.go:200-227 | Exactly what was read fails, whatever made the call abort; when one of these very updates is refused, still no other row changes and a row read changes only to failed |
| Converter.Converter.TriggerConversion | internal/image/converter.go:61-198 | A submitted task gets exactly the ready rows and no row changes; an aborted call, a refused preparation included, has read exactly the blocks before the failing one, or all three, and fails what it read, and the image with it if there was anything, as far as the database accepts these updates; without refused statements it aborts exactly for a blocked key, a missing pool or storage, or a rejected submission |
| Converter.FailReadIsExact | internal/image/converter.go:200-210 | Exactly the rows behind the pointers are failed, all others as before |
| Converter.AbortIsExact | internal/image/converter.go:61-227 | After a call aborted for whatever reason, the failing updates themselves not being refused, exactly the rows that were ready in the blocks it read are failed, every other row is as it was, and the image is failed if and only if there was such a row |
| Converter.SubmittedExactlyWhenDue | internal/image/converter.go:259-267 | With nothing refused or blocked and the pool taking the task, a live row under an enabled key is submitted exactly when it is pending and has no retry window, or one that is over or to be ignored |
| Converter.NewRowIsSubmitted | internal/image/converter.go:104-144 | An enabled format without any row gets a new pending one, which is submitted |
| Converter.SentBackRowWaits | internal/image/converter.go:263-265 | A row the sweeper sent back for the first time is submitted by an ordinary trigger from five minutes later on and not before, unless it was claimed, failed or deleted meanwhile |
| Converter.SkippedAvifAborts | internal/image/converter.go:133-140 | Once an image's AVIF row is a tombstone, every later trigger with AVIF enabled aborts, in every later state of any run; with the other two keys free and no refused statement it fails exactly the ready thumbnail and WebP rows |
| TempFile.TempFileHandle.ReleaseRequestCleanup | internal/image/upload_source.go:26-31 | Moves the handle only if the request still owns the file |
| TempFile.TempFileHandle.CleanupIfRequestOwned | internal/image/upload_source.go:33-40 | Removes the file exactly if the request still owns it, so at most once and never after the release |
| TempFile.StagedFileDisposedOf | internal/worker/pipeline_task.go:200-209 | For every combination of failures and every interleaving of the four parties: when all are finished the staged file is gone, except exactly when the pipeline's stat failed on a file that was there |
| TempFile.FinishedMeansNothingToDo | internal/image/upload_source.go:26-40 | In every reachable state all parties are finished exactly when no step is left to take |
| TempFile.FileGoesOnRecord | internal/image/upload_source.go:33-40 | The staged file never comes back and goes only by being moved into place or by a recorded removal |
| TempFile.FailedStatLosesFile | internal/worker/pipeline_task.go:200-209 | A run in which that happens |
| TempFile.OnlyTheOwnerRemoves | internal/image/write_service.go:190-199 | Only the owner of the moment removes the file; once the pipeline task is accepted that is the pipeline for good |
| TempFile.PipelineIsFirstRemover | internal/image/converter.go:61-70 | While the pipeline is still to open the file or is using it, nobody has called remove |
| UploadParse.CleanUp | api/handler/images/upload_handler.go:200-207 | Disposes of exactly the files the request still owns |
| UploadParse.WritePartToTempFile | api/handler/images/upload_handler.go:302-342 | Leaves a file exactly if nothing failed and the part is within the limit, reading one byte past it at most |
| UploadParse.StageFile | api/handler/images/upload_handler.go:254-285 | One upload part is staged, or everything staged so far is given up |
| UploadParse.AllFit | api/handler/images/upload_handler.go:220-286 | Parts that fit one after the other are the same as an acceptable request |
| UploadParse.MisfitSpoilsAll | api/handler/images/upload_handler.go:220-286 | One part that does not fit makes the whole request unacceptable |
| UploadParse.ParseMultipartUploadRequest | api/handler/images/upload_handler.go:184-289 | Accepts exactly the requests with sound parts, at most ten files and sizes within both limits; a rejected one leaves no staged file and is answered for its first misfit; an accepted one leaves one new file per upload, owned by the request, sizes in order |
| Originals.NoDanglingOriginal | internal/image/delete_service.go:45-70 | In every run of uploads and deletions with whatever failures no live image lacks its original file, if and only if no two different hashes share their first twelve digits |
| Originals.CollisionDangles | internal/image/write_service.go:338-342 | A metadata failure after a prefix collision deletes the other image's file |
| Originals.RunIsSafe | internal/image/delete_service.go:81-111 | The invariant behind it in every reachable state: paths and identifiers carry the hash prefix, and no live image dangles |
| Originals.RestoreNeverSucceeds | internal/image/write_service.go:280-288 | Restoring a soft-deleted record updates only records that are not deleted, so without prefix collisions no upload in any run ends in that branch |
| Originals.ExpectedIsExact | internal/image/write_service.go:240-343 | How an upload without failures ends is read off the records: rejected if and only if no live record has the hash and the first deleted one is the user's own, reusable and without a live record under its identifier; stored, linked and existing likewise |
| Originals.OwnDeletedFileTurnsAway | internal/image/write_service.go:262-288 | Without prefix collisions, in every reachable state: rejected if and only if no live record has the hash and the first deleted one is the user's own and still has its file |
| Originals.RefusedAfterFailedRemoval | internal/image/delete_service.go:62-68 | Such a state is reached by a delete whose file removal fails |
| Originals.UploaderHasTheImage | internal/image/write_service.go:414-430 | After an upload that ends existing, linked or stored the uploader has a live record with the hash; a linked one has the source's path and configuration; every earlier record stays as it was |
| Originals.ImageLibrary.LinkTo | internal/image/write_service.go:413-436 | The new record is the uploader's and has path, configuration and hash of the source, or nothing changes |
| Originals.ImageLibrary.CanReuseSoftDeletedImage | internal/image/write_service.go:369-392 | Reusable exactly if a live record has the path or the file is there |
| Originals.ImageLibrary.StoreNew | internal/image/write_service.go:309-343 | Saves the file, then the record; a failed record is compensated by deleting the file, and unless that fails too the file is gone |
| Originals.ImageLibrary.UseLive | internal/image/write_service.go:245-260 | The first live record with the hash is returned to its owner or linked for another user; rejected exactly by a fault |
| Originals.ImageLibrary.UseDeleted | internal/image/write_service.go:270-296 | A reusable deleted record is linked for another user; for its owner the restore is tried, and without faults that is rejected exactly when no live record has the identifier |
| Originals.ImageLibrary.UploadUnheld | internal/image/write_service.go:262-343 | For a hash nobody holds live: the first deleted record with it is used exactly if it is reusable, otherwise the file is stored |
| Originals.ImageLibrary.ProcessAndSaveImage | internal/image/write_service.go:240-343 | Every branch is one allowed upload step; without faults the records decide which, and it is rejected, changing nothing, if and only if the restore finds nothing; the new record is the uploader's |
| Originals.ImageLibrary.Restore | database/repo/images/images_repository.go:222-234 | Returns the first record under the identifier that is not deleted, and fails exactly when there is none |
| Originals.ImageLibrary.RemoveOriginal | internal/image/delete_service.go:56-70 | Removes the file only if no live record has its path |
| Originals.DeletionWrittenOut | internal/image/delete_service.go:76-118 | Which records a deletion takes and which files: the user's own live records under the identifiers, and the file of such a record exactly if no live record has its path |
| Originals.ImageLibrary.DeleteBatch | internal/image/delete_service.go:76-118 | Deletes the user's own records under the identifiers together, and no other; without faults exactly the orphaned files go, also when deleted records share a path |
| Originals.ImageLibrary.DeleteSingle | internal/image/delete_service.go:32-74 | Deletes only after the owner check; every outcome is an allowed deletion step; without faults it goes through if and only if the first live record of the identifier is the user's, and when the records of the identifier share one file exactly the orphaned file goes |
| Originals.IdentifierHasOneFile | internal/image/delete_service.go:53-70 | Without prefix collisions the live records of one identifier share one file in every reachable state, so looking only at the first deleted record leaves no orphan |
| Originals.RunKeepsShared | internal/image/write_service.go:413-436 | In every reachable state the live records of one hash share one file, collisions or not |
| RateLimiter.EvictionIsUnobservable | api/middleware/ratelimit.go:96-166 | For any hash, sizes and interleaving of lookups, shard evictions and cleanups in which the clock does not run backwards under any one shard's lock, every lookup gets the limiter the never-evicting map gives, fresh at exactly the same lookups |
| RateLimiter.EntriesStayInTheirShard | api/middleware/ratelimit.go:90-95 | At the end of every run an address has an entry only in the shard of its hash, and it is the entry of the never-evicting map |
| RateLimiter.OverlapIsAllowed | api/middleware/ratelimit.go:101-102 | Two lookups in different shards may overlap in any way; in one shard the second begins after the first has ended |
| RateLimiter.GetAnswers | api/middleware/ratelimit.go:104-126 | One lookup agrees with the reference about hit and limiter |
| RateLimiter.BackwardClockIsObservable | api/middleware/ratelimit.go:106 | What a clock running backwards would break |
| RateLimiter.IPRateLimiter.EvictExpired | api/middleware/ratelimit.go:129-137 | Removes exactly the expired entries of one shard |
| RateLimiter.IPRateLimiter.CreateClient | api/middleware/ratelimit.go:115-126 | Sweeps the shard only when it is full and puts a fresh client in |
| RateLimiter.IPRateLimiter.GetClientLimiter | api/middleware/ratelimit.go:96-127 | The new state and the client are those of the lookup step, in the shard of the hash only |
| RateLimiter.IPRateLimiter.CleanShard | api/middleware/ratelimit.go:157-165 | The new state is that of the cleanup step |
| Paths.OriginalRoundTrip | utils/generator/path_generator.go:26-34 | Hash and date read from an original's path are the ones printed into it |
| Paths.ThumbnailRoundTrip | utils/generator/path_generator.go:37-46 | The same for a thumbnail derived from an original, for every 64-bit width |
| Paths.ThumbnailIsStable | utils/generator/path_generator.go:78-100 | Deriving a thumbnail from a thumbnail is the same as deriving it from the original |
| Paths.KindRecovered | utils/generator/path_generator.go:103-121 | The kind, and the format of a converted file, are read back from the path |
| Paths.PathsAreInjective | utils/generator/path_generator.go:32-74 | Two stored files share a path exactly when kind, width or format, date and hash agree; the two names of JPEG XL are one format |
| Paths.PathHasSegments | utils/generator/path_generator.go:26-74 | The directories, dates and file names every stored path is made of, written out for originals, thumbnails and each converted format |
| Paths.IdentifiersPrinted | utils/generator/path_generator.go:26-46 | The identifiers are the first twelve digits of the hash, and for a thumbnail its width behind them |
| Paths.FolderTellsFormat | utils/generator/path_generator.go:114-117 | Even the bare folder of a converted format is recognised |
| Paths.ConvertedDateIsShifted | utils/generator/path_generator.go:93-100 | From a converted path the code reads format, year and month as the date; it is the right date only when all of them coincide |
| RandomSelect.RandomUint | database/repo/images/images_repository.go:482-493 | The target lies within the bounds, fails only with the random source, and tells which number was drawn, so every target is hit by exactly one draw |
| RandomSelect.GetRandomPublicImage | database/repo/images/images_repository.go:400-480 | Not found exactly when nothing matches and the query succeeds; fails exactly when a query or the random source does; otherwise the least matching id from the drawn target on, and the query below the target is never asked; what is found is public, not deleted and within the filter, and not found means that every picture is ruled out |
| RandomSelect.MatchingIsNotRuledOut | database/repo/images/images_repository.go:400-430 | An image takes part exactly if no filter rules it out: not public, deleted, outside the album, too small, too large, or not completed |
| RandomSelect.EveryTargetSelects | database/repo/images/images_repository.go:448-473 | Every target between the bounds selects exactly one id |
| RandomSelect.DrawsSelecting | database/repo/images/images_repository.go:482-493 | As many draws lead to an id as its distance from its predecessor, and one to the least |
| RandomSelect.TimesSelected | database/repo/images/images_repository.go:466-473 | Each id is selected by as many targets as its distance from its predecessor, the least by one |
| RandomSelect.TimesAddUp | database/repo/images/images_repository.go:482-493 | Over all ids these numbers add up to the number of targets |
| Restore.ChunksAreTheRecords | cmd/restore.go:334-342 | The batches put together are the parsed records in order, none over the limit and all but the last full |
| Restore.RestoreConserves | cmd/restore.go:316-466 | For any lines, batch size and pattern of failing inserts every non-blank line is counted once as restored or as an error, and no other table's counters move |
| Restore.RoundsMeet | cmd/restore.go:316-343 | Reading line by line into a bounded batch, flushed when full and once at the end, meets the specification whichever inserts fail |
| Restore.Restorer.InsertBatch | cmd/restore.go:423-439 | Counts the whole batch as restored or as errors; a dry run inserts nothing |
| Restore.Restorer.InsertInLine | cmd/restore.go:365-375 | The same where it is written out in line |
| Restore.Restorer.RestoreBatch | cmd/restore.go:316-343 | Meets the one specification despite reusing the buffer |
| Restore.Restorer.RestoreAlbumImagesBatch | cmd/restore.go:393-420 | Meets the same specification for its own table |
| Restore.Restorer.RestoreBatchWithCleanup | cmd/restore.go:346-390 | Meets the same specification, with every record cleaned first |

## Left out

- LeaseSafety: touches on time always succeed, and one process runs at a time; a refused or late touch, and several processes on one database, are not modelled. Its runs contain only shutdown rollbacks that spare held rows; `RollbackKeepsLease` says what the others do. Pool and lease are step systems over values, because the interleaving of single statements is what they are about.
- Execute: a second party writing the claimed rows during the run is not in its contract (the lease excludes it); the heartbeat's later touches run in another goroutine and are in `Lease` and `Tracking`. A panic inside a database call is taken to come instead of the statement, and one inside a statement that acts on a generator's verdict, or on a failed fetch or load, counts as a panic of that generator, fetch or load. One in the cache deletion after a failed run is no case of its own: it fails what has failed already.
- UpdateFailed: error messages are kept only as far as the code fixes them; `TriggerConversion` uses one reason text for all aborts.
- StagedFileDisposedOf: removing a file is taken to succeed, and a job accepted by a pool that never runs it (process exit) leaves the claim open.
- ParseMultipartUploadRequest: values of form fields and file names are not modelled, nor overflow of a megabyte setting beyond 64 bits.
- NoDanglingOriginal: uploads and deletions are atomic steps and the storage configurations keep their providers; races between them are not modelled. Only presence of a file is claimed, not its contents.
- EvictionIsUnobservable: the token bucket itself is a name; the limiter object decides the rest.
- GetRandomPublicImage: the random source is a function of the width it is asked for; a row deleted between the queries is not modelled.
- RestoreBatch: a failing insert inserts nothing; records ignored on conflict count as restored, as in the code.
- Variant files under deduplication: deduplicated records share their path, so their variant paths coincide and are not reference-counted; nothing is claimed about them.
- Uniqueness of image identifiers: the user suffix is cut off with everything after the twelfth character.
- The loop of `UploadBatchSources` over files and its result slice: each file is one run of the temp-file protocol.
- The semaphore's channel and the memory readings of `Submit`: taking a slot and being rejected are nondeterministic.
- Image codecs, complexity detection, adaptive quality and the AVIF size test: generators are nondeterministic.
- HTTP handlers, routing, authentication, caching, the storage registry, S3 and WebDAV clients, configuration, dashboard and logging.
- GORM and SQL: each statement is one atomic update with its guard. The unique index on file hash and deletion time may refuse a statement like any other fault.
