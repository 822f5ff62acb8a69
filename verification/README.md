# Verified models of the job queue and the books code

A Dafny project (`dafny verify dfyconfig.toml`) that models the hardest parts of the
repository and proves what they promise.

* **The job queue** (`internal/jobs`). `Rows` gives every SQL statement of the store as a function
  on rows, `Store` is the store as an object with those statements as methods, with `execute` and
  the scheduler's fire pass on top, and `Worker` is the claim loop of a single worker over it.
  `Executed` shows that `execute` takes the steps of `Protocol`, which interleaves the same row
  functions: any number of worker slots on any number of pods claim, start, lose slot races,
  heartbeat, record and vanish, while a reaper, admins and straggling heartbeats act at any moment.
  Over every run of it, `Fencing` shows that the `locked_by` guard is as good as a fencing token,
  that attempts are conserved and that terminal states absorb and agree with the notifications;
  `Beats` says when a heartbeat is fenced as well; `Lease` shows mutual exclusion; `RowShape` what
  the columns of a row say together; `Gauges` relates the queue-depth gauge to the reaper;
  `Schedules` and `Coalescing` cover periodic work on many replicas. `Limiter` holds the two
  concurrency limiters. `Fleet` puts the shared one in front of the queue (cap across all pods), and
  `FleetLimits` shows what its two presumptions are for, cap by cap. `Drain`, `DrainComplete`,
  `DrainBound` and `DrainCap` put the in-process one in front of it (a drain leaves nothing behind,
  ends, and keeps within its caps).
* **Chapters** (`internal/books/liberate/chapters.go`). `Chapters` walks, sorts, repairs and filters,
  `ChapterForm` proves the normal form, and `FFMetadata` prints the document and reads it back with
  an independent parser written from the "Metadata" section of the FFmpeg Formats Documentation.
* **Smaller loops.** `Dedup` (which duplicate reads to delete), `Monitor` (the reading monitor's
  poll set and change stream), `LogSink` (the job-log blob under truncation), `Downsample` (evenly
  spread blocks of rows). `StableSort`, `Decimal`, `Int64`, `Attempts` and `Basics` are shared
  definitions.

## Assumptions

* Worker-slot ids are unique. `Routing.WorkerIdsUnique` proves it for pods whose host names differ
  and hold no `#`.
* One clock, in milliseconds, that never goes back. The shared limiter's stamps and its cutoff are
  whole seconds of that clock.
* Each SQL statement, limiter script or locked section is one atomic step. Row locks that another
  transaction holds (`SKIP LOCKED`) are not modelled, so a claim always sees the oldest due row.
* Concurrency caps are constant. Limiter errors, on which the code runs the job unthrottled, are
  part of `Worker.RunJob` and moves of `Fleet`; the in-process limiter of `Drain` has none. Store
  errors are steps of `Protocol` and excluded from `Drain`.
* The shared cap of a kind holds, for all runs that the limiter answered, while no outstanding hold
  of the kind is old enough to be pruned and, if the cap is above one, no admitted acquisition of
  the kind uses a member name that is still outstanding. `FleetLimits.GapSufficesExactly` says which
  refresh gaps ensure the first, `FleetLimits.NamesMatterExactly` which caps need the second, and
  `Fleet.AcquireKeepsExactly` and `FleetLimits.CollisionsAreUnreleased` what it means.
* `LogSink` takes the JSON codec as two functions, and assumes of them what `LogSink.Codec` says.
* `Dedup` identifies a formatted UTC date with its day number.

## Where the code does less than one might expect

* A heartbeat left over from an earlier claim of the same job by the same slot is not fenced off
  (`Beats.StrayBeatCrossesEpochs`). It strays exactly when the slot has claimed the job again since
  (`Beats.StrayBeatStaysWithSlot`).
* Re-stamping a hold before the TTL is over is not enough: stamps and cutoff lose their fractions,
  so in the last second of the TTL a live hold can be pruned (`FleetLimits.LateSecondBreaksCap`).
* `execute` announces a result it could not store, and announces a failure for a kind without a
  handler whether or not its write matched (`Fencing.UnstoredResultAnnounced`,
  `Fencing.CancelledAnnouncedAsFailed`). `Fencing.RecordAgreesExactly` and
  `Fencing.NoHandlerAgreesExactly` say exactly when row and announcement still agree.
* With no lease configured the gauge waits two minutes while the reaper waits one second
  (`Gauges.ReapedIsCountedStale`).
* Two fire passes that overlap on a kind can both enqueue (`Coalescing.OverlapStacks`), and so can
  one whose check fails while a row is pending; nothing else stacks rows
  (`Coalescing.DisciplineIsExact`).
* A holder's name is its pod and job, so a job that comes back to its pod before its last slot is
  released shares the name, if there is room for one more, and the release then frees both
  (`FleetLimits.CollisionBreaksCap`). At a cap of one there is no room, and no name can meet
  (`FleetLimits.NamesMatterExactly`).
* A worker with an empty offload list claims every kind (`Routing.RolesSplitKinds`).
* The last chapter mark is lost when its nominal second wraps around (`ChapterForm.StartsSurvive`).
* Downsampling to one or two rows divides by zero (`Downsample.Downsample`).

## Model

| member | source | states |
|---|---|---|
| Store.JobStore.Enqueue | internal/jobs/store.go:26-43 | a fresh id; every column of the new row: queued, unclaimed, no attempt used, a budget of at least one; every other row is unchanged |
| Store.JobStore.ClaimNext | internal/jobs/store.go:53-85 | claims a row that is queued, due and routed with the smallest due time among all such rows, charges an attempt, stamps the claim and changes no other column; fails only if there is none |
| Store.JobStore.ClaimByID | internal/jobs/store.go:89-106 | succeeds exactly on a queued row, due or not, with the same stamps |
| Store.JobStore.Requeue | internal/jobs/store.go:139-148 | exactly for the holder of a running row gives the attempt back and clears the claim, due time and all else kept; reports whether the table changed |
| Store.JobStore.Complete | internal/jobs/store.go:154-162 | exactly for the holder of a running row: done, finished now, error cleared, all else kept; reports whether the table changed |
| Store.JobStore.Fail | internal/jobs/store.go:170-190 | exactly for the holder of a running row: queued for the retry time or, without one, failed and finished now, the error stored, all else kept; reports whether the table changed |
| Store.JobStore.MarkCancelled | internal/jobs/store.go:203-212 | cancels exactly a queued or running row, finished now, and releases its claim; all else kept |
| Store.JobStore.Heartbeat | internal/jobs/store.go:222-227 | stamps the heartbeat of a running row for its holder and changes nothing else, and no reaper of any lease takes the row at that instant |
| Store.JobStore.ReapStaleRunning | internal/jobs/store.go:242-266 | takes exactly the running rows whose last sign of life is older than the lease, requeues or fails each by the attempts left, counts them, and leaves none lapsed, so a second sweep finds nothing |
| Store.JobStore.HasPendingKind | internal/jobs/store.go:523-532 | true exactly when some row of the kind is queued or running |
| Store.JobStore.UpsertSchedule | internal/jobs/store.go:282-298 | stores whole seconds, one for anything shorter; the next run is at most one interval away and never later than before; other kinds are untouched |
| Store.JobStore.ClaimDueSchedules | internal/jobs/store.go:303-323 | returns exactly the due kinds, each once; each keeps its interval and is due again one interval from now, and the others are unchanged |
| Store.Execute | internal/jobs/exec.go:74-190 | for every combination of handler, cancellation, result, attempts left, lost claim and store error, what becomes of the row's status, error, due time and finish, what is announced and returned; a landed write that announces leaves the announced status |
| Executed.NoHandlerIsAStep | internal/jobs/exec.go:94-101 | for a kind without a handler, execute writes and announces what the step of the queue machine does, so what holds of every run of the machine holds of it |
| Executed.ResultIsAStep | internal/jobs/exec.go:125-189 | the same for every returned handler, cancelled or not, stored or not |
| Store.Told | internal/jobs/exec.go:125-190 | a retry is returned exactly for an uncancelled failure with attempts left whose write was not refused, done exactly for such a success |
| Store.RetryDelayBounds | internal/jobs/exec.go:60-66 | the backoff is half a minute for each attempt up to the twentieth, then ten minutes |
| Store.Fire | internal/jobs/scheduler.go:50-74 | an undisturbed pass changes no existing row and adds exactly one unclaimed row, due now with three attempts, for each due kind that had none pending |
| Worker.RunJob | internal/jobs/local.go:148-193 | handles the job, with the announcements and outcome of execute, unless its kind is at the cap and the limiter answered, in which case the attempt is refunded; either way every acquisition is released |
| Worker.DrainLoop | internal/jobs/local.go:311-330 | a lone worker's loop ends for any handler answers and clock; every claim ran and used one attempt; each changed row is done, failed or due again as the answer to its last attempt, the handler's presence and the attempts left have it, with the times of that run; nothing claimable is left outside saturated kinds |
| Routing.WorkerIdsUnique | internal/jobs/local.go:72-81 | slot ids differ within a pod and across pods |
| Routing.RolesSplitKinds | internal/jobs/jobs.go:263-289 | worker and server roles claim complementary kinds if and only if some kind is offloaded |
| Routing.RoleKinds | internal/jobs/jobs.go:263-289 | an override holds for every role; without one a worker admits the offloaded kinds, a server the others, any other role all |
| Schedules.FiringsAreSpaced | internal/jobs/store.go:268-323 | consecutive firings are at least the smallest interval apart that was in force since the earlier one, for any replicas registering and ticking |
| Schedules.FiresOnce | internal/jobs/store.go:300-323 | however many replicas tick, a kind does not fire twice within a second |
| Schedules.FiresExactly | internal/jobs/store.go:268-323 | since a kind last fired or was first registered, a pass fires it if and only if its time has come: one interval after that, or after a later registration if that is sooner |
| Schedules.FiresAgain | internal/jobs/store.go:300-323 | so a pass one interval in force after a firing finds that the kind has fired again, or fires it |
| Schedules.RegisteringPullsIn | internal/jobs/store.go:268-298 | registering again never moves the next run later and touches no other kind |
| Schedules.StoredIsInForce | internal/jobs/store.go:282-298 | the stored interval is always that of the last registration, in whole seconds and at least one |
| Protocol.StepRow | internal/jobs/store.go:108-266 | all that any step can do to a row: nothing, a claim, a guarded write by the owner, an owner's heartbeat, a cancel, or a reap |
| Protocol.StepSlot | internal/jobs/local.go:148-193 | the edges of the slot machine |
| Protocol.InvStep | internal/jobs/store.go:53-266 | every step keeps the accounting of attempts and the tie between slots and rows |
| Protocol.InvRun | internal/jobs/local.go:311-388 | and so does every run |
| RowShape.ReachableRowsShaped | internal/jobs/store.go:53-266 | in every reachable state a queued row is unclaimed and unfinished, a running row is held by a slot since one instant, a done or failed row names its last claimer, a cancelled row none |
| RowShape.WriteIs | internal/jobs/store.go:139-190 | a slot's write leaves each row as it was or turns a running row into one of the four written forms |
| Fencing.GuardIsFence | internal/jobs/store.go:108-190 | in every reachable state a guarded write changes the table if and only if the row is still running under the writer's own claim epoch, and then that row alone |
| Fencing.AttemptConservation | internal/jobs/store.go:53-266 | attempts equal claims less refunds, handler starts never exceed attempts, attempts never exceed the budget, a queued row has one left |
| Fencing.RefundNeverClips | internal/jobs/store.go:125-148 | the refund of a requeue is always one whole attempt |
| Fencing.TerminalAbsorbs | internal/jobs/store.go:154-266 | a done, failed or cancelled row never changes again |
| Fencing.NotificationsAgree | internal/jobs/exec.go:105-189 | if no result of the job to announce fails to be stored and no Fail of a missing handler misses its row, whatever happens to other jobs, the job gets at most one terminal notification, and it names the row's final status |
| Fencing.RecordAgreesExactly | internal/jobs/exec.go:142-189 | exactly when recording a result keeps row and announcement of the job in agreement, store errors included |
| Fencing.NoHandlerAgreesExactly | internal/jobs/exec.go:94-101 | the same for a kind without a handler |
| Fencing.UnstoredResultAnnounced | internal/jobs/exec.go:147-160 | a run that ends with done announced of a row that is still running |
| Fencing.CancelledAnnouncedAsFailed | internal/jobs/exec.go:94-101 | a run that ends with failed announced of a row that an admin cancelled |
| Lease.LeaseExclusion | internal/jobs/store.go:222-266 | if every live run of a job beats within the lease, late as others may be, no two live runs of it overlap and the reaper takes no live run's row |
| Lease.LapseLetsRunsOverlap | internal/jobs/store.go:242-266 | with an attempt left and an idle slot, a reaper makes way for a second live run of a job exactly when the row of the first has lapsed |
| Beats.StrayBeatStaysWithSlot | internal/jobs/exec.go:29-57 | for every reachable state and every claim made on the way: a beat of that claim touches no other row or column, and lands outside its fence if and only if the slot holds the row under another claim, that is, has claimed the job again |
| Beats.BeatsAreFenced | internal/jobs/exec.go:29-57 | if no slot claims a job again while a beat of its earlier claim is outstanding, every heartbeat for the job that changes the table finds its row running under its own claim |
| Beats.OwnerClaimedLast | internal/jobs/store.go:53-85 | in every run a running row was last claimed by the slot it names |
| Beats.StrayBeatCrossesEpochs | internal/jobs/exec.go:37-57 | a reachable state in which such a beat keeps the reaper off the slot's later claim |
| Gauges.QueueDepth | internal/jobs/metrics.go:50-100 | one sample for exactly the kinds with a pending row, each with the four filtered counts and the age of the oldest due row |
| Gauges.GaugesPartition | internal/jobs/metrics.go:50-100 | in every reachable state the four counts add up to the queued and running rows of the kind |
| Gauges.CountedExactly | internal/jobs/metrics.go:50-70 | which rows each level counts, by due time or by the age of the last sign of life, two minutes standing in for a missing lease |
| Gauges.ReapedOneInstantLater | internal/jobs/metrics.go:50-70 | for a lease of a second or more, gauge and reaper differ in the one instant at which the lease runs out |
| Gauges.ReapedIsCountedStale | internal/jobs/metrics.go:50-70 | every row the reaper would take is counted stale if and only if a positive lease is configured |
| Coalescing.PeriodicCoalesces | internal/jobs/scheduler.go:50-74 | if passes over a kind do not overlap and no check of it fails while a periodic row is pending, at most one periodic row of the kind is pending, kept by every step of any schedulers and the whole queue, whatever happens to other kinds |
| Coalescing.CoalescedFromStart | internal/jobs/scheduler.go:50-74 | so it holds after every such run |
| Coalescing.DisciplineIsExact | internal/jobs/scheduler.go:50-74 | kind by kind and move by move, rows can never stack afterwards if and only if the move satisfies that condition |
| Coalescing.OverlapCanStack | internal/jobs/scheduler.go:50-74 | from any state in which a pass begins while another one over a due kind is outstanding, some continuation stacks two rows |
| Coalescing.OverlapStacks | internal/jobs/scheduler.go:56-70 | a run in which overlapping passes stack two rows |
| Limiter.MemLimiter.Acquire | internal/jobs/limiter.go:196-217 | refused exactly at the cap; otherwise one more unreleased acquisition, never above the cap, other kinds unchanged |
| Limiter.MemLimiter.Release | internal/jobs/limiter.go:206-214 | frees its acquisition once and does nothing after, and the positive-count guard never matters |
| Limiter.MemLimiter.Excluded | internal/jobs/limiter.go:224-240 | lists exactly the limited kinds whose next Acquire would be refused |
| Limiter.HeldAfterAcquire | internal/jobs/limiter.go:200-205 | the counter still is the size of the set of unreleased acquisitions after one more |
| Limiter.HeldAfterRelease | internal/jobs/limiter.go:206-214 | and after the first call of a release function, when it was positive |
| Limiter.RedisLimiter.Acquire | internal/jobs/limiter.go:84-126 | prunes, then adds the holder exactly if there is room; other kinds unchanged |
| Limiter.RedisLimiter.Refresh | internal/jobs/limiter.go:128-137 | re-stamps a present holder, never adds one |
| Limiter.RedisLimiter.Release | internal/jobs/limiter.go:119-124 | removes the holder and nothing else |
| Limiter.RedisLimiter.Excluded | internal/jobs/limiter.go:139-181 | lists exactly the limited kinds an Acquire at that instant would refuse, and only prunes |
| Fleet.FleetCap | internal/jobs/local.go:148-189 | if no hold of the kind gets old enough to be pruned and, at a cap above one, no admitted acquisition of it meets an outstanding name, the live runs of the kind that the limiter answered never exceed its cap across all pods |
| Fleet.FleetCapByRefreshing | internal/jobs/local.go:110-146 | the same if every gap between stamps leaves a whole second of the TTL |
| FleetLimits.GapSufficesExactly | internal/jobs/limiter.go:84-137 | for every cap, a refresh gap suffices in every run if and only if it leaves a whole second of the TTL, since stamps and cutoff are truncated to seconds |
| FleetLimits.LateSecondBreaksCap | internal/jobs/limiter.go:103-137 | for every cap and every longer gap, a run from the start with distinct names in which one job more than the cap goes on |
| Fleet.StepKeeps | internal/jobs/limiter.go:84-181 | every step of queue and limiter keeps the invariant behind the cap of a kind, given fresh holds of that kind and, at a cap above one, distinct names of it |
| Fleet.TiedStep | internal/jobs/local.go:148-193 | with no presumption at all: sets stay within their caps, answered runners hold, and a hold is for its slot's job |
| Fleet.CapOneIsDistinct | internal/jobs/limiter.go:92-101 | at a cap of one an admitted acquisition never meets an outstanding name |
| Fleet.PruningKeepsExactly | internal/jobs/limiter.go:139-181 | reading the saturated kinds keeps the invariant of a kind if and only if every outstanding hold of it is spared |
| Fleet.AcquireKeepsExactly | internal/jobs/limiter.go:92-126 | an admitted acquisition keeps the invariant if and only if no outstanding hold of the kind bears its name |
| Fleet.CrashedStopCounting | internal/jobs/limiter.go:92-126 | once the stamps of crashed holders, also those that crashed after recording, are a TTL old, the kind is full exactly when as many slots as the cap hold it |
| Fleet.ReleasedStaysReleased | internal/jobs/limiter.go:128-137 | no refresh brings a released member back |
| FleetLimits.CollisionsAreUnreleased | internal/jobs/local.go:173-187 | in every run whose beats for a job are in time, its name can be met only where an earlier run of the job has returned but not released |
| FleetLimits.CollisionBreaksCap | internal/jobs/local.go:153-187 | at every cap above one, for any slots two of which share a pod: a run from the start, all stamps fresh, in which a name is met and one job more than the cap goes on |
| FleetLimits.NamesMatterExactly | internal/jobs/limiter.go:84-126 | the cap of a kind holds in all runs with fresh stamps, whatever names meet, if and only if it is one |
| Drain.FitsStep | internal/jobs/local.go:148-193 | program counters, slots and acquisitions stay in step |
| DrainComplete.DrainLeavesNothing | internal/jobs/local.go:277-330 | when every slot has exited, every job due at the start, with or without a handler for its kind, is terminal unless it was queued again by a failed or reaped run |
| DrainComplete.HopeStep | internal/jobs/local.go:96-108 | despite stale lists some slot can still claim the kind, until one finds nothing of it |
| DrainBound.DrainBounds | internal/jobs/local.go:148-193 | lost races are at most workers less one times acquisitions, acquisitions at most the attempts left at the start, claims at most workers times those |
| DrainBound.DrainTerminates | internal/jobs/local.go:311-330 | the slots make boundedly many moves in any interleaving |
| DrainBound.AlwaysAMove | internal/jobs/local.go:311-330 | a slot that has not exited always has a move of its own, whether or not its job has a handler |
| DrainBound.PaidStep | internal/jobs/limiter.go:196-240 | a slot loses a race only after another slot acquired since it read the saturated kinds |
| DrainCap.DrainKeepsCap | internal/jobs/limiter.go:196-240 | in every drain, in any interleaving, no more handlers of a limited kind run at once than its cap |
| StableSort.SortSorts | internal/books/liberate/chapters.go:101-101 | sorting orders by key and keeps equal keys in their old order |
| StableSort.StablySortedIsUnique | internal/books/liberate/chapters.go:101-101 | so there is one possible result |
| Chapters.FlattenChapters | internal/books/liberate/chapters.go:62-129 | the in-place code computes the walk, stable sort, repair and filter in that order |
| Chapters.RepairInPlace | internal/books/liberate/chapters.go:103-118 | each mark but the last ends where the next starts; the last at the runtime if that lies behind its start, else at its own end if that does, else a second on; nothing else changes |
| Chapters.FilterInPlace | internal/books/liberate/chapters.go:120-128 | moving marks to the front over the same array keeps exactly the nondegenerate ones, in order |
| Chapters.WalkMarksLeaves | internal/books/liberate/chapters.go:62-95 | one mark per leaf in tree order, titled by the nonempty trimmed titles on its path or its number |
| Chapters.TitleBelow | internal/books/liberate/chapters.go:66-95 | how a title continues those above it: appended behind a raised dot, or alone, or nothing for a blank one, and a number from one when all are blank |
| Chapters.TrimSpaceIs | internal/books/liberate/chapters.go:66-95 | trimming takes exactly the white space at both ends |
| ChapterForm.FlattenedForm | internal/books/liberate/chapters.go:54-129 | starts strictly increase, each end is the next start, and each mark is titled as the last leaf at its start |
| ChapterForm.StartsSurvive | internal/books/liberate/chapters.go:103-128 | which starts have a mark: all but perhaps the greatest, and that one exactly when the last leaf can end in int64 arithmetic |
| ChapterForm.AllStartsSurvive | internal/books/liberate/chapters.go:103-128 | the marks start exactly where leaves do if and only if the last leaf can end, and then there is a mark |
| ChapterForm.LastMarkEnds | internal/books/liberate/chapters.go:103-118 | the last mark of the result starts with the final leaf and ends at the declared runtime, at the leaf's end, or a second on, in that order |
| ChapterForm.LastMarkCanVanish | internal/books/liberate/chapters.go:111-117 | a one-chapter tree with no mark at all |
| FFMetadata.BuildFFMetadata | internal/books/liberate/chapters.go:30-52 | the loop prints the document of the flattened chapters, which is empty exactly when there is none |
| FFMetadata.UnescapeEscape | internal/books/liberate/chapters.go:131-144 | unescaping an escaped title gives it back with line breaks turned into spaces |
| FFMetadata.EscapeGuards | internal/books/liberate/chapters.go:131-144 | every special character and no other stands behind a backslash, and no line break is left |
| FFMetadata.PrintedLines | internal/books/liberate/chapters.go:37-52 | the printed lines: the header, then six literal ones for each mark |
| FFMetadata.DocumentRoundTrip | internal/books/liberate/chapters.go:37-52 | parsing the document of any chapter list gives exactly its times and titles |
| FFMetadata.PrintedTreeReadsBack | internal/books/liberate/chapters.go:37-144 | from any tree with a mark, a reader of the document sees gap-free millisecond marks, each with one nonempty title from the last leaf at its start, the last ending at the declared runtime if that lies behind the final leaf's start |
| Dedup.ReadsToDelete | internal/books/dedup_reads.go:188-233 | with distinct ids returns exactly the ids that do not stay by the keep-policy, each once |
| Dedup.CollapseDated | internal/books/dedup_reads.go:205-220 | the scan keeps the lowest id of each pair of days and lists every other one once |
| Dedup.AllButLowest | internal/books/dedup_reads.go:221-231 | lists every id but the lowest once |
| Dedup.KeepPolicy | internal/books/dedup_reads.go:184-187 | what stays is the lowest id among the reads that start and finish on the same UTC days, or the single lowest id without a dated read |
| Dedup.KeyOfIs | internal/books/dedup_reads.go:235-244 | two reads have one key exactly when both dates lie in the same UTC day or are both missing |
| Dedup.OrderDoesNotMatter | internal/books/dedup_reads.go:184-233 | the deleted set does not depend on the order of the reads |
| Dedup.DeletedHaveAKeeper | internal/books/dedup_reads.go:184-187 | every deleted read is beaten by one that stays |
| Dedup.SecondPassDeletesNothing | internal/books/dedup_reads.go:184-233 | something stays, and a second pass deletes nothing |
| Dedup.CollectDeletes | internal/books/dedup_reads.go:125-141 | over all books, exactly the ids some book deletes, each once; skipped books lose nothing |
| Dedup.SendChunks | internal/books/dedup_reads.go:157-174 | full chunks partition the list in order, up to the end or to the first refused request |
| Monitor.SortBySyncedDesc | internal/books/admin/monitor.go:276-284 | the in-place insertion sort is the stable sort, most recently synced first |
| Monitor.InsertLast | internal/books/admin/monitor.go:280-282 | the swaps insert one element and move nothing behind it |
| Monitor.ListInProgressKindle | internal/books/admin/monitor.go:166-184 | a prefix, cut at the limit, of the sorted books with an ASIN that the curated status, else the derived one, calls in progress |
| Monitor.PollSetIsMostRecent | internal/books/admin/monitor.go:151-184 | any stable sort gives the same poll set; its books are in progress and none left out is more recent |
| Monitor.ReadingMonitor.Handle | internal/books/admin/monitor.go:223-251 | one answer adds its frame and remembers the position, or the sink gives out at that frame |
| Monitor.ReadingMonitor.PollOnce | internal/books/admin/monitor.go:207-254 | one poll sends its frames as far as the sink takes them and succeeds exactly if it is neither cancelled nor cut short |
| Monitor.ReadingMonitor.Run | internal/books/admin/monitor.go:186-273 | the same for all polls of a connection |
| Monitor.SamplesAreChanges | internal/books/admin/monitor.go:186-254 | per book the locations received are the positions read without consecutive repeats, or a prefix if cut short |
| Monitor.OneHeartbeatPerPoll | internal/books/admin/monitor.go:186-254 | a poll that completes ends with its one heartbeat, counting books and positions read; a cancelled one sends none |
| Monitor.HeartbeatsMatchPolls | internal/books/admin/monitor.go:186-273 | over a connection the heartbeats match the polls one to one |
| Monitor.ErrorsAreReported | internal/books/admin/monitor.go:207-254 | the error frames of a connection are its failed listings and failed answers, in order |
| Monitor.ChangesDiffer | internal/books/admin/monitor.go:234-237 | removing repeats leaves neighbours that differ and the same last position |
| LogSink.MarshalJobLogs | internal/jobs/logsink.go:60-72 | one line per entry, or an error exactly when some entry cannot be encoded |
| LogSink.ReadJobLogs | internal/jobs/logsink.go:74-98 | the entries of the decodable lines in order, or an error exactly when a line reaches the scanner's limit |
| LogSink.TruncatedReadsBack | internal/jobs/logsink.go:60-98 | a blob cut anywhere reads back as exactly the entries written whole |
| LogSink.OnlyWholeEntriesDecode | internal/jobs/logsink.go:74-76 | no proper prefix of an encoded entry decodes, because its opening bracket is still open |
| LogSink.PaddingIsIgnored | internal/jobs/logsink.go:82-90 | white space around an entry changes nothing, and a blank line adds nothing |
| LogSink.ScannableIs | internal/jobs/logsink.go:79-82 | the scanner's limit on a line is four mebibytes |
| LogSink.WholeBlobRoundTrip | internal/jobs/logsink.go:60-98 | an uncut blob reads back as all entries that the codec keeps exactly |
| Downsample.Downsample | tools/fixturegen/main.go:185-208 | fails exactly for a limit of one or two below the input; otherwise keeps between the limit less a block and the limit, from known positions |
| Downsample.StrideFitsBlock | tools/fixturegen/main.go:193-201 | the stride is at least a block before it is clamped, so blocks never overlap |
| Downsample.IndexIncreases | tools/fixturegen/main.go:202-206 | the kept positions strictly increase |
| Downsample.KeptSpansWindow | tools/fixturegen/main.go:182-206 | they start at the first row, step by at most a stride, and end within a stride and the number of blocks of the last |
| Decimal.IntRoundTrip | internal/books/liberate/chapters.go:47-48 | a printed time parses back to itself |

## Left out

- Fleet.FleetCap: does not count runs that the limiter did not answer, and assumes fresh holds and, above a cap of one, distinct names; FleetLimits.LateSecondBreaksCap and FleetLimits.CollisionBreaksCap show that neither can be dropped.
- Fencing.NotificationsAgree: assumes of the job's own announcing writes that none errs and that the Fail of a missing handler takes its row; the exact conditions for one step are in Fencing.RecordAgreesExactly and Fencing.NoHandlerAgreesExactly.
- DrainBound.DrainTerminates: presumes that handlers return and that nothing is enqueued meanwhile, and counts the moves of slots only.
- LogSink.ReadJobLogs: reads the blob at once; the scanner's buffer and I/O errors are not modelled.
- Monitor.ReadingMonitor.Run: polls follow each other without the ticker, and frames carry no timestamps, titles or error texts.
- Worker.DrainLoop: one worker, no store errors, and the table unchanged by others while a handler runs; the interleavings of `runJob` and the loops are the steps of `Protocol`, `Fleet` and `Drain`.
- The heartbeat and slot-refresh goroutines are steps of `Protocol` and `Fleet`, not methods.
- The payload and creation time of a row, and the rows' listing, statistics and admin queries.
- `Cancel`'s map of contexts: a cancelled handler is a slot that records nothing.
- A slot that abandons its job for a cancelled process context is a step of `Protocol`, not of `Drain`.
- The error texts that `Protocol` stores in a row are fixed ones.
- The branding offsets of a chapter tree, which the flattening does not consult.
- `clampInterval`, `clampLimit` and `truncate`, which are one-line clamps.
- The dry run, the local mirror's pruning and the texts printed by the dedup command.
- Log capture, blob storage, metrics emission, HTTP handlers, the AMQP provider and the database schema.
