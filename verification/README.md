# StaticFlow: verified models of its stateful core

StaticFlow is a Rust backend, a Yew frontend and the CI scripts around them.
This project models the parts of it that carry branching state and proves what
those parts promise. Each part has a simple specification that its code is
meant to agree with; the main theorems connect the two over every input, every
run or every interleaving.

Loops and mutable objects of the source are methods and classes proved against
specification functions; what the source promises is proved about those
functions. Concurrent parts are transition systems whose actions are the steps
between two points at which another task may run. Time is an integer, channels
and tables are sequences, and the outcome of every outside call is an argument.

| files | component |
|---|---|
| `Reachability.dfy`, `StringOrder.dfy`, `LockGraph.dfy`, `Selector.dfy` | CI impact analysis: which crates a change can affect |
| `Maintenance.dfy`, `SingleFlight.dfy`, `Intervals.dfy`, `WorkerLimits.dfy`, `SplitRead.dfy` | the table-maintenance scheduler, its worker pool and its resizable semaphore |
| `FiniteSums.dfy`, `Profiler.dfy`, `ProfilerAgreement.dfy`, `ProfilerBounds.dfy`, `ProfilerSampling.dfy`, `ProfilerReports.dfy` | the sampling memory profiler and its reports |
| `ModelCache.dfy` | the least-recently-used cache of embedding models |
| `RunStream.dfy`, `AiStream.dfy`, `CommentStream.dfy` | two output pumps, a finaliser and the polling event streams of one AI run |
| `EventFlusher.dfy` | batching of behaviour events |
| `Utf8.dfy`, `PageState.dfy` | the page-state codec |
| `SubmitGuard.dfy` | the rate limit on public submissions |
| `ReversePaging.dfy` | newest-first paging over a table that can only be read forwards |
| `Contribution.dfy`, `ContributionRace.dfy` | approval and rejection of account contributions |
| `PlayerHistory.dfy` | the music player's reducer and play history |

## Where the code does less than its documentation suggests

These are results about the code as it is. For each, lemmas show the failure and
state exactly when the code does meet the property.

* A lock file with a blank dependency string makes the selector stop with an
  IndexError (`parts[0]` at scripts/ci_affected.py:215), where an unreadable
  lock falls back to the whole workspace (`Selector.BlankStringCrashes`;
  exactly when: `Selector.CrashesExactly`).
* "Matching on the provided parts is exact" (scripts/ci_affected.py:204-206)
  does not hold for the longest form and a git source: the package table's
  source ends in a revision that cargo leaves out of dependency strings, so such
  a string does not find its package (`LockGraph.RevisionHidesPackage`), and a
  member that names its dependency so is not affected when the revision moves
  (`LockGraph.RevisionMoveIsMissed`). The
  form finds its package exactly when it quotes the table's source
  (`LockGraph.FullFormExact`). The lock attribution theorems hold for the graph
  the script builds.
* A crate whose name is the empty string is never seeded as a file's owner,
  because the comprehension at scripts/ci_affected.py:316 drops falsy names
  (`Selector.NamelessOwnerIsDropped`). `Selector.SelectorSound` is exact: what an
  unselected crate reaches is untouched unless it is nameless and owns a changed
  file.
* Resizing the semaphore counts the workers in `active_tasks`, which a worker
  leaves before it returns its permit and joins after it has taken one. From the
  start, a worker that has just taken its first permit makes the next tick add
  one permit too many (`WorkerLimits.OvershootingRun`). Permits are conserved
  throughout a run exactly when no adjustment has to add permits because of
  uncounted ones (`WorkerLimits.PermitsConserved`); `WorkerLimits.TotalBounds`
  bounds the overshoot by the pool size. Between the read of the count and the
  read of the permits a worker may move: the upper bound stands
  (`SplitRead.SplitTotalBound`), but an adjustment can then leave the semaphore
  smaller than the limit it applies (`SplitRead.ShortRun`), exactly when it was
  smaller before and fewer permits are held at the second read than were counted
  at the first (`SplitRead.ShortExactly`).
* Saturated u64 counters break the agreement of the profiler's two maps, and an
  environment variable can set a sample rate that saturates them with one block
  (`ProfilerAgreement.SaturationDisagrees`). The maps agree throughout a run
  exactly when no recorded allocation saturates (`ProfilerAgreement.RunAgrees`);
  with the cap that `update_config` puts on the rate this always holds
  (`ProfilerBounds.CappedRunAgrees`).
* The event stream of an AI run is complete, over every run, exactly when chunks
  became visible in index order, one listing can return them all and none is
  stored after the reading that closed the stream (`RunStream.ClosedComplete`).
  Joining the pumps before finalising is enough for the last condition, and then
  the first two are exact (`RunStream.StreamComplete`, `AiStream.StreamSendsAll`).
  Each can fail: two pumps can store out of order (`RunStream.OvertakenIsLost`),
  store more than one listing returns (`RunStream.LongRunLosesChunk`), and
  outlive a run that timed out (`RunStream.TimeoutLosesChunk`). The reader also
  keeps its last index when another run takes over, so chunks of that run with
  indices already passed are never sent (`AiStream.NewRunLosesChunks`).
* The stream of a comment task's run lists chunks before it reads the status, and
  so can end with a chunk unsent even when the pumps are joined
  (`CommentStream.LateChunkIsUnsent`). Its store sorts every listing by index
  (comments_store.rs:758-759), which the article store does not, so chunks stored
  out of order between two listings are all sent
  (`CommentStream.SortedListingSendsBoth`), and one is lost only when it is stored
  below an index already listed (`CommentStream.OvertakenIsUnsent`). The stream
  sends every stored chunk the client asked for exactly when that never happens
  and its last listing returned them all (`CommentStream.CommentComplete`,
  `CommentStream.CommentCompleteFromStart`).
* The error counter of the article stream is cleared by every successful listing of
  runs, so the guard after a failed listing of chunks (handlers.rs:5521) is
  dead code: `AiStream.ChunkFailuresNeverGiveUp`, `AiStream.GivesUpAtTen`.
* Pruning the rate-limit table changes a decision exactly when a call comes
  within a window of its key's last accepted submission after another call has
  pruned that submission (`SubmitGuard.PruningExact`). A clock that never falls
  more than five windows and a millisecond behind an accepted call rules this
  out (`SubmitGuard.PruningRefines`); for every window one millisecond more does
  not (`SubmitGuard.ClockBoundIsTight`).
* If the store fails after a key was created, the key is forgotten and a retry
  creates another (`Contribution.ForgottenKey`); `Contribution.ApproveBalances`
  is the exact condition. A rejection that deletes the key and then fails leaves
  a request that no later run of calls can issue
  (`Contribution.HalfRejectedCannotBeIssued`); an open request can still be
  issued exactly when no key is recorded or the recorded one exists
  (`Contribution.CanBeIssued`).
* Approvals of one request take no lock: two at once can create two keys and send
  two mails (`ContributionRace.TwoAtOnce`). Over every interleaving of approvals
  at most one key is created exactly when no handler that read the record before
  it named a key creates one after another has (`ContributionRace.OneKeyExactly`).
* Shutdown drops what is still in the event channel, and exactly that
  (`EventFlusher.RunFlusher`); when the senders are gone instead, every event they
  sent has been handed over.
* Pages are newest first as a whole exactly when no row is older than a row on a
  later page (`ReversePaging.WalkPages`, `ReversePaging.PagesDescend`); a table
  that fits one page may be in any order, and with pages of one row it must be
  in time order (`ReversePaging.TimeOrderNeeded`).
* A larger model cache need not hold what a smaller one holds once initialisers
  fail (`ModelCache.FailuresBreakInclusion`): a failed miss on a full cache evicts
  a key and puts nothing in its place. Capacity k stays inside capacity k + 1
  throughout a trace exactly when no access misses the larger cache while that is
  full, the smaller has room and the larger's oldest key is in the smaller
  (`ModelCache.InclusionExact`); without failures that never happens
  (`ModelCache.LargerCacheContains`).

A weakness that no path in the repository reaches: a maintenance worker that
holds a task and is notified on the shutdown channel, but not with `true`, drops
the task (table_maintenance.rs:261-266), and the id stays in `in_flight` for good
(`SingleFlight.DroppingRun`, `SingleFlight.LostForever`). The only sender
(state.rs:382) sends `true`. Without such a notice `in_flight` is exact
(`SingleFlight.NothingLostWithoutNotice`); with them it is exact if and only if
none interrupts a worker between its task and its permit
(`SingleFlight.InFlightExact`).

## Model

| member | source | states |
|---|---|---|
| LockGraph.ParseLock | scripts/ci_affected.py:177-197 | the two dictionaries built table by table have the same ids, and a fingerprint holds the sorted dependency list of its id |
| LockGraph.ParseKeepsLast | scripts/ci_affected.py:192-196 | of several tables with one id the last one decides both dictionaries |
| LockGraph.TableIsKept | scripts/ci_affected.py:192-196 | a table that no later one shares name, version and source with leaves its checksum, its dependency list and a permutation of it; absent keys count as empty, an absent source as none |
| StringOrder.SortedCanonical | scripts/ci_affected.py:195 | two dependency lists have equal sorted tuples if and only if they are equal as multisets |
| StringOrder.SortedIsOrderedPermutation | scripts/ci_affected.py:195 | the sorted tuple is ordered and a permutation of the list |
| LockGraph.IndexByName | scripts/ci_affected.py:208-210 | a name finds exactly the ids that carry it |
| LockGraph.ResolveTargets | scripts/ci_affected.py:214-220 | narrowing by name, version and source finds exactly the packages that match every part given, and fails exactly on a blank string |
| LockGraph.NameDenotesAll | scripts/ci_affected.py:214-215 | a bare name denotes every package of that name |
| LockGraph.VersionNarrows | scripts/ci_affected.py:216-217 | a name and a version denote exactly the packages that have both |
| LockGraph.SplitAtSpaces | scripts/ci_affected.py:214 | any run of whitespace separates two parts, and whitespace around them does not count |
| LockGraph.StripParensMeans | scripts/ci_affected.py:219 | stripping removes the parentheses at both ends of a source, all of them, and nothing else |
| LockGraph.BuildReverse | scripts/ci_affected.py:211-222 | the reversed graph has an edge exactly where the lock records a dependency; it cannot be built exactly when some dependency string is blank |
| LockGraph.FullFormExact | scripts/ci_affected.py:204-220 | the longest form of a dependency string, quoting a table's source as the table has it, denotes that package and nothing else |
| LockGraph.RevisionHidesPackage | scripts/ci_affected.py:218-220 | quoting a git source without its revision, it does not find that package |
| LockGraph.RevisionMoveIsMissed | scripts/ci_affected.py:233-268 | two locks in which a git package moves to another revision and a member that names it by that form is not affected |
| LockGraph.BlankLockIsMalformed | scripts/ci_affected.py:214-215 | attribution fails on a lock with one package whose one dependency string is blank |
| LockGraph.ReverseReachable | scripts/ci_affected.py:200-230 | the worklist terminates with exactly the packages that have a dependency path to a start id |
| LockGraph.LockAffectedMembers | scripts/ci_affected.py:233-268 | returns exactly the member names whose lock entry reaches a changed id in either graph; undecided exactly for an unreadable lock or a changed format, an error exactly for a blank dependency string |
| LockGraph.AttributionSound | scripts/ci_affected.py:200-268 | a member whose name is not returned reaches the same packages in both locks, each with the same checksum, the same dependency multiset, the same targets for every dependency string and the same edges |
| LockGraph.AttributionPrecise | scripts/ci_affected.py:233-243 | a member name whose entries have the same subgraph in both locks is not returned |
| LockGraph.ReachableUnchanged | scripts/ci_affected.py:254-267 | every package an unreturned member reaches in one lock is in both, with the same fingerprint |
| LockGraph.TargetsAgree | scripts/ci_affected.py:214-220 | a dependency string met on the way denotes the same packages in both locks |
| Reachability.Closure | scripts/ci_affected.py:223-230 | the worklist computes exactly the nodes on a path from a start node, in whatever order neighbours come |
| Reachability.ReverseReaches | scripts/ci_affected.py:272-275 | walking reversed edges from a node finds exactly the nodes with a path to it |
| Reachability.SearchForward | scripts/ci_affected.py:135-144 | the search that stops at its first goal succeeds exactly when some goal is reachable |
| Selector.OwningCrate | scripts/ci_affected.py:168-174 | the owner is the crate of the longest member directory containing the file, for every order of the dictionary |
| Selector.OwnerUnique | scripts/ci_affected.py:168-174 | a file has at most one owner |
| Selector.OwnerIsNearest | scripts/ci_affected.py:168-174 | the owner is the nearest enclosing member directory: it contains the file and has no member directory inside that contains it too |
| Selector.DependentsClosure | scripts/ci_affected.py:271-282 | exactly the crates with a dependency path to a seed |
| Selector.VendoredHeavyCrates | scripts/ci_affected.py:131-145 | exactly the member crates whose forward closure meets a vendored dependency |
| Selector.HeavyIsReverseClosure | scripts/ci_affected.py:131-145 | the search crate by crate equals one reverse closure of the directly vendored crates |
| Selector.CollectOwners | scripts/ci_affected.py:316 | the seeds are exactly the non-empty owners of changed files |
| Selector.AnyCrossCutting | scripts/ci_affected.py:160-165 | some changed file is a root manifest, lies under a cross-cutting prefix or has a toolchain file's name |
| Selector.CrossCuttingRoots | scripts/ci_affected.py:160-165 | the root manifest and everything under the cargo configuration, the vendored trees and the patches is cross-cutting |
| Selector.CrossCuttingNames | scripts/ci_affected.py:164 | so is a file whose name starts like a toolchain file's, in whatever directory |
| Selector.NotCrossCutting | scripts/ci_affected.py:160-165 | no other file in a directory is |
| Selector.DecideFromChange | scripts/ci_affected.py:315-331 | the decision from owners, lock attribution and the two closures |
| Selector.Detect | scripts/ci_affected.py:302-331 | all branches of the decision: everything, nothing, a subset, or the error |
| Selector.EverythingExactly | scripts/ci_affected.py:306-321 | the whole workspace is tested exactly when base or head is unresolved, a changed file is cross-cutting, or the lock changed and cannot be attributed; then the disk is freed |
| Selector.ListsExactly | scripts/ci_affected.py:316-331 | otherwise the lint list is the named owners of changed files and the members the lock change affects, the test list everything with a dependency path to one, and the mode says whether there are any |
| Selector.SelectorSound | scripts/ci_affected.py:302-331 | non-interference: in a narrowed run, what a crate outside the test set reaches owns no changed file and has the same lock subgraph before and after, unless it is a nameless crate that owns a changed file, and only then |
| Selector.SelectorPrecise | scripts/ci_affected.py:302-331 | every crate in the test set reaches a member that owns a changed file or whose lock subgraph differs |
| Selector.NotSeeded | scripts/ci_affected.py:316-323 | a crate that is not a seed is untouched, unless it is nameless and owns a changed file, and only then |
| Selector.DecisionLists | scripts/ci_affected.py:327-331 | the lint set is within the test set; the disk flag holds exactly when a tested member reaches a vendored dependency |
| Selector.NamelessOwnerIsDropped | scripts/ci_affected.py:316 | a change on which a crate with an empty name owns the file and nothing is selected |
| Selector.CrashesExactly | scripts/ci_affected.py:302-323 | the script ends with an uncaught error exactly when only the lock can decide, both locks are readable with one format, and one has a blank dependency string |
| Selector.BlankStringCrashes | scripts/ci_affected.py:215 | a change on which it does |
| Maintenance.WorkerPermits.AdjustWorkerLimit | crates/backend/src/table_maintenance.rs:377-409 | hoarded permits are returned before new ones are added; lowering hoards as many free permits as it can |
| SingleFlight.RunConserves | crates/backend/src/table_maintenance.rs:136-207 | over every interleaving, the instances in queue, workers and results plus the dropped ids are exactly `in_flight` and the id just sent, each once |
| SingleFlight.AtMostOneInstance | crates/backend/src/table_maintenance.rs:105-207 | an id has at most one instance across queue, workers and result channel, and then it is in `in_flight` or being entered there |
| SingleFlight.InFlightExact | crates/backend/src/table_maintenance.rs:240-291 | over every run from the start, `in_flight` with the id just sent is exactly the live instances if and only if no notice met a worker between its task and its permit |
| SingleFlight.NothingLostWithoutNotice | crates/backend/src/table_maintenance.rs:105-207 | over every run from the start without such notices, the instances are exactly `in_flight` and the id just sent, each once |
| SingleFlight.DroppingRun | crates/backend/src/table_maintenance.rs:259-267 | a run from the start after which the only task is nowhere and still in `in_flight` |
| SingleFlight.LostForever | crates/backend/src/table_maintenance.rs:183-188 | a dropped task stays in `in_flight` for the rest of every run |
| SingleFlight.QueueNeverFull | crates/backend/src/table_maintenance.rs:105-106 | the queue never holds more entries than there are tasks, so the branch for a full queue is unreachable |
| SingleFlight.DueTasksDispatched | crates/backend/src/table_maintenance.rs:174-204 | over every run from the start, when a tick has gone through the definitions every enabled task that was due is in flight |
| SingleFlight.RunTimely | crates/backend/src/table_maintenance.rs:145-147 | due times cover every report so far in every reachable state |
| SingleFlight.DispatchesSpaced | crates/backend/src/table_maintenance.rs:173-204 | no task is dispatched earlier than its scheduled interval after any earlier report of it |
| Intervals.RestsInSeconds | crates/backend/src/table_maintenance.rs:145-147 | over every run from the start, a task rests after a report for its override, or else the scan interval of the tick that dispatched the reported instance, in whole seconds and at least one |
| Intervals.RestsUnderOneScan | crates/backend/src/table_maintenance.rs:416-433 | while the scan interval stays the same, for that many seconds |
| Intervals.DispatchedOnceRested | crates/backend/src/table_maintenance.rs:174-204 | and no longer: when an enabled tick has gone through the definitions, each is in flight unless it is still resting |
| Intervals.SendsExactly | crates/backend/src/table_maintenance.rs:183-192 | a definition is sent, to the end of the queue, exactly when the scheduler is enabled, its id is not in flight and it is not before its due time |
| Intervals.ResolvedTask | crates/backend/src/table_maintenance.rs:411-435 | what a task takes from its definition and what from the configuration |
| WorkerLimits.AdjustmentRace | crates/backend/src/table_maintenance.rs:166-172 | an adjustment leaves available + held = max(held, desired + g), g being the workers with an uncounted permit |
| WorkerLimits.WorkersKeepCeiling | crates/backend/src/table_maintenance.rs:259-279 | acquiring, counting, uncounting and releasing change neither available + held nor the hoard |
| WorkerLimits.TotalBounds | crates/backend/src/table_maintenance.rs:377-409 | over every run from the start the semaphore's size lies between the largest limit applied and that limit plus the pool size |
| WorkerLimits.PermitsConserved | crates/backend/src/table_maintenance.rs:383-396 | over every run from the start, available + held + hoarded is throughout the largest limit ever applied if and only if no adjustment adds permits because of uncounted ones; so it is when every adjustment finds all holders counted |
| WorkerLimits.RaceOvershoots | crates/backend/src/table_maintenance.rs:386-396 | one adjustment keeps that equation exactly when no permit is uncounted or none need be added |
| WorkerLimits.OvershootingRun | crates/backend/src/table_maintenance.rs:259-279 | a run from the start, for every limit, after which the semaphore has one permit too many |
| WorkerLimits.CeilingNeverRises | crates/backend/src/table_maintenance.rs:386-408 | from every reachable state, a run never raises the ceiling if and only if every adjustment asks, its limit plus the uncounted permits, for no more than is accessible; under a constant limit the ceiling does not fall below it; and it does not rise if in addition every adjustment finds all holders counted |
| WorkerLimits.RisesExactly | crates/backend/src/table_maintenance.rs:386-408 | the equivalence, along any run |
| WorkerLimits.CeilingSettles | crates/backend/src/table_maintenance.rs:383-385 | over every run from the start, from a tick on and while the limit stays the same, the ceiling is the limit throughout if and only if that tick sees no more holders than the limit and no tick meets an uncounted permit |
| WorkerLimits.RunsWorkerCount | crates/backend/src/table_maintenance.rs:167-172 | over every run from the start, once settled, at most `worker_count` tasks run at once, or one if that is zero, and as many can start as are missing; the pool has 32 workers |
| SplitRead.LiftedRun | crates/backend/src/table_maintenance.rs:166-172 | every run with adjustments in one step is a run with split reads |
| SplitRead.SplitRace | crates/backend/src/table_maintenance.rs:386-408 | with the count from the first read, an adjustment leaves held + max(0, desired - count) permits accessible and raises the total to at least desired + held - count |
| SplitRead.SplitTotalBound | crates/backend/src/table_maintenance.rs:377-409 | over every run from the start with workers moving between the two reads, the semaphore never shrinks and never exceeds the largest limit applied plus the pool |
| SplitRead.ShortExactly | crates/backend/src/table_maintenance.rs:386-397 | an adjustment leaves it smaller than the limit it applies if and only if it was smaller before and fewer permits are held at the second read than were counted at the first |
| SplitRead.ShortRun | crates/backend/src/table_maintenance.rs:277-291 | a run from the start that does |
| Profiler.MemoryProfiler.RemoveAllocation | crates/backend/src/memory_profiler.rs:659-674 | forgets a pointer and takes its weight from its stack, whose entry goes when nothing is left |
| Profiler.MemoryProfiler.Insert | crates/backend/src/memory_profiler.rs:646-656 | enters a pointer and adds its weight to its stack |
| Profiler.MemoryProfiler.RecordAllocation | crates/backend/src/memory_profiler.rs:622-657 | size threshold, sampling, capacity, cleanup of a stale entry, insertion |
| Profiler.MemoryProfiler.ShouldSample | crates/backend/src/memory_profiler.rs:740-746 | every rate-th call is taken; the counter wraps |
| ProfilerSampling.SampledExactly | crates/backend/src/memory_profiler.rs:740-746 | with a rate above one a call is sampled if and only if the calls before it are a multiple of the rate |
| ProfilerSampling.SampledShare | crates/backend/src/memory_profiler.rs:622-637 | after a reset, of n allocations that pass the size filter exactly n / rate, rounded up, are sampled, and each of those is recorded or dropped |
| ProfilerSampling.EnteredWeight | crates/backend/src/memory_profiler.rs:643-656 | an entered block weighs its usable size times the rate, and its stack is charged with that |
| ProfilerSampling.EstimateIsFair | crates/backend/src/memory_profiler.rs:622-657 | after a reset and n allocations of one size, with room for the samples, n / rate blocks, rounded up, are tracked at rate times that size |
| ProfilerSampling.ShareCovers | crates/backend/src/memory_profiler.rs:643-644 | in bytes, that is no less than was allocated and at most one sample more |
| ProfilerSampling.CountersAddUp | crates/backend/src/memory_profiler.rs:593-620 | over every run of fewer than 2^64 calls, sampled allocations are those tracked and those sampled as freed |
| ProfilerSampling.UpdateExactly | crates/backend/src/memory_profiler.rs:271-305 | an update is accepted exactly when every setting it names is valid, and is then in force; switching off clears everything either way |
| ProfilerSampling.HooksExactly | crates/backend/src/memory_profiler.rs:583-620 | null pointers are ignored, and a disabled profiler records nothing but still forgets what is freed |
| Profiler.MemoryProfiler.OnAlloc | crates/backend/src/memory_profiler.rs:583-591 | records only a non-null pointer while enabled |
| Profiler.MemoryProfiler.OnDealloc | crates/backend/src/memory_profiler.rs:593-603 | forgets the pointer and counts the event only if it was tracked |
| Profiler.MemoryProfiler.OnRealloc | crates/backend/src/memory_profiler.rs:605-620 | the old pointer goes before the new one is recorded |
| Profiler.MemoryProfiler.UpdateConfig | crates/backend/src/memory_profiler.rs:271-305 | settings before the first invalid one stay applied; disabling clears everything |
| Profiler.MemoryProfiler.ClearRetainedState | crates/backend/src/memory_profiler.rs:314-326 | maps and counters are emptied, the settings stay |
| Profiler.MemoryProfiler.Reset | crates/backend/src/memory_profiler.rs:307-312 | the same, on request |
| ProfilerAgreement.RemovedAgrees | crates/backend/src/memory_profiler.rs:659-674 | forgetting a pointer keeps the maps in agreement |
| ProfilerAgreement.InsertedAgrees | crates/backend/src/memory_profiler.rs:646-656 | entering one keeps them in agreement if and only if no u64 counter saturates |
| ProfilerAgreement.RecordedAgrees | crates/backend/src/memory_profiler.rs:622-657 | recording an allocation keeps them in agreement if and only if it is not entered or saturates nothing, with the cleanup of a stale entry |
| ProfilerAgreement.StepAgrees | crates/backend/src/memory_profiler.rs:764-804 | every hook and every admin call keeps agreement if and only if it saturates nothing |
| ProfilerAgreement.RunAgrees | crates/backend/src/memory_profiler.rs:583-674 | over every run it holds throughout, if and only if nothing saturates, that each stack's live bytes are the total weight of its tracked pointers, its allocations minus its frees are their number, it has an entry exactly when it has one, and the tracked count is the size of the map |
| ProfilerAgreement.SaturationDisagrees | crates/backend/src/memory_profiler.rs:219-258 | with an uncapped sample rate from the environment, four calls on two small blocks leave a tracked pointer without a stack entry |
| ProfilerBounds.PackedFits | crates/backend/src/memory_profiler.rs:761-804 | live blocks, which do not overlap, have no more bytes together than there are addresses |
| ProfilerBounds.CappedRunAgrees | crates/backend/src/memory_profiler.rs:284-304 | with the capped sample rate and 47-bit addresses nothing saturates in any run of fewer than 2^64 calls, so the maps agree throughout |
| ProfilerAgreement.TrackedPointersAreLive | crates/backend/src/memory_profiler.rs:764-804 | over every run every tracked pointer is a live heap block, because a disabled profiler tracks none |
| ProfilerReports.CollectStackRows | crates/backend/src/memory_profiler.rs:558-570 | the rows are the non-empty stack entries, once each, and the total is their saturated sum |
| ProfilerReports.AggregateRows | crates/backend/src/memory_profiler.rs:439-461 | each name's byte and event counters, row count and set of functions are those of exactly its rows |
| ProfilerReports.GroupingConserves | crates/backend/src/memory_profiler.rs:505-528 | grouping rows by any naming neither loses nor repeats a byte |
| ProfilerReports.ReportAddsUp | crates/backend/src/memory_profiler.rs:439-489 | the entries of a report add up to the stack total, when that does not saturate |
| ProfilerReports.RowsCoverTracked | crates/backend/src/memory_profiler.rs:558-570 | while the maps agree, that total is the weight of exactly the tracked blocks |
| ModelCache.SmallModelCache.constructor | crates/embedding/src/cache.rs:16-22 | an empty cache with room for at least one |
| ModelCache.SmallModelCache.GetOrTryInsertMut | crates/embedding/src/cache.rs:24-47 | a hit moves the key to the end; a miss on a full cache evicts before it initialises |
| ModelCache.SmallModelCache.Touch | crates/embedding/src/cache.rs:49-54 | the first occurrence of the key is removed and the key appended |
| ModelCache.SmallModelCache.EvictLru | crates/embedding/src/cache.rs:56-62 | pops keys until one of them had a value |
| ModelCache.AccessKeepsAgreement | crates/embedding/src/cache.rs:24-62 | deque and map agree within the bound after every access, also when the initialiser fails; the value returned is the one stored |
| ModelCache.RecentMeans | crates/embedding/src/cache.rs:49-54 | moving keys to the end orders the keys used by their last use, each once |
| ModelCache.CacheIsWindow | crates/embedding/src/cache.rs:24-62 | after any trace, with failing initialisers too, the deque is the last n distinct keys served by most recent use, where a successful miss adds one to n up to the capacity and a failed miss on a full cache takes one away; the map has exactly those keys, and each value stems from the initialisation since which its key was never evicted |
| ModelCache.SuccessfulWindow | crates/embedding/src/cache.rs:24-62 | without failures the deque is the last min(k, distinct) distinct keys used, by most recent use, and the map has exactly those |
| ModelCache.InclusionExact | crates/embedding/src/cache.rs:16-62 | a cache of capacity k stays inside one of capacity k + 1 throughout a trace, with failures or not, if and only if no access misses the larger while that is full, the smaller has room and the larger's oldest key is in the smaller |
| ModelCache.LargerCacheContains | crates/embedding/src/cache.rs:16-47 | without failures a cache of capacity k is always contained in one of capacity k + 1 |
| ModelCache.FailuresBreakInclusion | crates/embedding/src/cache.rs:36-40 | a trace with failures after which it is not |
| RunStream.ShowInjective | crates/backend/src/article_request_worker.rs:494 | distinct batch indices print differently |
| RunStream.ChunkIdReads | crates/backend/src/article_request_worker.rs:494 | a chunk id is the run's id, a dash, and the index in decimal |
| RunStream.ChunkIdsDistinct | crates/backend/src/article_request_worker.rs:378-396 | the two pumps never give two stored chunks of a run one id, until the shared counter has gone once around |
| RunStream.ReadsExactly | crates/backend/src/article_request_worker.rs:477-493 | a line is numbered under its stream's name unless it is the ignored noise of stderr or its stream has stored 4096 chunks |
| RunStream.StoredIsAdmitted | crates/backend/src/article_request_worker.rs:477-509 | over every run at most 4096 chunks a stream are stored, and none of that noise |
| RunStream.EmitsRecords | crates/backend/src/handlers.rs:5540-5550 | for an arbitrary snapshot, exactly the chunks whose index exceeds all before them and the last index are emitted, in increasing order |
| RunStream.EmittedAscending | crates/backend/src/handlers.rs:5470-5562 | in any run whatever, emitted indices are strictly increasing, so nothing is emitted twice |
| RunStream.RunFollows | crates/backend/src/handlers.rs:5479-5562 | with joined pumps the reader is always where one reading of some prefix of the store would have left it, and a closed reader has read all that is visible |
| RunStream.FollowsAsPrefix | crates/backend/src/handlers.rs:5540-5550 | for chunks in index order that is a prefix of the store |
| RunStream.ClosedComplete | crates/backend/src/handlers.rs:5517-5562 | over every run, joined or not, every stored chunk was emitted once and in order if and only if chunks became visible in index order, one listing can return them all, and none was stored after the reading that closed the stream |
| RunStream.StreamComplete | crates/backend/src/article_request_worker.rs:398-413 | over every run with joined pumps, a closed stream has emitted exactly the new maxima of one listing; these are all stored chunks, once and in order, if and only if they became visible in index order and one listing can return them all |
| RunStream.TimeoutLosesChunk | crates/backend/src/article_request_worker.rs:398-404 | a run that times out can be closed before a chunk of it is stored |
| RunStream.OvertakenIsLost | crates/backend/src/article_request_worker.rs:493-509 | a run with joined pumps in which stderr draws its number second, stores first and is listed before stdout stores; the chunk of stdout is never emitted |
| RunStream.LongRunLosesChunk | crates/backend/src/article_request_worker.rs:490-492 | a run with joined pumps that stores 4097 chunks in index order and loses the last |
| CommentStream.ByIndexAscends | crates/store/src/comments_store.rs:758-759 | a listing of chunks with distinct indices comes in index order and has the same chunks |
| CommentStream.CommentComplete | crates/backend/src/handlers.rs:2774-2877 | over every run of the comment stream, whatever index the client starts from, chunks are sent in index order, each once; they are all the stored chunks it wants if and only if none was stored below an index already listed and the last listing returned every one that is stored |
| CommentStream.CommentCompleteFromStart | crates/backend/src/handlers.rs:2791-2843 | from the first chunk on, that means no overtaking, at most 5000 chunks, and none stored since the last listing |
| CommentStream.DoneIsFinal | crates/backend/src/handlers.rs:2827-2843 | the stream ends as done only after the run was finalised |
| CommentStream.OvertakenIsUnsent | crates/backend/src/handlers.rs:2794-2798 | a run with joined pumps in which a listing falls between two stores out of order, and the lower chunk is never sent although the last listing returns it |
| CommentStream.SortedListingSendsBoth | crates/store/src/comments_store.rs:758-759 | the same stores before any listing, and both chunks are sent in order |
| CommentStream.LateChunkIsUnsent | crates/backend/src/handlers.rs:2791-2843 | for every non-empty line, a run with joined pumps that ends with its chunk unsent |
| AiStream.ForwardChunks | crates/backend/src/handlers.rs:5540-5550 | the loop over one listing sends exactly the emitted chunks and leaves the highest index |
| AiStream.StreamEvents | crates/backend/src/handlers.rs:5470-5574 | the polling loop over arbitrary query results sends the events of its turns and stops where they close |
| AiStream.SendsRecords | crates/backend/src/handlers.rs:5540-5550 | over arbitrary query results the chunks sent have increasing indices and are exactly the new maxima among those seen |
| AiStream.EventsAreTruthful | crates/backend/src/handlers.rs:5540-5562 | a final event comes from a run that was found finished and is named `done` if it succeeded and `error` if not; a chunk event carries a listed chunk; the query error follows a failed query |
| AiStream.EndsOnce | crates/backend/src/handlers.rs:5482-5562 | only the last event can be anything but a chunk |
| AiStream.NothingAfterEnd | crates/backend/src/handlers.rs:5475-5561 | a finished run and a shutdown end the stream, the shutdown without an event |
| AiStream.StreamSendsAll | crates/backend/src/handlers.rs:5470-5562 | end to end over pumps, finaliser and polling loop: the new maxima of one listing, then the final event, named `done` for a successful run and `error` for any other, and nothing else; they are all stored chunks exactly under the conditions of StreamComplete |
| AiStream.ChunkFailuresNeverGiveUp | crates/backend/src/handlers.rs:5517-5526 | while runs can be listed, failures to list chunks never end the stream |
| AiStream.GivesUpAtTen | crates/backend/src/handlers.rs:5479-5488 | the query error is sent exactly when ten failures have come without a success between them, a failed chunk listing counting as the first |
| AiStream.NewRunLosesChunks | crates/backend/src/handlers.rs:5471 | whatever run later polls find, exactly the new maxima above all indices seen before are sent |
| AiStream.SecondRunStartsUnseen | crates/backend/src/handlers.rs:5479-5517 | once chunks of a run were listed in order, no chunk of another run numbered like them is ever sent |
| EventFlusher.Fill | crates/backend/src/state.rs:608-623 | draining takes events in order and stops at a limit or when the channel is empty |
| EventFlusher.ReceiveTurn | crates/backend/src/state.rs:606-639 | one receiving turn keeps earlier batches; it hands over all it holds as one full batch if that reaches a limit, and otherwise hands over nothing |
| EventFlusher.RunFlusher | crates/backend/src/state.rs:579-671 | over every schedule, batches followed by the buffer are the received events in order, the byte count is the buffer's size, and under settings that stay the same every batch is cut at them; once the senders are gone every event sent has been handed over, and shutdown loses exactly those not received; every turn that can receive does, and one on which the interval has elapsed empties the buffer |
| EventFlusher.BatchBounds | crates/backend/src/state.rs:624-629 | a batch holds at most `batch_size` events, and without its last event is below the byte limit |
| EventFlusher.SettingsCut | crates/backend/src/state.rs:547-553 | such a batch has at most the configured number of events and, without its last, less than the configured bytes, each setting being at least one |
| EventFlusher.FullBatchesAgree | crates/backend/src/state.rs:612-626 | where a full batch ends depends on the events alone, not on when they arrived |
| Utf8.DecodeEncode | crates/frontend/src/navigation_context.rs:46-51 | every string is read back from its UTF-8 bytes |
| Utf8.EncodeDecode | crates/frontend/src/navigation_context.rs:46-51 | bytes that decode are exactly the encoding of what they decode to |
| Utf8.EncodedLengths | crates/frontend/src/navigation_context.rs:60 | one character of each length, by the table of section 3 of RFC 3629 |
| PageState.PercentRoundTrip | crates/frontend/src/navigation_context.rs:46-60 | percent-decoding undoes percent-encoding (sections 2.1 and 2.3 of RFC 3986) on every string |
| PageState.UnreservedExactly | crates/frontend/src/navigation_context.rs:60 | the bytes written as themselves are those of section 2.3 of RFC 3986 |
| PageState.HexDigits | crates/frontend/src/navigation_context.rs:46-60 | digits are written in upper case and read in both (section 2.1 of RFC 3986) |
| PageState.EscapeBytes | crates/frontend/src/navigation_context.rs:60 | every other byte becomes a percent sign and its two digits |
| PageState.EncodedShape | crates/frontend/src/navigation_context.rs:57-63 | entries are written as key, equals sign, value, with an ampersand between two |
| PageState.ParsePageState | crates/frontend/src/navigation_context.rs:33-55 | the parse loop, with blank text, blank pairs, a missing `=` and undecodable text |
| PageState.SplitMeans | crates/frontend/src/navigation_context.rs:39 | the pairs are those the ampersands separate |
| PageState.CutMeans | crates/frontend/src/navigation_context.rs:43-45 | a key ends at the first equals sign, and without one the value is empty |
| PageState.ParseMeans | crates/frontend/src/navigation_context.rs:33-55 | a text parses to the last value of every decoded key among its pairs that are not blank, a blank text to nothing |
| PageState.RoundTrip | crates/frontend/src/navigation_context.rs:33-63 | parsing an encoded map gives the map back, for every map of strings and every order of its entries |
| SubmitGuard.PublicSubmitGuard.Enforce | crates/backend/src/public_submit_guard.rs:75-106 | the verdict and the new table of one call |
| SubmitGuard.ReadmittedAfter | crates/backend/src/public_submit_guard.rs:82-86 | an accepted key is refused until the configured number of seconds, at least one, has passed, and accepted from then on |
| SubmitGuard.PruningExact | crates/backend/src/public_submit_guard.rs:84-104 | the pruned table decides every call as the full one does if and only if no call comes within a window of its key's last accepted submission after another accepted call, more than six windows later than that submission, has pruned it |
| SubmitGuard.PruningRefines | crates/backend/src/public_submit_guard.rs:102-104 | so it does if the clock falls at most five windows and a millisecond behind any accepted call |
| SubmitGuard.ClockBoundIsTight | crates/backend/src/public_submit_guard.rs:103-104 | for every window, one millisecond more and a decision differs |
| SubmitGuard.SpacingExact | crates/backend/src/public_submit_guard.rs:84-104 | accepted calls for one key are all at least a window apart if and only if no call comes within a window of a pruned submission of its key |
| SubmitGuard.AcceptedSpaced | crates/backend/src/public_submit_guard.rs:84-86 | so they are if the clock falls at most five windows and a millisecond behind any accepted call |
| SubmitGuard.RetryDelayExact | crates/backend/src/public_submit_guard.rs:87-95 | the reported delay is the least whole number of seconds after which a retry is accepted |
| ReversePaging.EffectiveLimit | crates/backend/src/handlers.rs:1591-1596 | a missing or zero limit means 100 rows, or 2000 for one date; any other is capped at 500, or 2000 |
| ReversePaging.FetchIsPage | crates/backend/src/handlers.rs:1585-1626 | a page holds exactly the rows before those of the pages it follows, newest first, and announces more exactly when rows are left |
| ReversePaging.SortIsStable | crates/backend/src/handlers.rs:1617 | rows of the same moment keep their table order |
| ReversePaging.WalkDescends | crates/backend/src/handlers.rs:1585-1626 | whatever limits the requests ask for, the pages together are newest first if and only if no row is older than a row on a later page |
| ReversePaging.WalkPages | crates/backend/src/handlers.rs:1585-1626 | adding the returned length until no more is announced terminates and visits every row exactly once; the pages together are newest first exactly under that condition, and so in time order |
| ReversePaging.PagesDescend | crates/backend/src/handlers.rs:1609-1618 | with one page size they are newest first if and only if rows on different pages are in time order |
| ReversePaging.TimeOrderNeeded | crates/backend/src/handlers.rs:1609-1611 | with pages of one row, if and only if the table is in time order |
| Contribution.Desk.Approve | crates/backend/src/gpt2api_rs.rs:432-540 | every branch of an approval, with the record stored and the keys and mails it leaves behind |
| Contribution.Desk.Reject | crates/backend/src/gpt2api_rs.rs:542-587 | every branch of a rejection |
| Contribution.Desk.MarkFailed | crates/backend/src/gpt2api_rs.rs:1551-1565 | the record is stored as failed with its reason |
| Contribution.Desk.ObtainKey | crates/backend/src/gpt2api_rs.rs:484-491 | a recorded key is loaded, otherwise one is created |
| Contribution.ApproveBalances | crates/backend/src/gpt2api_rs.rs:484-538 | an approval keeps "at most one key, issued exactly with one mail, a rejected key is gone" if and only if the store accepts the record after a key was created or a mail sent, and the key is reported properly |
| Contribution.IssuedExactly | crates/backend/src/gpt2api_rs.rs:440-532 | an approval issues an open request exactly when the notifier, the credential, an account, a usable key, the mail and the store are all there |
| Contribution.RejectedExactly | crates/backend/src/gpt2api_rs.rs:549-584 | a rejection takes effect exactly when the key, if any, was deleted, the account, if any and its credential usable, too, and the store accepts it |
| Contribution.RunRecords | crates/backend/src/gpt2api_rs.rs:466-513 | over every run, whatever fails, the status says what is on record, and an account or key once recorded never changes |
| Contribution.FailureReasons | crates/backend/src/gpt2api_rs.rs:454-462 | what a failed approval leaves on record |
| Contribution.RejectBalances | crates/backend/src/gpt2api_rs.rs:556-584 | a rejection always keeps it |
| Contribution.RunBalances | crates/backend/src/gpt2api_rs.rs:432-587 | from submission, every call of a run leaves it so if and only if every approval in it is reliable in that sense |
| Contribution.WellFormedIsReliable | crates/backend/src/gpt2api_rs.rs:484-538 | successful store writes and well-formed replies are enough for that |
| Contribution.FinalIsFinal | crates/backend/src/gpt2api_rs.rs:447-452 | issued and rejected are absorbing |
| ContributionRace.AloneIsApproved | crates/backend/src/gpt2api_rs.rs:432-540 | undisturbed, the steps of one handler are the approval of one call |
| ContributionRace.OneKeyExactly | crates/backend/src/gpt2api_rs.rs:440-491 | over every interleaving of any number of approvals, at most one key is created if and only if no handler that read the record before it named a key creates one after another has |
| ContributionRace.TwoAtOnce | crates/backend/src/gpt2api_rs.rs:440-531 | an interleaving of two approvals with two keys, two mails and one key forgotten |
| Contribution.RetryReusesKey | crates/backend/src/gpt2api_rs.rs:484-491 | a retry after a failed mail creates no second key |
| Contribution.ForgottenKey | crates/backend/src/gpt2api_rs.rs:534-537 | two keys for one request, when the store fails after the mail did |
| Contribution.CanBeIssued | crates/backend/src/gpt2api_rs.rs:484-491 | some run of calls can still issue an open request if and only if no key is recorded or the recorded key exists |
| Contribution.HalfRejectedCannotBeIssued | crates/backend/src/gpt2api_rs.rs:565-572 | once a rejection has deleted the key, no run of calls can issue the request |
| PlayerHistory.NormalizeIds | crates/frontend/src/music_context.rs:227-238 | the loop over playlist ids |
| PlayerHistory.NormalizedMeans | crates/frontend/src/music_context.rs:227-238 | the playlist holds exactly the trimmed, non-empty ids, each once |
| PlayerHistory.NormalizedInOrder | crates/frontend/src/music_context.rs:227-238 | in the order of their first occurrence |
| PlayerHistory.Reduce | crates/frontend/src/music_context.rs:89-247 | the new state for every action; indexing the history never fails |
| PlayerHistory.OpeningShows | crates/frontend/src/music_context.rs:92-134 | choosing a song shows it at full size, and only playing it starts the music |
| PlayerHistory.MovingPlays | crates/frontend/src/music_context.rs:161-213 | moving in the history, or on to a fallback, plays the entry it comes to, and changes nothing exactly where there is nothing to move to |
| PlayerHistory.ControlsOnlyControl | crates/frontend/src/music_context.rs:135-240 | the controls leave song and history alone and set exactly their own fields |
| PlayerHistory.PlaylistNamed | crates/frontend/src/music_context.rs:223-240 | a playlist keeps its name unless that is blank |
| PlayerHistory.StepRefines | crates/frontend/src/music_context.rs:91-245 | every action moves the back/forward zipper as it should and keeps history, index and song id coherent |
| PlayerHistory.RunRefines | crates/frontend/src/music_context.rs:89-247 | in every reachable state history is empty exactly when there is no index and no song id, otherwise the entry at the index carries the song id, and the history is the zipper of the run |
| PlayerHistory.BackForwardUndo | crates/frontend/src/music_context.rs:161-190 | moving back and forward undo each other on the zipper |
| PlayerHistory.PrevNextUndo | crates/frontend/src/music_context.rs:161-190 | next after previous restores history, index and song id, and the song exactly when it is the recorded one |
| PlayerHistory.NextPrevUndo | crates/frontend/src/music_context.rs:161-190 | previous after next restores history, index and song id, and the song exactly when it is the recorded one |
| PlayerHistory.OpeningDiscardsForward | crates/frontend/src/music_context.rs:96-103 | playing a new song keeps what lies behind and discards only forward entries |

## Left out

- git, TOML, manifests: `detect` takes the changed files, the parsed lock tables, the member directories, the path dependencies and the directly vendored crates as inputs.
- The test and lint commands of scripts/ci_affected.py: they only pass the decision on.
- Selector.SelectorSound: assumes that a lock file git does not list as changed is the same on both sides.
- Scheduler: shutdown with the value `true`, the start-up delay, allocator collection and the compaction work itself are not modelled. The due times a run starts with are one instant instead of one per task.
- Wrap-around of time values and of `desired` limits; instants and limits are unbounded integers.
- Profiler: hooks that race on the shared maps, the reentry guard (which every modelled call passes), address spaces above 47 bits (for CappedRunAgrees only), stack capture, symbol names (a report groups by an arbitrary function of the stack), mimalloc calls, and the sorting, truncation and ratios of reports.
- The output text the pumps collect, process exit and result files. A query of chunks is assumed to return the first rows in storage order, up to its limit, and the table to be append-only. A pump that fails to read is an early finalisation.
- The music-wish stream, which has the same shape as the article stream.
- CommentStream.CommentComplete: leaves out failed queries and a missing run, which end that stream, and an index counter that has wrapped around.
- Serialisation of stream events, and the pauses between polls.
- Event flusher: an event's size is one given number rather than the sum of its string lengths; channel capacity and the senders are outside; a store failure loses its batch, as in the source.
- `urlencoding` is modelled from its documented behaviour; a `BTreeMap`'s order is covered because every order of entries is.
- SubmitGuard.PruningRefines: covers one fixed window; the header parsing that builds the key, and i64 overflow of window arithmetic, are outside.
- Reverse paging over a table that changes between requests; the filters are taken as already applied, and `total + limit` does not overflow.
- Contribution: mail, key service and store are given outcomes of each call; an imported account name is taken to be non-blank; admin notes, timestamps, key names and login links are not kept. Calls run one after another, except in ContributionRace, where approvals overlap but rejections, failed stores and malformed replies do not.
- Player: floating-point fields (time, duration, volume, lyrics offset), candidates' origin, and the Yew components around the reducer.
- Components of the repository without such state: routing, views, stores, embeddings, mail and proxying.
