# HeapWatcher: a verified model

HeapWatcher tracks heap blocks between a start and a stop call. Instrumented `malloc`, `calloc`,
`realloc` and `free` run in many threads: each calls libc, reads the watch flags and, if they are on,
posts a request to a queue. One worker thread folds the requests into a map of open allocations, a set
of frees that came before their mallocs ("strays") and five counters, and answers snapshot requests
with the list of leaks. This project models that machinery in Dafny 4.11 and proves what its reports
mean when requests arrive out of order, addresses are reused and calls are skipped.

`dafny verify dfyconfig.toml` checks everything. References to `README.md` lines in the Dafny comments
are to the HeapWatcher repository's own README.

## Structure

- `Requests`, `Tracker`: the request alphabet and the worker's bookkeeping as a step function, its fold
  over a stream, and the reports it yields. A REALLOC that finds no record is outside the domain of a
  step (`Handles`, `Defined`).
- `Worker`: the worker as a class with its mutable fields, the reused array of 20 requests and the three
  loops, with 64-bit counters, proved equal to the fold.
- `Ledger`, `Counting`, `Confluence`, `FreeCounts`, `Holdings`, `Provenance`, `Totals`: what holds of the
  worker's state after every stream. `Answers`: what callers are told.
- `ReferenceHeap`, `Workload`: one producer in order against a plain heap, and the random workload of the
  unit tests. `PostLogs`, `Merges`, `Producers`: all merges of several producers' logs.
- `Machine`: the concurrent system as a state machine. Any number of threads, one queue per producer, the
  worker taking the head of any of them, start/stop/capture under the mutex, snapshot without it.
- `Soundness`, `Exactness`, `OwnBlockSessions`, `Session`: what holds of every run of the machine.
  `SessionStart`, `Stops`: the two ends of a session. `Runs`, `Schedules`: runs in which a guarantee ends, and how to build them.
- `KnownLeaks`, `Filtering`, `Pausing`, `Tokens`, `Backtrace`: the known-leak table and filter, the pause
  flag, trace decoding.

## Where the code and its documentation differ

- The repository's README says at line 13 that the snapshot taken by a stop is the result of processing all
  records. That holds with one linear queue (`Session.LinearStopReportsEverything`). With one queue per
  producer a stop can overtake earlier requests (`Runs.StopCanOvertakeOtherProducers`); it is sure to account
  for everything if and only if no other thread is posting and all other queues are free of heap requests
  when the flag goes off (`Stops.StopReportsEverythingIff`).
- A leak report is not always sound.
  - A block allocated while watched and freed by a call that posts nothing stays listed
    (`Runs.PausedFreeIsReported`).
  - A request that a stop has overtaken is folded into the next session, which may list a block freed in
    between (`Runs.StaleRequestIsReported`, and exactly when: `SessionStart.BusyStartIsSoundIff`).
  - Otherwise it is: `Soundness.SessionReportsAreSound` with address reuse, and without it
    `Exactness.SessionReportsAreExact` says which listed blocks are not live.
- A REALLOC can reach the undefined branch from ordinary use.
  - A block from before the session does it (`Runs.ReallocOfEarlierBlockMisses`).
  - So does an address reused between fully watched threads that touch only their own blocks, as in the stress
    test at unit_tests/BasicTests.cpp:281-306 (`Runs.ReuseMakesReallocMiss`). For such threads it cannot happen
    if and only if no address that one of them reallocates is released by another
    (`Producers.OwnReallocsHitIff`).
  - In general: `Holdings.DefinedIff` is the exact condition on the stream, `Merges.EveryMergeIsHandledIff` the
    one on the producers' logs without reuse.
- A leak report is not always complete. An address reused between such threads can hide a live block
  (`Runs.ReuseHidesALeak`). Reports of all merges are exact if and only if no address that a thread owns in the
  end was ever released by another (`Producers.ReportsAreExactIff`); in runs of the system,
  `OwnBlockSessions.ReportsAreTheOwned`.
- `snapshot()` reads like a query, but one taken on the way can raise the final free counter: exactly when a
  stray FREE, a MALLOC, the SNAPSHOT and a further MALLOC of one address follow each other
  (`FreeCounts.FreeCountUnaffectedIff`, `FreeCounts.RevivesIffSnapshotBetween`).
- The README calls pausing scope based (line 136). Guards can be moved, and tokens that end in another order
  can leave a thread watched inside a guard and paused outside (`Tokens.CrossedTokensLeaveTheThreadPaused`);
  `Tokens.RestoredIff` and `Tokens.PausedWhileLivingIff` say which orders are safe.
- The README says at line 129 that a known leak is ignored at the number of frames at which it was captured.
  The code accepts any known address at any known offset. The two filters agree on all traces if and only
  if every captured address was captured at every captured offset (`KnownLeaks.FilterIsPairedIff`).
- `decode_mangled_line` raises an exception on exactly the lines without a `+` after a `(`
  (`Backtrace.DecodeFailsIff`).

## Model

| member | source | states |
|---|---|---|
| Requests.WrapAbsorbs | src/HeapWatcher.cpp:440-446 | a counter wrapped at every update ends where the true total, wrapped once, ends |
| Worker.HeapWorker.EraseAsFreed | src/HeapWatcher.cpp:717-722 | the entry leaves the map and the two free counters rise by it, modulo 2^64 |
| Worker.HeapWorker.ReconcileStrays | src/HeapWatcher.cpp:752-762 | whatever the iteration order of the stray set, the fields end as the reconciled state |
| Worker.HeapWorker.ListAllocations | src/HeapWatcher.cpp:764-771 | the vector copied out is the map's listing |
| Worker.HeapWorker.MoveRecord | src/HeapWatcher.cpp:689-701 | bytes are exchanged and the record re-inserted with its txn id and stack, unless the new key is taken |
| Worker.HeapWorker.HandleSlot | src/HeapWatcher.cpp:672-786 | one slot takes the fields to the next state of the step function and settles exactly its promise |
| Worker.HeapWorker.ProcessBatch | src/HeapWatcher.cpp:670-787 | the first n slots are folded in order; what stale slots hold does not matter |
| Worker.HeapWorker.Dequeue | src/HeapWatcher.cpp:667-668 | a bulk dequeue overwrites only the slots it reports |
| Worker.HeapWorker.WorkerMain | src/HeapWatcher.cpp:656-789 | the requests taken are just what the waits yield, up to 20 each and going on after timeouts; however that cuts the stream, fields and settled promises are those of the one-at-a-time fold |
| Worker.EnoughWaitsTakeAll | src/HeapWatcher.cpp:665-670 | once as many waits have found something as there are requests, all are taken, whatever timeouts lie between |
| Tracker.EachCommandIsAnsweredOnce | src/HeapWatcher.cpp:730-785 | promises are settled once per command, in stream order, and for nobody else |
| Answers.StatsAnswer | src/HeapWatcher.cpp:779-785 | a STATS is answered with the five totals of the stream before it, field by field, modulo 2^64 |
| Answers.SnapshotAnswer | src/HeapWatcher.cpp:745-777 | a SNAPSHOT is answered with the totals after its reconciliation and, ascending by address, exactly the records of the blocks then held |
| Answers.ClearAnswer | src/HeapWatcher.cpp:730-743 | a CLEAR is answered, map and strays are empty and all totals begin again |
| Tracker.FoldConcat | src/HeapWatcher.cpp:665-670 | cutting the stream anywhere does not change the result |
| Tracker.ReconcileCountsWhatItRemoves | src/HeapWatcher.cpp:752-762 | free counters rise by exactly the entries removed; a second reconciliation is a no-op |
| Tracker.ListingIsExact | src/HeapWatcher.cpp:764-771 | the listing is strictly ascending by address and holds exactly the map's entries |
| Ledger.LedgerBalances | src/HeapWatcher.cpp:674-777 | after every stream: mallocs = frees + open + dropped by emplace, bytes allocated = bytes freed + open sizes + dropped bytes, and the first two counters are the stream's own counts |
| Totals.TotalsAreTheStreams | src/HeapWatcher.cpp:674-777 | after every stream the free counter and the freed bytes are those of the FREEs of held blocks and of what SNAPSHOTs removed, and the allocated bytes the MALLOC sizes plus, per REALLOC, its new size less that of the block it moves, all read off the stream |
| Totals.NothingFreedWithoutFree | unit_tests/BasicTests.cpp:160-179 | without FREE and SNAPSHOT nothing counts as freed, whatever is reallocated |
| Ledger.ReallocNeverUnderflows | src/HeapWatcher.cpp:691-692 | subtracting the old size never takes the byte total below zero |
| Ledger.StatisticsAreExact | src/HeapWatcher.cpp:773-775 | while the allocation totals fit in 64 bits every reported statistic is the true one |
| Ledger.LeakFreeIffCountsAgree | unit_tests/BasicTests.cpp:236-239 | with nothing dropped, a report shows mallocs equal to frees exactly when it lists no leak, and then equal bytes |
| Counting.CountingInvariant | src/HeapWatcher.cpp:674-777 | for any stream and any address not stray, acquisitions minus releases since the last CLEAR is at least 1 if the address is open and at least 0 otherwise |
| Counting.NeverListed | src/HeapWatcher.cpp:745-777 | an address released as often as acquired is in no report, in any order |
| Confluence.StepsCommute | src/HeapWatcher.cpp:674-728 | MALLOC and FREE requests about different addresses commute on the whole state |
| Confluence.ArrivalOrderIsIrrelevant | src/HeapWatcher.cpp:745-750 | two arrival orders that agree on each address give the same map, strays and all counters |
| Confluence.ReportedIffSurvives | src/HeapWatcher.cpp:674-777 | an address is reported iff its own requests start and end with MALLOC and have no two FREEs in a row, and the record is that of the first MALLOC after the last FREE |
| Confluence.ExtraSnapshotsDoNotChangeTheReport | src/HeapWatcher.cpp:745-785 | deleting SNAPSHOT and STATS requests from a realloc-free stream leaves the final report's allocations and allocation totals as they were |
| Confluence.SnapshotsDoNotChangeTheReport | src/HeapWatcher.cpp:745-785 | so with REALLOCs, when none is about an address that has strayed by then |
| Confluence.SnapshotsAreHarmlessIff | src/HeapWatcher.cpp:684-762 | and exactly then: wherever queries are put among given heap requests they can be handled and end in one report iff the requests can be handled by themselves and no REALLOC among them is about a stray |
| FreeCounts.SnapshotsRaiseFreeCounts | src/HeapWatcher.cpp:752-762 | queries on the way raise the final free counters by exactly the number and sizes of the MALLOCs that follow a MALLOC whose record a SNAPSHOT has removed |
| FreeCounts.RevivesIffSnapshotBetween | src/HeapWatcher.cpp:752-762 | a MALLOC is such a one iff a SNAPSHOT stands between it and the acquisition it follows, and its address had a stray FREE before both |
| FreeCounts.FreeCountUnaffectedIff | src/HeapWatcher.cpp:752-762 | deleting all queries leaves the free counter alone iff no MALLOC since the last CLEAR is such a one |
| FreeCounts.FreeCountsAgreeIff | src/HeapWatcher.cpp:752-762 | two streams that differ only in their queries count equally many frees iff they hold equally many such MALLOCs |
| FreeCounts.ExtraSnapshotCanChangeFreeCount | src/HeapWatcher.cpp:752-762 | the smallest stream whose free counter a SNAPSHOT raises |
| Holdings.OpenIffHolds | src/HeapWatcher.cpp:674-762 | for every stream, map and stray set read off the stream: an address is open iff its last request since the CLEAR acquires it and no SNAPSHOT since met it as a stray |
| Holdings.ReallocHitsIff | src/HeapWatcher.cpp:686-709 | a REALLOC finds its record iff the same holds of its original address |
| Holdings.DefinedIff | src/HeapWatcher.cpp:684-711 | a stream never reads through `end()` iff this holds at each of its REALLOCs |
| ReferenceHeap.TrackerRefinesHeap | src/HeapWatcher.cpp:674-728 | for one producer in order, with reuse, the map is the live heap step for step, sizes included, no strays, every REALLOC hits |
| ReferenceHeap.NothingIsDropped | src/HeapWatcher.cpp:676-700 | and emplace never finds its key occupied |
| ReferenceHeap.SessionReportIsTheHeap | src/HeapWatcher.cpp:745-777 | such a session's report is exactly the live blocks with their sizes |
| ReferenceHeap.SessionWithoutLeaks | unit_tests/BasicTests.cpp:236-240 | with no block left live the report is empty with equal malloc/free and byte counts |
| Workload.WatchedHeap.Malloc | src/HeapWatcher.cpp:226-251 | returns any non-live block and posts its MALLOC |
| Workload.WatchedHeap.Realloc | src/HeapWatcher.cpp:280-292 | stays or moves to a non-live block and posts the REALLOC |
| Workload.WatchedHeap.Free | src/HeapWatcher.cpp:294-304 | takes a live block only and posts its FREE |
| Workload.ReallocSome | unit_tests/TestWorkloads.cpp:98-107 | the deque stays the workload's distinct live blocks after a random realloc |
| Workload.FreeSome | unit_tests/TestWorkloads.cpp:109-125 | swap-and-pop removes exactly the block freed |
| Workload.RandomHeapOperations | unit_tests/TestWorkloads.cpp:67-137 | for every operation count, random choice and address, the heap ends as it began, every malloc has exactly one free, the counters are those of the operations drawn, and no realloc comes without the free it falls through to |
| Workload.WatchRandomHeapOperations | unit_tests/BasicTests.cpp:242-253 | a session around it ends with an empty report, mallocs = frees and equal bytes |
| Merges.EveryMergeIsHandledIff | src/HeapWatcher.cpp:667-709 | without reuse, no merge of the producers' logs brings a REALLOC to a missing record iff each thread reallocates only what it obtained and only it, later, lets go of |
| Merges.ReportedHasAnOwner | src/HeapWatcher.cpp:674-777 | with reuse, in every merge that can be handled a reported address was acquired more often than released by some one producer |
| Producers.OwnReallocsHitIff | unit_tests/BasicTests.cpp:281-306 | of producers that touch only their own blocks, with reuse between them: no merge brings a REALLOC to a missing record iff no address that one reallocates is released by another |
| Producers.ReportsListOwnedBlocks | unit_tests/BasicTests.cpp:281-306 | a report of any merge of theirs that can be handled lists only blocks one of them still owns |
| Producers.OwnedIsAlwaysListedIff | src/HeapWatcher.cpp:674-777 | a block that one of them alone still owns is listed in every complete merge, and every such merge can be handled, iff no other ever releases its address nor any that another reallocates |
| Producers.ReportsAreExactIff | src/HeapWatcher.cpp:674-777 | all complete merges can be handled and report exactly the blocks still owned iff no address reallocated, or owned in the end, is ever released by another |
| Producers.TidyProducersReportNothing | unit_tests/BasicTests.cpp:281-306 | producers that own none at the end leave an empty report in every merge that can be handled |
| Producers.TidyProducersAlwaysReportNothing | unit_tests/BasicTests.cpp:281-306 | and in every merge at all when no address that one reallocates is released by another |
| Producers.WatchManyRandomHeapOperations | unit_tests/BasicTests.cpp:281-306 | any number of threads in the random workload, any addresses: no leak is reported in a merge in which no REALLOC misses, and no REALLOC misses in any merge iff no address that one thread reallocates is released by another |
| Machine.RunFollows | src/HeapWatcher.cpp:656-789 | in every run of the concurrent system the worker's state is the fold of what it has handled |
| Soundness.RunConserves | src/HeapWatcher.cpp:226-304 | conservation: per address, liveness minus handled, queued, pending and skipped requests never changes in a run |
| Soundness.ReportIsSound | src/HeapWatcher.cpp:745-777 | a reported address is live or its release is on the way, if no more releases than acquisitions were kept from the worker |
| Soundness.UntoldOnlyDropsWhenSkipped | src/HeapWatcher.cpp:284-303 | only a skipped release of the address or a CLEAR can break that condition |
| Soundness.ReportedIsGained | src/HeapWatcher.cpp:226-304 | in every session, busy at its start or not, a reported address is one the heap has gained since the start, requests on their way deducted then and now |
| Soundness.SessionReportsAreSound | src/HeapWatcher.cpp:226-304 | over whole sessions with reuse, any merge of queues and skipped allocations, a snapshot at any moment lists only blocks live or being released, at quiescence only live ones, for each address of which no more acquisitions than its live block were on their way at the start |
| Soundness.QuietReportsListNewBlocks | unit_tests/BasicTests.cpp:281-306 | between two quiet moments a report lists only blocks live now and not live then |
| SessionStart.ClearBeginsASession | src/HeapWatcher.cpp:149-171 | in every run a handled CLEAR leaves the tracker empty and a session open, while the other threads' requests stay on their way |
| SessionStart.StartedSessionIsSound | src/HeapWatcher.cpp:149-185 | soundness from any handled CLEAR to the answer of the stop, in every run |
| SessionStart.BusyStartIsSoundIff | src/HeapWatcher.cpp:149-171 | for an address that is gone at the start, every run of the session is sound iff no leftover request brings it |
| PostLogs.AnyHeadIsHandled | src/HeapWatcher.cpp:674-777 | without reuse, for every merge of the producers' logs the next request never misses and the worker keeps knowing what was gained and lost |
| PostLogs.ReportIsGainedNotLost | src/HeapWatcher.cpp:752-771 | a report is exactly the addresses gained and not lost among the requests handled, in any order |
| Exactness.RunKeepsFit | src/HeapWatcher.cpp:226-304 | in every run without reuse the logs of all threads fit the heap, whatever was left over at the start and whatever is skipped |
| Exactness.RunKeepsKnowing | src/HeapWatcher.cpp:656-777 | and while posted REALLOCs are of own blocks the worker holds a merge of what was posted |
| Exactness.SessionReallocsHitIff | src/HeapWatcher.cpp:280-292 | no merge of what such a session posts brings a REALLOC to a missing record iff its posted REALLOCs are of own blocks |
| Exactness.SessionReportsAreExact | src/HeapWatcher.cpp:226-304 | then no REALLOC misses, and a quiescent report is exactly the blocks posted in the session that are live or whose release the worker is never told |
| Exactness.QuietSessionReportsAreExact | src/HeapWatcher.cpp:226-304 | after a quiet start these are the live ones and those whose release was skipped |
| OwnBlockSessions.HandledIsAMerge | src/HeapWatcher.cpp:656-670 | in every run of the system the worker handles a merge of what the threads have posted |
| OwnBlockSessions.ReportsAreTheOwned | src/HeapWatcher.cpp:226-304 | with reuse, at any quiet moment of a session of own blocks, busy at its start or not and whatever is skipped, the report is exactly the blocks owned by what was posted, whenever no address still owned was ever released by another thread |
| OwnBlockSessions.SessionWithReuseIsExact | src/HeapWatcher.cpp:226-304 | between two quiet moments with nothing skipped these are the blocks live now and not then |
| Session.RunKeepsProtocol | src/HeapWatcher.cpp:149-220 | in every run one thread at most is in a guarded section, the flag is off while starting or stopping, and a blocked caller has exactly one command outstanding |
| Session.OutstandingClear | src/HeapWatcher.cpp:149-171 | a CLEAR is outstanding only while its poster holds the mutex with the flag off, and is the only one |
| Session.PassedCheckMeetsNoClear | src/HeapWatcher.cpp:115-115 | a heap call whose check passes meets no outstanding CLEAR |
| Session.MutexGuardsTheFlag | src/HeapWatcher.cpp:452-480 | only the mutex holder changes the global flag |
| Session.WaitersAreServedInTurn | src/HeapWatcher.cpp:179-219 | a waiting caller's command only moves forward, and the caller wakes in the step that handles it |
| Schedules.CallerIsServed | src/HeapWatcher.cpp:665-785 | every blocked caller goes on once the worker has taken its own queue, whatever the others have queued, unless a REALLOC in it misses |
| Schedules.HolderCanGoOn | src/HeapWatcher.cpp:149-185 | whoever holds the mutex can go on or waits for a request that the worker can take, so the protocol never deadlocks |
| Session.SessionOpens | src/HeapWatcher.cpp:730-743 | handling a CLEAR opens a session |
| Session.OpenSessionOnlyGrows | src/HeapWatcher.cpp:730-743 | from then until a stop is answered no CLEAR is handled; the worker's state is what it was folded with the further requests |
| Session.LinearStopReportsEverything | src/HeapWatcher.cpp:173-185 | with one linear queue the reply to a stop carries the statistics and listing of exactly the requests enqueued before it |
| Stops.StopReportsEverythingIff | src/HeapWatcher.cpp:173-185 | with per-producer queues, every continuation answers the stop only after all heap requests enqueued so far iff, when the flag goes off, no other thread is posting one and no other queue holds one |
| Stops.PreparedAnswerIsFixed | src/HeapWatcher.cpp:173-185 | then the returned list of leaks is fixed at that moment: the worker's state with the caller's own queue folded in, when that queue reallocates no stray |
| Runs.StartIsAnswered | src/HeapWatcher.cpp:149-171 | whatever the other threads are doing, start_watching can run to its end, with the tracker empty and nothing else changed |
| Runs.AskIsEnqueued | src/HeapWatcher.cpp:198-220 | snapshot() enqueues a SNAPSHOT and high_level_stats() a STATS, and waits for just that |
| Runs.CallIsEnqueued | src/HeapWatcher.cpp:226-304 | a watched heap call is enqueued, an allocation when the table does not recognise its trace |
| Runs.GuardPausesAndResumes | src/HeapWatcher.cpp:187-196 | a guard's scope leaves the thread paused inside and the system as it was outside |
| Runs.CaptureIsRecorded | src/HeapWatcher.cpp:585-653 | a capture runs the leaking function with the flag on, turns it off, extends the table and changes nothing else |
| Runs.RefusedWhileWatching | src/HeapWatcher.cpp:153-156 | start and capture change nothing while watched |
| Runs.PausedFreeIsReported | src/HeapWatcher.cpp:294-304 | a run in which a freed block is reported for good |
| Runs.StopCanOvertakeOtherProducers | src/HeapWatcher.cpp:173-185 | a run in which a stop's report misses an earlier request |
| Runs.StaleRequestIsReported | src/HeapWatcher.cpp:149-185 | a run in which a request overtaken by a stop makes the next session report a freed block, with nothing skipped in it |
| Runs.ReallocOfEarlierBlockMisses | src/HeapWatcher.cpp:702-709 | a run that brings the worker to a REALLOC without a record |
| Runs.ReuseMakesReallocMiss | src/HeapWatcher.cpp:702-709 | a run of two fully watched threads with their own blocks that does so because libc reuses an address |
| Runs.ReuseHidesALeak | src/HeapWatcher.cpp:676-682 | a run of two fully watched threads with their own blocks in which a live block is in no report because libc reused its address |
| Provenance.TxnCounter.FetchAdd | src/WorkerRequest.hpp:10-14 | the k-th call ever hands out 1 + k modulo 2^64 |
| Provenance.TxnCounter.MallocRequest | src/WorkerRequest.hpp:145-148 | the k-th MALLOC request carries that id narrowed to 32 bits |
| Provenance.IssuedIdsStayApartIff | include/HeapWatcher.hpp:109-117 | the ids of n calls in a row stay apart after narrowing iff n is at most 2^32 |
| Provenance.EveryRecordHasAChain | src/HeapWatcher.cpp:684-700 | every open record is that of an unbroken chain of requests, none dropped by `emplace`, the block held without a release or CLEAR from each to the next and to the end: its MALLOC's txn id and stack, the newest size and address |
| Provenance.KeptChainIsUnique | src/HeapWatcher.cpp:684-700 | an address has at most one such chain, so with address reuse too it is the originating MALLOC's |
| Provenance.RecordIsThatOfTheChain | src/HeapWatcher.cpp:674-700 | the map holds a record at an address iff the address has such a chain and the record is the chain's |
| Provenance.ReportedRecordHasAChain | src/HeapWatcher.cpp:764-771 | and every reported record is that of such a chain |
| Provenance.ReportIsListedInOrder | src/HeapWatcher.cpp:764-771 | after every stream keys are their records' addresses and the report lists each open block once, ascending |
| Provenance.OpenTxnsAreDistinct | src/WorkerRequest.hpp:145-148 | while MALLOCs carry distinct ids no two open records share one |
| Provenance.MadeRecordsAreToldApart | src/WorkerRequest.hpp:145-148 | so do the ids of open records while their MALLOCs come from at most 2^32 calls in a row, in any order of handling |
| KnownLeaks.LeakTable.IsKnownLeak | src/HeapWatcher.cpp:116-130 | true exactly when some known address stands at some known offset of the trace |
| KnownLeaks.LeakTable.CaptureKnownLeak | src/HeapWatcher.cpp:579-654 | refuses with 2^64-1 while watching; otherwise keeps the old entries, returns the number appended, and each new entry is the leaking frame of a captured allocation, at its offset |
| KnownLeaks.CaptureIsExact | src/HeapWatcher.cpp:629-647 | a capture adds, in order, for each allocation that the table as it then stands does not recognise, the first frame with a leaking symbol at its own offset, and nothing else |
| KnownLeaks.CaptureIsComplete | src/HeapWatcher.cpp:629-647 | a capture keeps earlier entries, keeps pairs distinct and recognises every captured allocation with a leaking symbol |
| KnownLeaks.RecaptureAppendsNothing | src/HeapWatcher.cpp:629-647 | capturing the same allocations again, also after other captures, appends nothing |
| KnownLeaks.CapturedLeakNeverPosts | src/HeapWatcher.cpp:239-247 | an allocation with a captured frame at its captured offset never posts, whatever is captured later |
| KnownLeaks.UnknownAllocationPosts | src/HeapWatcher.cpp:234-243 | an allocation that the table does not recognise posts one MALLOC with its size, address and id and the first four frames past malloc's own |
| Filtering.CheckPostsIff | src/HeapWatcher.cpp:228-248 | an instrumented call with both flags on posts its request iff it is no allocation or no known address stands in its trace at a known offset; otherwise nothing is posted for it |
| Filtering.CapturedLeakIsNeverReported | src/HeapWatcher.cpp:226-278 | in every run of the system, captures included, no allocation whose trace the table recognises at the start is posted, held or reported, unless it was on its way already |
| Filtering.RecordedIsKnown | src/HeapWatcher.cpp:585-653 | after the capture's step and for the rest of the run, earlier entries are kept and every captured allocation with a leaking symbol is recognised |
| Filtering.OnceCapturedNeverReported | src/HeapWatcher.cpp:579-654 | once captured, no later session that begins with an empty map and no recognised allocation on its way ever reports a record whose trace the table recognised at its start, in particular none with a captured trace |
| KnownLeaks.FilterIsPairedIff | src/HeapWatcher.cpp:118-127 | the filter is the paired one iff every captured address was captured at every captured offset |
| KnownLeaks.FilterIsNotPaired | src/HeapWatcher.cpp:118-127 | two leaks at different depths already differ from it |
| Pausing.WatchedThread.Run | src/HeapWatcher.cpp:187-196 | through any tree of guards and re-entrant heap calls the flag is restored, nothing nested posts, and a guard posts only the release of its own token |
| Pausing.AtMostOnePostEach | src/HeapWatcher.cpp:230-248 | each top-level call posts at most once, a paused thread never |
| Pausing.EachActPosts | src/HeapWatcher.cpp:226-304 | in a watched thread every top-level call but a known leak posts its own request and every guard the release of its token, in order |
| Tokens.SavedWhenOpened | src/HeapWatcher.cpp:482-492 | for every order of tokens, a living token holds the flag as it was when it was opened |
| Tokens.RestoredIff | src/HeapWatcher.cpp:482-492 | the thread is watched again iff it was at first and the last step ends a token opened while the flag had its first value |
| Tokens.PausedWhileLivingIff | src/HeapWatcher.cpp:482-492 | a watched thread is paused whenever a token lives iff each token opened when none lived ends when no other lives |
| Tokens.PausedMeansRestored | src/HeapWatcher.cpp:482-492 | and then it is watched again whenever none lives |
| Tokens.PausableThread.Run | src/HeapWatcher.cpp:187-196 | through tokens opened and ended in any order the thread's flag and saved values end so: restored in exactly the orders of `RestoredIff`, on exactly while no token lives in those of `PausedWhileLivingIff` |
| Tokens.CrossedTokensLeaveTheThreadPaused | src/HeapWatcher.cpp:482-492 | the smallest order that fails both |
| Backtrace.DecodeFailsIff | src/BacktraceDemangler.cpp:8-63 | decoding raises an exception iff the line has no '+' after a '(' |
| Backtrace.DecodeRoundTrip | src/BacktraceDemangler.cpp:16-62 | a line rendered from plain texts decodes to them, function demangled when possible |
| Backtrace.DecodedTextsAre | src/BacktraceDemangler.cpp:25-62 | what is cut out of any line that is accepted, also one without brackets or a closing parenthesis |
| Backtrace.SymbolsForAddresses | src/BacktraceDemangler.cpp:65-103 | the loops compute `Symbols`, the decoding of the frames before the first null |
| Backtrace.SymbolsAreTheFrames | src/BacktraceDemangler.cpp:65-103 | that is one entry per frame, entry i decoding line i, an exception iff some line has no '+' after a '(', and nothing when there are no lines |
| Backtrace.TraceRoundTrip | src/BacktraceDemangler.cpp:65-103 | a trace of lines in glibc's format decodes to the texts of exactly its frames before the first null, in order |
| Backtrace.StackTrace | src/AllocationRecord.cpp:7-26 | decodes a record's frames before the first null, all four when there is none; it reads the slot past the array exactly then, and what it finds there makes no difference |

## Left out

- Tracker.Step: does not model a REALLOC without a record, because src/HeapWatcher.cpp:704-706 then reads through `end()`, which is undefined; `Holdings.DefinedIff` says exactly which streams stay clear of it.
- Soundness.SessionReportsAreSound: covers runs in which every REALLOC the worker takes finds its record, for the same reason; so do `Producers.WatchManyRandomHeapOperations` and `Stops.StopReportsEverythingIff`.
- SessionStart.BusyStartIsSoundIff: is an equivalence for addresses that are neither live nor being released when the session begins and that no thread is just returning from libc with; for the others `Soundness.SessionReportsAreSound` gives the sufficient condition.
- Stops.PreparedAnswerIsFixed: is for a caller whose own queue reallocates no address that has strayed; otherwise a snapshot in between can decide whether that REALLOC hits (`Confluence.SnapshotsAreHarmlessIff`).
- Exactness.SessionReportsAreExact: is for sessions without address reuse and speaks of addresses; with reuse see `OwnBlockSessions.ReportsAreTheOwned`, and for what a reported record holds `Provenance.RecordIsThatOfTheChain`.
- FreeCounts.FreeCountsAgreeIff: is for streams without REALLOC, where snapshots can also decide whether a later REALLOC hits.
- Machine.Apply: the worker takes one request per step; that batches make no difference is `Worker.HeapWorker.WorkerMain`. The atomic function pointers are not state: a call may turn out to have gone to libc directly at any time, which covers every timing of the swap.
- Workload.RandomHeapOperations: the deque's own storage is not on the modelled heap, and the random generator is an arbitrary choice.
- Backtrace.StackTrace: reading past the array is undefined in C++; the model gives that read an arbitrary value and nothing else.
- Null results of failed allocations, `realloc` to size 0 or from null, and `free` of null.
- The queue library's internals, timeouts and sleeps; queues are one FIFO sequence per producer.
- `number_of_known_leaks_`, which callers increment unsynchronised and CLEAR does not reset.
- The single-thread instrumentation that collects the allocations of a capture, and `probe_for_malloc_stack_depth`; what they collect is a parameter of the capture.
- Construction, destruction and shutdown of the worker; its loop runs for any finite number of rounds.
- Heap use of the commands themselves (promises, futures) and of the worker.
- The union layout and `memcpy` of `WorkerRequest`; glibc's `backtrace_symbols` and the demangler are arbitrary functions.
- The test fixtures, stream output operators and build files.
