/** The statistics add up in every reachable state of the worker (src/HeapWatcher.cpp:674-777). */
module Ledger {
  import opened Requests
  import opened Tracker

  // What the stream itself says since its last CLEAR.

  function MallocsIn(ms: seq<Request>): nat {
    if ms == [] || Last(ms).Clear? then 0
    else MallocsIn(Init(ms)) + (if Last(ms).Malloc? then 1 else 0)
  }

  function ReallocsIn(ms: seq<Request>): nat {
    if ms == [] || Last(ms).Clear? then 0
    else ReallocsIn(Init(ms)) + (if Last(ms).Realloc? then 1 else 0)
  }

  /** Does `emplace` find its key occupied, so that the block's record is dropped? */
  ghost predicate Drops(s: State, r: Request) {
    || (r.Malloc? && r.record.address in s.open)
    || (r.Realloc? && r.moved != r.original && r.moved in s.open)
  }

  ghost function Dropped(ms: seq<Request>): nat
    requires Defined(EMPTY, ms)
  {
    if ms == [] || Last(ms).Clear? then 0
    else Dropped(Init(ms)) + (if Drops(Fold(EMPTY, Init(ms)), Last(ms)) then 1 else 0)
  }

  function SizeOf(r: Request): nat {
    match r
    case Malloc(record) => record.size
    case Realloc(_, _, newSize) => newSize
    case _ => 0
  }

  ghost function DroppedBytes(ms: seq<Request>): nat
    requires Defined(EMPTY, ms)
  {
    if ms == [] || Last(ms).Clear? then 0
    else DroppedBytes(Init(ms)) + (if Drops(Fold(EMPTY, Init(ms)), Last(ms)) then SizeOf(Last(ms)) else 0)
  }

  ghost predicate Balanced(s: State, dropped: nat, droppedBytes: nat) {
    && s.mallocs == s.frees + |s.open| + dropped
    && s.bytesAllocated == s.bytesFreed + TotalSize(s.open) + droppedBytes
    && s.frees >= 0
    && s.bytesFreed >= 0
  }

  lemma EmplaceCounts(m: OpenMap, key: Address, value: AllocationRecord)
    ensures key in m ==> Emplace(m, key, value) == m
    ensures key !in m ==> |Emplace(m, key, value)| == |m| + 1
    ensures key !in m ==> TotalSize(Emplace(m, key, value)) == TotalSize(m) + value.size
  {
    if key !in m {
      TotalSizeAdd(m, key, value);
    }
  }

  lemma StepKeepsBalance(s: State, r: Request, dropped: nat, droppedBytes: nat)
    requires Balanced(s, dropped, droppedBytes) && Handles(s, r) && !r.Clear?
    ensures Balanced(Step(s, r),
                     dropped + (if Drops(s, r) then 1 else 0),
                     droppedBytes + (if Drops(s, r) then SizeOf(r) else 0))
    ensures Step(s, r).mallocs == s.mallocs + (if r.Malloc? then 1 else 0)
    ensures Step(s, r).reallocs == s.reallocs + (if r.Realloc? then 1 else 0)
  {
    match r
    case Malloc(record) =>
      EmplaceCounts(s.open, record.address, record);
    case Realloc(original, moved, newSize) =>
      TotalSizeRemove(s.open, original);
      var prior := s.open[original];
      EmplaceCounts(s.open - {original}, moved, AllocationRecord(newSize, moved, prior.txnId, prior.stackTail));
    case Free(block) =>
      if block in s.open {
        TotalSizeRemove(s.open, block);
      }
    case Snapshot(_) =>
      ReconcileCountsWhatItRemoves(s);
    case _ =>
  }

  /** Every MALLOC counted is freed, still open, or was dropped by `emplace`; likewise its bytes. */
  lemma {:induction false} LedgerBalances(ms: seq<Request>)
    requires Defined(EMPTY, ms)
    ensures Fold(EMPTY, ms).mallocs == MallocsIn(ms)
    ensures Fold(EMPTY, ms).reallocs == ReallocsIn(ms)
    ensures Balanced(Fold(EMPTY, ms), Dropped(ms), DroppedBytes(ms))
  {
    if ms == [] || Last(ms).Clear? {
    } else {
      hide Step, TotalSize, Drops, SizeOf;
      LedgerBalances(Init(ms));
      StepKeepsBalance(Fold(EMPTY, Init(ms)), Last(ms), Dropped(Init(ms)), DroppedBytes(Init(ms)));
    }
  }

  /** `bytes_allocated_ -= record->second.size()` (src/HeapWatcher.cpp:691) never goes below zero. */
  lemma ReallocNeverUnderflows(ms: seq<Request>, r: Request)
    requires Defined(EMPTY, ms) && r.Realloc? && Handles(Fold(EMPTY, ms), r)
    ensures Fold(EMPTY, ms).open[r.original].size <= Fold(EMPTY, ms).bytesAllocated
  {
    LedgerBalances(ms);
    TotalSizeRemove(Fold(EMPTY, ms).open, r.original);
  }

  /** While the two allocation totals fit in 64 bits, all five reported statistics are the true ones. */
  lemma StatisticsAreExact(ms: seq<Request>)
    requires Defined(EMPTY, ms)
    requires MallocsIn(ms) < UINT64_RANGE && ReallocsIn(ms) < UINT64_RANGE
    requires Fold(EMPTY, ms).bytesAllocated < UINT64_RANGE
    ensures var s := Fold(EMPTY, ms);
            var shown := StatisticsOf(s);
            && shown.mallocs == s.mallocs && shown.reallocs == s.reallocs && shown.frees == s.frees
            && shown.bytesAllocated == s.bytesAllocated && shown.bytesFreed == s.bytesFreed
  {
    LedgerBalances(ms);
  }

  lemma {:induction false} NothingDroppedNoBytes(ms: seq<Request>)
    requires Defined(EMPTY, ms) && Dropped(ms) == 0
    ensures DroppedBytes(ms) == 0
  {
    if ms != [] && !Last(ms).Clear? {
      NothingDroppedNoBytes(Init(ms));
    }
  }

  lemma BalancedReport(s: State, dropped: nat, droppedBytes: nat)
    requires Balanced(s, dropped, droppedBytes)
    ensures Balanced(Reconcile(s), dropped, droppedBytes)
  {
    StepKeepsBalance(s, Snapshot(0), dropped, droppedBytes);
  }

  ghost predicate CountsAgreeIffLeakFree(report: State) {
    && (report.mallocs == report.frees <==> report.open == map[])
    && (report.open == map[] ==> report.bytesAllocated == report.bytesFreed)
  }

  lemma BalancedCounts(s: State)
    requires Balanced(s, 0, 0)
    ensures CountsAgreeIffLeakFree(s)
  {
    assert |s.open| == 0 <==> s.open == map[];
  }

  /** A report whose stream dropped nothing shows as many frees as mallocs exactly when it lists no leak,
      and then as many bytes freed as allocated. */
  lemma LeakFreeIffCountsAgree(ms: seq<Request>)
    requires Defined(EMPTY, ms) && Dropped(ms) == 0
    ensures CountsAgreeIffLeakFree(Reconcile(Fold(EMPTY, ms)))
  {
    LedgerBalances(ms);
    NothingDroppedNoBytes(ms);
    BalancedReport(Fold(EMPTY, ms), 0, 0);
    BalancedCounts(Reconcile(Fold(EMPTY, ms)));
  }
}
