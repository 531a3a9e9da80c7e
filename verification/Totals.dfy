/** The counters and byte totals read off the stream alone: each FREE, REALLOC and SNAPSHOT counts by the
    blocks that the requests before it leave held, and by their newest sizes (src/HeapWatcher.cpp:674-777). */
module Totals {
  import opened Requests
  import opened Tracker
  import opened Counting
  import opened Holdings
  import opened Provenance
  import Ledger

  /** The request at `i` gave the block held at `a` its size. */
  ghost predicate SizedAt(ms: seq<Request>, i: nat, a: Address) {
    && i < |ms| && (ms[i].Malloc? || ms[i].Realloc?) && Target(ms[i]) == a
    && Lands(ms, i) && Stays(ms, i, |ms|, a)
  }

  /** The size of the block held at `a`. */
  ghost function SizeHeld(ms: seq<Request>, a: Address): nat {
    if exists i: nat :: SizedAt(ms, i, a) then
      var i: nat :| SizedAt(ms, i, a);
      Ledger.SizeOf(ms[i])
    else 0
  }

  lemma SizeHeldIs(ms: seq<Request>, a: Address)
    requires Defined(EMPTY, ms) && a in Fold(EMPTY, ms).open
    ensures Fold(EMPTY, ms).open[a].size == SizeHeld(ms, a)
  {
    var chain := EveryRecordHasAChain(ms, a);
    var n := Last(chain);
    hide Fold, Defined, Stays, Lands;
    assert SizedAt(ms, n, a);
    forall i: nat | SizedAt(ms, i, a)
      ensures i == n
    {
      if i < n {
        NothingLandsOnKept(ms, i, n, a);
      } else if n < i {
        NothingLandsOnKept(ms, n, i, a);
      }
    }
  }

  // ----- what a SNAPSHOT removes -----

  /** The addresses to which the stream brings blocks. */
  function Brought(ms: seq<Request>): set<Address> {
    if ms == [] then {}
    else
      Brought(Init(ms))
      + match Last(ms) case Malloc(record) => {record.address} case Realloc(_, moved, _) => {moved} case _ => {}
  }

  lemma {:induction false} AcquiredIsBrought(ms: seq<Request>, i: nat, a: Address)
    requires i < |ms| && Acquires(ms[i], a)
    ensures a in Brought(ms)
  {
    if i < |ms| - 1 {
      AcquiredIsBrought(Init(ms), i, a);
    }
  }

  /** The addresses that are held although they have strayed. */
  ghost function StraysHeld(ms: seq<Request>): set<Address> {
    set a | a in Brought(ms) && Holds(ms, a) && Strayed(ms, a)
  }

  ghost function SizesHeld(ms: seq<Request>, s: set<Address>): nat
    decreases |s|
  {
    if s == {} then 0
    else
      var a :| a in s;
      SizeHeld(ms, a) + SizesHeld(ms, s - {a})
  }

  lemma {:induction false} SizesHeldRemove(ms: seq<Request>, s: set<Address>, k: Address)
    requires k in s
    ensures SizesHeld(ms, s) == SizeHeld(ms, k) + SizesHeld(ms, s - {k})
    decreases |s|
  {
    hide SizeHeld;
    var j :| j in s && SizesHeld(ms, s) == SizeHeld(ms, j) + SizesHeld(ms, s - {j});
    if j != k {
      SizesHeldRemove(ms, s - {j}, k);
      SizesHeldRemove(ms, s - {k}, j);
      assert s - {j} - {k} == s - {k} - {j};
    }
  }

  lemma {:induction false} SizesAddUp(ms: seq<Request>, m: OpenMap)
    requires forall a :: a in m ==> m[a].size == SizeHeld(ms, a)
    ensures TotalSize(m) == SizesHeld(ms, m.Keys) && |m| == |m.Keys|
    decreases |m|
  {
    if m == map[] {
      assert m.Keys == {};
    } else {
      var k :| k in m;
      TotalSizeRemove(m, k);
      SizesHeldRemove(ms, m.Keys, k);
      assert (m - {k}).Keys == m.Keys - {k};
      hide TotalSize, SizesHeld, SizeHeld;
      SizesAddUp(ms, m - {k});
    }
  }

  lemma RemovedAreStraysHeld(ms: seq<Request>)
    requires Defined(EMPTY, ms)
    ensures var s := Fold(EMPTY, ms);
            && |EntriesAt(s.open, s.strays)| == |StraysHeld(ms)|
            && TotalSize(EntriesAt(s.open, s.strays)) == SizesHeld(ms, StraysHeld(ms))
  {
    var s := Fold(EMPTY, ms);
    var removed := EntriesAt(s.open, s.strays);
    hide TotalSize, SizesHeld, SizeHeld, Holds, Strayed, Fold, Defined;
    forall a
      ensures a in removed <==> a in StraysHeld(ms)
      ensures a in removed ==> removed[a].size == SizeHeld(ms, a)
    {
      OpenIffHolds(ms, a);
      if Holds(ms, a) {
        HeldIsBrought(ms, a);
        SizeHeldIs(ms, a);
      }
    }
    assert removed.Keys == StraysHeld(ms);
    SizesAddUp(ms, removed);
  }

  lemma HeldIsBrought(ms: seq<Request>, a: Address)
    requires Holds(ms, a)
    ensures a in Brought(ms)
  {
    var i: nat :| KeptSince(ms, i, a);
    AcquiredIsBrought(ms, i, a);
  }

  // ----- the totals -----

  /** Since the last CLEAR: the FREEs of held blocks, and the blocks that SNAPSHOTs removed. */
  ghost function FreesIn(ms: seq<Request>): nat {
    if ms == [] || Last(ms).Clear? then 0
    else
      FreesIn(Init(ms))
      + match Last(ms)
        case Free(block) => if Holds(Init(ms), block) then 1 else 0
        case Snapshot(_) => |StraysHeld(Init(ms))|
        case _ => 0
  }

  /** ... and their sizes. */
  ghost function BytesFreedIn(ms: seq<Request>): nat {
    if ms == [] || Last(ms).Clear? then 0
    else
      BytesFreedIn(Init(ms))
      + match Last(ms)
        case Free(block) => if Holds(Init(ms), block) then SizeHeld(Init(ms), block) else 0
        case Snapshot(_) => SizesHeld(Init(ms), StraysHeld(Init(ms)))
        case _ => 0
  }

  /** The sizes of the MALLOCs, and for each REALLOC its new size less that of the block it moves. */
  ghost function BytesAllocatedIn(ms: seq<Request>): int {
    if ms == [] || Last(ms).Clear? then 0
    else
      BytesAllocatedIn(Init(ms))
      + match Last(ms)
        case Malloc(record) => record.size
        case Realloc(original, _, newSize) => newSize - SizeHeld(Init(ms), original)
        case _ => 0
  }

  lemma StepAddsToTotals(zs: seq<Request>, r: Request)
    requires Defined(EMPTY, zs) && Handles(Fold(EMPTY, zs), r) && !r.Clear?
    ensures var s, s' := Fold(EMPTY, zs), Step(Fold(EMPTY, zs), r);
            && s'.frees == s.frees + FreesIn(zs + [r]) - FreesIn(zs)
            && s'.bytesFreed == s.bytesFreed + BytesFreedIn(zs + [r]) - BytesFreedIn(zs)
            && s'.bytesAllocated == s.bytesAllocated + BytesAllocatedIn(zs + [r]) - BytesAllocatedIn(zs)
  {
    assert Init(zs + [r]) == zs && Last(zs + [r]) == r;
    hide TotalSize, SizesHeld, SizeHeld, Holds, Strayed, Fold, Defined, StraysHeld;
    match r
    case Free(block) =>
      OpenIffHolds(zs, block);
      if Holds(zs, block) {
        SizeHeldIs(zs, block);
      }
    case Realloc(original, _, _) => SizeHeldIs(zs, original);
    case Snapshot(_) =>
      ReconcileCountsWhatItRemoves(Fold(EMPTY, zs));
      RemovedAreStraysHeld(zs);
    case _ =>
  }

  /** After every stream the free counter and both byte totals are the stream's own. */
  lemma {:induction false} TotalsAreTheStreams(ms: seq<Request>)
    requires Defined(EMPTY, ms)
    ensures Fold(EMPTY, ms).frees == FreesIn(ms)
    ensures Fold(EMPTY, ms).bytesFreed == BytesFreedIn(ms)
    ensures Fold(EMPTY, ms).bytesAllocated == BytesAllocatedIn(ms)
  {
    if ms != [] && !Last(ms).Clear? {
      var zs, r := Init(ms), Last(ms);
      assert ms == zs + [r] && Fold(EMPTY, ms) == Step(Fold(EMPTY, zs), r);
      hide Fold, Defined, Step, FreesIn, BytesFreedIn, BytesAllocatedIn;
      TotalsAreTheStreams(zs);
      StepAddsToTotals(zs, r);
    }
  }

  /** Only FREEs and SNAPSHOTs free: REALLOCs, whatever sizes they give, leave the freed bytes alone. */
  lemma {:induction false} NothingFreedWithoutFree(ms: seq<Request>)
    requires forall i :: 0 <= i < |ms| ==> !ms[i].Free? && !ms[i].Snapshot?
    ensures FreesIn(ms) == 0 && BytesFreedIn(ms) == 0
  {
    if ms != [] {
      assert !ms[|ms| - 1].Free? && !ms[|ms| - 1].Snapshot?;
      NothingFreedWithoutFree(Init(ms));
    }
  }
}
