/** `RandomHeapOperations` (unit_tests/TestWorkloads.cpp:67-137) on a watched heap whose allocator may
    return any block that is not live, reused or not. */
module Workload {
  import opened Requests
  import opened Tracker
  import opened ReferenceHeap
  import Ledger

  const MIN_BLOCKS_FOR_REALLOC := 10
  const MIN_ALLOCATION_SIZE := 2
  const MAX_ALLOCATION_SIZE := 1024

  lemma {:induction false} FreshAddressExists(used: set<Address>) returns (a: Address)
    ensures a != NULLPTR && a !in used
    ensures forall x :: x in used ==> x < a
    decreases |used|
  {
    if used == {} {
      a := 1;
    } else {
      var x :| x in used;
      a := FreshAddressExists(used - {x});
      a := if a <= x then x + 1 else a;
      assert forall y :: y in used ==> y == x || y in used - {x};
    }
  }

  /** The heap functions as a watched thread sees them: the libc call, then the request it posts
      (src/HeapWatcher.cpp:226-304). */
  class WatchedHeap {
    ghost const start: Heap
    var live: Heap
    var posted: seq<Request>

    ghost predicate Valid()
      reads this
    {
      LegalRun(start, posted) && Run(start, posted) == live
    }

    constructor (start: Heap)
      ensures Valid() && live == start && this.start == start && posted == []
    {
      this.start := start;
      live, posted := start, [];
    }

    method Post(r: Request)
      requires Valid() && Legal(live, r)
      modifies this
      ensures Valid() && live == Apply(old(live), r) && posted == old(posted) + [r]
    {
      assert Init(posted + [r]) == posted && Last(posted + [r]) == r;
      live, posted := Apply(live, r), posted + [r];
    }

    method Malloc(size: nat) returns (block: Address)
      requires Valid()
      modifies this
      ensures Valid() && block != NULLPTR && block !in old(live)
      ensures live == old(live)[block := size]
      ensures exists r :: posted == old(posted) + [Request.Malloc(r)]
    {
      ghost var fresh' := FreshAddressExists(live.Keys);
      assert fresh' != NULLPTR && fresh' !in live;
      block :| block != NULLPTR && block !in live;
      var txnId: nat, stackTail: seq<Address> := *, *;
      var record := AllocationRecord(size, block, txnId, stackTail);
      Post(Request.Malloc(record));
    }

    method Realloc(original: Address, size: nat) returns (block: Address)
      requires Valid() && original in live
      modifies this
      ensures Valid() && (block == original || block !in old(live))
      ensures live == (old(live) - {original})[block := size]
      ensures posted == old(posted) + [Request.Realloc(original, block, size)]
    {
      block :| block == original || (block != NULLPTR && block !in live);
      Post(Request.Realloc(original, block, size));
    }

    method Free(block: Address)
      requires Valid() && block in live
      modifies this
      ensures Valid() && live == old(live) - {block}
      ensures posted == old(posted) + [Request.Free(block)]
    {
      Post(Request.Free(block));
    }
  }

  ghost predicate Distinct(s: seq<Address>) {
    forall i, j :: 0 <= i < j < |s| ==> s[i] != s[j]
  }

  /** The deque after an indexed overwrite with the last element and a pop. */
  function SwapRemove(s: seq<Address>, i: nat): seq<Address>
    requires i < |s|
  {
    s[i := s[|s| - 1]][..|s| - 1]
  }

  lemma SwapRemoveDropsOne(s: seq<Address>, i: nat)
    requires i < |s| && Distinct(s)
    ensures Distinct(SwapRemove(s, i))
    ensures forall a :: a in SwapRemove(s, i) <==> a in s && a != s[i]
  {
    var t := SwapRemove(s, i);
    forall a | a in s && a != s[i]
      ensures a in t
    {
      var j :| 0 <= j < |s| && s[j] == a;
      assert if j == |s| - 1 then t[i] == a else t[j] == a;
    }
  }

  /** The heap holds what it held at the start and the workload's blocks, and nothing else. */
  ghost predicate Owns(live: Heap, others: Heap, blocks: seq<Address>) {
    && Distinct(blocks)
    && (forall a :: a in live <==> a in others || a in blocks)
    && (forall a :: a in blocks ==> a !in others)
    && (forall a :: a in others ==> a in live && live[a] == others[a])
  }

  lemma OwnsAfterRealloc(live: Heap, others: Heap, blocks: seq<Address>, i: nat, moved: Address, size: nat)
    requires Owns(live, others, blocks) && i < |blocks|
    requires moved == blocks[i] || moved !in live
    ensures Owns((live - {blocks[i]})[moved := size], others, blocks[i := moved])
  {
    var after := blocks[i := moved];
    forall a | a in blocks && a != blocks[i]
      ensures a in after
    {
      var j :| 0 <= j < |blocks| && blocks[j] == a;
      assert after[j] == a;
    }
    assert after[i] == moved;
    assert forall a :: a in after ==> a == moved || (a in blocks && a != blocks[i]);
  }

  lemma OwnsAfterFree(live: Heap, others: Heap, blocks: seq<Address>, i: nat)
    requires Owns(live, others, blocks) && i < |blocks|
    ensures blocks[i] in live
    ensures Owns(live - {blocks[i]}, others, SwapRemove(blocks, i))
  {
    assert blocks[i] in blocks;
    SwapRemoveDropsOne(blocks, i);
  }

  lemma OwnsAfterFirstFree(live: Heap, others: Heap, blocks: seq<Address>)
    requires Owns(live, others, blocks) && blocks != []
    ensures blocks[0] in live
    ensures Owns(live - {blocks[0]}, others, blocks[1..])
  {
    assert blocks == [blocks[0]] + blocks[1..];
  }

  lemma OwnsNothing(live: Heap, others: Heap)
    ensures Owns(live, others, []) ==> live == others
  {
  }

  /** What the stream says about the requests posted so far. */
  ghost predicate Tally(posted: seq<Request>, mallocs: int, reallocs: int, frees: int) {
    && Ledger.MallocsIn(posted) == mallocs
    && Ledger.ReallocsIn(posted) == reallocs
    && FreesIn(posted) == frees
  }

  lemma TallyOneMore(posted: seq<Request>, r: Request, mallocs: int, reallocs: int, frees: int)
    requires Tally(posted, mallocs, reallocs, frees) && !r.Clear?
    ensures Tally(posted + [r], mallocs + (if r.Malloc? then 1 else 0),
                  reallocs + (if r.Realloc? then 1 else 0), frees + (if r.Free? then 1 else 0))
  {
    assert Init(posted + [r]) == posted && Last(posted + [r]) == r;
  }

  /** Case 2 of the switch, before it falls through. */
  method ReallocSome(heap: WatchedHeap, blocks: seq<Address>, ghost others: Heap)
    returns (after: seq<Address>, reallocs: nat)
    requires heap.Valid() && Owns(heap.live, others, blocks)
    modifies heap
    ensures heap.Valid() && Owns(heap.live, others, after) && |after| == |blocks|
    ensures reallocs == if |blocks| > MIN_BLOCKS_FOR_REALLOC then 1 else 0
    ensures reallocs == 0 ==> heap.posted == old(heap.posted)
    ensures reallocs == 1 ==> exists o, n, z :: heap.posted == old(heap.posted) + [Request.Realloc(o, n, z)]
  {
    after, reallocs := blocks, 0;
    if |blocks| > MIN_BLOCKS_FOR_REALLOC {
      var index: nat :| index < |blocks|;
      var size: nat :| MIN_ALLOCATION_SIZE <= size <= MAX_ALLOCATION_SIZE;
      assert blocks[index] in blocks;
      ghost var before := heap.live;
      var moved := heap.Realloc(blocks[index], size);
      OwnsAfterRealloc(before, others, blocks, index, moved, size);
      after, reallocs := blocks[index := moved], 1;
    }
  }

  /** Case 3 of the switch: a random block is freed and removed by swap-and-pop. */
  method FreeSome(heap: WatchedHeap, blocks: seq<Address>, ghost others: Heap)
    returns (after: seq<Address>, frees: nat)
    requires heap.Valid() && Owns(heap.live, others, blocks)
    modifies heap
    ensures heap.Valid() && Owns(heap.live, others, after) && |after| == |blocks| - frees
    ensures frees == if |blocks| > MIN_BLOCKS_FOR_REALLOC then 1 else 0
    ensures frees == 0 ==> heap.posted == old(heap.posted)
    ensures frees == 1 ==> exists b :: heap.posted == old(heap.posted) + [Request.Free(b)]
  {
    after, frees := blocks, 0;
    if |blocks| > MIN_BLOCKS_FOR_REALLOC {
      var index: nat :| index < |blocks|;
      OwnsAfterFree(heap.live, others, blocks, index);
      heap.Free(blocks[index]);
      frees := 1;
      if index != |blocks| - 1 {
        after := after[index := after[|after| - 1]];
      }
      after := after[..|after| - 1];
      assert after == SwapRemove(blocks, index);
    }
  }

  /** The blocks held and the three counters. */
  datatype Progress = Progress(blocks: int, mallocs: int, reallocs: int, frees: int)

  /** Two of the four cases allocate. The other two free a block when there are more than ten; the one that
      also reallocates falls through, so a realloc never comes without a free. */
  function AfterOperation(p: Progress, operation: int): Progress {
    if operation <= 1 then p.(blocks := p.blocks + 1, mallocs := p.mallocs + 1)
    else if p.blocks > MIN_BLOCKS_FOR_REALLOC then
      Progress(p.blocks - 1, p.mallocs, p.reallocs + (if operation == 2 then 1 else 0), p.frees + 1)
    else p
  }

  function AfterOperations(operations: seq<int>): Progress {
    if operations == [] then Progress(0, 0, 0, 0)
    else AfterOperation(AfterOperations(Init(operations)), Last(operations))
  }

  lemma OneMoreOperation(operations: seq<int>, operation: int)
    ensures AfterOperations(operations + [operation]) == AfterOperation(AfterOperations(operations), operation)
  {
    assert Init(operations + [operation]) == operations && Last(operations + [operation]) == operation;
  }

  lemma {:induction false} ReallocsComeWithFrees(operations: seq<int>)
    ensures AfterOperations(operations).reallocs <= AfterOperations(operations).frees
  {
    if operations != [] {
      ReallocsComeWithFrees(Init(operations));
    }
  }

  /** One pass through the switch. */
  method RandomOperation(heap: WatchedHeap, blocks: seq<Address>, ghost others: Heap,
                         mallocs: nat, reallocs: nat, frees: nat,
                         ghost m0: nat, ghost r0: nat, ghost f0: nat)
    returns (blocks': seq<Address>, mallocs': nat, reallocs': nat, frees': nat, operation: int)
    requires heap.Valid() && Owns(heap.live, others, blocks) && |blocks| == mallocs - frees
    requires Tally(heap.posted, m0 + mallocs, r0 + reallocs, f0 + frees)
    modifies heap
    ensures heap.Valid() && Owns(heap.live, others, blocks') && |blocks'| == mallocs' - frees'
    ensures Tally(heap.posted, m0 + mallocs', r0 + reallocs', f0 + frees')
    ensures |blocks'| <= |blocks| + 1 && 0 <= operation <= 3
    ensures Progress(|blocks'|, mallocs', reallocs', frees')
         == AfterOperation(Progress(|blocks|, mallocs, reallocs, frees), operation)
  {
    hide Run, LegalRun, FreesIn, Ledger.MallocsIn, Ledger.ReallocsIn;
    blocks', mallocs', reallocs', frees' := blocks, mallocs, reallocs, frees;
    operation :| 0 <= operation <= 3;
    ghost var before := heap.posted;
    if operation <= 1 {
      var size: nat :| MIN_ALLOCATION_SIZE <= size <= MAX_ALLOCATION_SIZE;
      var block := heap.Malloc(size);
      ghost var r :| heap.posted == before + [Request.Malloc(r)];
      TallyOneMore(before, Request.Malloc(r), m0 + mallocs, r0 + reallocs, f0 + frees);
      blocks' := blocks + [block];
      mallocs' := mallocs + 1;
    } else {
      var done;
      if operation == 2 {
        blocks', done := ReallocSome(heap, blocks, others);
        if done == 1 {
          ghost var o, n, z :| heap.posted == before + [Request.Realloc(o, n, z)];
          TallyOneMore(before, Request.Realloc(o, n, z), m0 + mallocs, r0 + reallocs, f0 + frees);
        }
        reallocs' := reallocs + done;
      }
      before := heap.posted;
      blocks', done := FreeSome(heap, blocks', others);
      if done == 1 {
        ghost var b :| heap.posted == before + [Request.Free(b)];
        TallyOneMore(before, Request.Free(b), m0 + mallocs, r0 + reallocs', f0 + frees);
      }
      frees' := frees + done;
    }
  }

  /** The final loop. */
  method FreeAll(heap: WatchedHeap, blocks: seq<Address>, ghost others: Heap, ghost m: nat, ghost r: nat, ghost f: nat)
    requires heap.Valid() && Owns(heap.live, others, blocks) && Tally(heap.posted, m, r, f)
    modifies heap
    ensures heap.Valid() && heap.live == others
    ensures Tally(heap.posted, m, r, f + |blocks|)
  {
    hide Run, LegalRun, Owns, Tally;
    var k := 0;
    while k < |blocks|
      invariant 0 <= k <= |blocks|
      invariant heap.Valid() && Owns(heap.live, others, blocks[k..])
      invariant Tally(heap.posted, m, r, f + k)
    {
      OwnsAfterFirstFree(heap.live, others, blocks[k..]);
      assert blocks[k..][1..] == blocks[k + 1..];
      TallyOneMore(heap.posted, Request.Free(blocks[k]), m, r, f + k);
      heap.Free(blocks[k]);
      k := k + 1;
    }
    OwnsNothing(heap.live, others);
    assert blocks[k..] == [];
  }

  /** For every operation count and every sequence of random choices and addresses, the heap ends as it
      began, every malloc matched by exactly one free. */
  method RandomHeapOperations(heap: WatchedHeap, numOperations: int)
    returns (mallocs: nat, reallocs: nat, frees: nat, ghost operations: seq<int>)
    requires heap.Valid()
    modifies heap
    ensures heap.Valid() && heap.live == old(heap.live)
    ensures Tally(heap.posted, old(Ledger.MallocsIn(heap.posted)) + mallocs,
                  old(Ledger.ReallocsIn(heap.posted)) + reallocs, old(FreesIn(heap.posted)) + mallocs)
    ensures frees <= mallocs && reallocs <= frees
    ensures |operations| == if numOperations > 0 then numOperations else 0
    ensures forall o :: o in operations ==> 0 <= o <= 3
    ensures Progress(mallocs - frees, mallocs, reallocs, frees) == AfterOperations(operations)
  {
    ghost var others := heap.live;
    ghost var m0, r0, f0 :=
      Ledger.MallocsIn(heap.posted), Ledger.ReallocsIn(heap.posted), FreesIn(heap.posted);
    var heapBlocks: seq<Address> := [];
    mallocs, reallocs, frees, operations := 0, 0, 0, [];
    var i := 0;
    assert Owns(heap.live, others, heapBlocks) && Tally(heap.posted, m0, r0, f0);
    assert AfterOperations([]) == Progress(0, 0, 0, 0);
    hide Run, LegalRun, FreesIn, Owns, Tally, Ledger.MallocsIn, Ledger.ReallocsIn, AfterOperation, AfterOperations;
    while i < numOperations
      invariant 0 <= i == |operations| && (i <= numOperations || i == 0)
      invariant forall o :: o in operations ==> 0 <= o <= 3
      invariant Progress(|heapBlocks|, mallocs, reallocs, frees) == AfterOperations(operations)
      invariant heap.Valid() && Owns(heap.live, others, heapBlocks) && |heapBlocks| == mallocs - frees <= i
      invariant Tally(heap.posted, m0 + mallocs, r0 + reallocs, f0 + frees)
    {
      var operation;
      heapBlocks, mallocs, reallocs, frees, operation :=
        RandomOperation(heap, heapBlocks, others, mallocs, reallocs, frees, m0, r0, f0);
      OneMoreOperation(operations, operation);
      operations := operations + [operation];
      i := i + 1;
    }
    ReallocsComeWithFrees(operations);
    FreeAll(heap, heapBlocks, others, m0 + mallocs, r0 + reallocs, f0 + frees);
  }

  /** Composed with the tracker: a session around the workload ends with an empty report, as many frees
      as mallocs, and as many bytes freed as allocated. */
  method WatchRandomHeapOperations(numOperations: int) returns (posted: seq<Request>, mallocs: nat)
    ensures Defined(EMPTY, posted)
    ensures LeakFree(Reconcile(Fold(EMPTY, posted)))
    ensures Reconcile(Fold(EMPTY, posted)).frees == mallocs
  {
    var heap := new WatchedHeap(map[]);
    var reallocs, frees;
    ghost var operations;
    mallocs, reallocs, frees, operations := RandomHeapOperations(heap, numOperations);
    posted := heap.posted;
    SessionWithoutLeaks(posted);
  }
}
