/** The worker thread itself: mutable fields, the reused array of 20 requests, and the three
    loops of `worker_main` (src/HeapWatcher.cpp:656-789), proved against `Tracker`. */
module Worker {
  import opened Requests
  import opened Tracker

  const MAX_REQUESTS_TO_DEQUEUE := 20

  lemma BatchFollows(s: State, arrivals: seq<Request>, taken: nat, k: nat)
    requires taken + k <= |arrivals| && Defined(s, arrivals)
    ensures Defined(s, arrivals[..taken]) && Defined(Fold(s, arrivals[..taken]), arrivals[taken..taken + k])
    ensures Defined(s, arrivals[..taken + k])
    ensures Fold(s, arrivals[..taken + k]) == Fold(Fold(s, arrivals[..taken]), arrivals[taken..taken + k])
    ensures Replies(s, arrivals[..taken + k])
         == Replies(s, arrivals[..taken]) + Replies(Fold(s, arrivals[..taken]), arrivals[taken..taken + k])
  {
    hide Step, RepliesTo, Fold, Defined, Replies;
    assert arrivals[..taken + k] == arrivals[..taken] + arrivals[taken..taken + k];
    assert arrivals == arrivals[..taken + k] + arrivals[taken + k..];
    DefinedPrefix(s, arrivals[..taken + k], arrivals[taken + k..]);
    DefinedPrefix(s, arrivals[..taken], arrivals[taken..taken + k]);
    RepliesConcat(s, arrivals[..taken], arrivals[taken..taken + k]);
  }

  class HeapWorker {
    var allocations: OpenMap
    var freesWithoutMallocs: set<Address>
    var numberOfMallocs: uint64
    var numberOfReallocs: uint64
    var numberOfFrees: uint64
    var bytesAllocated: uint64
    var bytesFreed: uint64
    /** Every promise settled so far, in order. */
    var replies: seq<Reply>
    const requests: array<Request>

    /** The fields are those of `s`, the counters modulo 2^64. */
    ghost predicate Shows(s: State)
      reads this
    {
      && allocations == s.open
      && freesWithoutMallocs == s.strays
      && CurrentStatistics() == StatisticsOf(s)
    }

    function CurrentStatistics(): Statistics
      reads this
    {
      Statistics(numberOfMallocs, numberOfReallocs, numberOfFrees, bytesAllocated, bytesFreed)
    }

    constructor ()
      ensures Shows(EMPTY) && replies == []
      ensures fresh(requests) && requests.Length == MAX_REQUESTS_TO_DEQUEUE
    {
      allocations, freesWithoutMallocs := map[], {};
      numberOfMallocs, numberOfReallocs, numberOfFrees := 0, 0, 0;
      bytesAllocated, bytesFreed := 0, 0;
      replies := [];
      requests := new Request[MAX_REQUESTS_TO_DEQUEUE](_ => Uninitialized);
    }

    /** The entry at `block` leaves the map and is counted as freed. */
    method EraseAsFreed(block: Address, ghost frees: int, ghost freed: int)
      requires block in allocations
      requires numberOfFrees == Wrap(frees) && bytesFreed == Wrap(freed)
      modifies this`allocations, this`numberOfFrees, this`bytesFreed
      ensures allocations == old(allocations) - {block}
      ensures numberOfFrees == Wrap(frees + 1)
      ensures bytesFreed == Wrap(freed + old(allocations)[block].size)
    {
      WrapAbsorbs(frees, 1);
      WrapAbsorbs(freed, allocations[block].size);
      numberOfFrees := Wrap(numberOfFrees + 1);
      bytesFreed := Wrap(bytesFreed + allocations[block].size);
      allocations := allocations - {block};
    }

    /** One stray: `frees` and `bytes` are what the counters would show if the whole map were freed. */
    method ReconcileOne(stray: Address, ghost frees: int, ghost bytes: int)
      requires numberOfFrees == Wrap(frees - |allocations|)
      requires bytesFreed == Wrap(bytes - TotalSize(allocations))
      modifies this`allocations, this`numberOfFrees, this`bytesFreed
      ensures allocations == Without(old(allocations), {stray})
      ensures numberOfFrees == Wrap(frees - |allocations|)
      ensures bytesFreed == Wrap(bytes - TotalSize(allocations))
    {
      assert allocations - {stray} == Without(allocations, {stray});
      if stray in allocations {
        TotalSizeRemove(allocations, stray);
        EraseAsFreed(stray, frees - |allocations|, bytes - TotalSize(allocations));
      } else {
        assert allocations == Without(allocations, {stray});
      }
    }

    /** The loop over the unordered stray set: any iteration order gives `Reconcile`. */
    method ReconcileStrays(ghost s: State)
      requires Shows(s)
      modifies this`allocations, this`numberOfFrees, this`bytesFreed
      ensures Shows(Reconcile(s))
    {
      var rest := freesWithoutMallocs;
      ghost var frees, bytes := s.frees + |s.open|, s.bytesFreed + TotalSize(s.open);
      while rest != {}
        invariant forall a :: a in rest ==> a in s.strays
        invariant forall a :: a in allocations <==> a in s.open && (a in s.strays ==> a in rest)
        invariant forall a :: a in allocations ==> allocations[a] == s.open[a]
        invariant numberOfFrees == Wrap(frees - |allocations|)
        invariant bytesFreed == Wrap(bytes - TotalSize(allocations))
        decreases rest
      {
        hide Wrap, TotalSize, CurrentStatistics, Reconcile;
        var current :| current in rest;
        ReconcileOne(current, frees, bytes);
        rest := rest - {current};
      }
      assert allocations == Without(s.open, s.strays);
    }

    /** Copies the map out in iteration order. */
    method ListAllocations() returns (leaks: seq<AllocationRecord>)
      ensures leaks == Listing(allocations)
    {
      leaks := [];
      var rest := allocations;
      while rest != map[]
        invariant leaks + Listing(rest) == Listing(allocations)
        decreases |rest|
      {
        ghost var least := Smallest(rest);
        var k :| k in rest && forall x :: x in rest ==> k <= x;
        assert k == least;
        assert Listing(rest) == [rest[k]] + Listing(rest - {k});
        leaks, rest := leaks + [rest[k]], rest - {k};
      }
    }

    /** A REALLOC that finds its record: the bytes are exchanged and the revised record re-inserted. */
    method MoveRecord(original: Address, moved: Address, newSize: nat, ghost bytes: int)
      requires original in allocations && bytesAllocated == Wrap(bytes)
      modifies this`allocations, this`bytesAllocated
      ensures bytesAllocated == Wrap(bytes - old(allocations)[original].size + newSize)
      ensures allocations ==
              var prior := old(allocations)[original];
              Emplace(old(allocations) - {original}, moved,
                      AllocationRecord(newSize, moved, prior.txnId, prior.stackTail))
    {
      var prior := allocations[original];
      WrapAbsorbs(bytes, 0 - prior.size);
      WrapAbsorbs(bytes - prior.size, newSize);
      bytesAllocated := Wrap(bytesAllocated - prior.size);
      bytesAllocated := Wrap(bytesAllocated + newSize);
      var revised := AllocationRecord(newSize, moved, prior.txnId, prior.stackTail);
      allocations := allocations - {original};
      allocations := Emplace(allocations, revised.address, revised);
    }

    /** The body of the switch for slot `i`. */
    method HandleSlot(i: nat, ghost s: State)
      requires i < requests.Length && Shows(s) && Handles(s, requests[i])
      modifies this
      ensures Shows(Step(s, requests[i]))
      ensures replies == old(replies) + RepliesTo(s, requests[i])
    {
      hide TotalSize, Reconcile, Listing;
      match requests[i] {
        case Uninitialized =>

        case Malloc(record) =>
          hide Wrap;
          WrapAbsorbs(s.mallocs, 1);
          WrapAbsorbs(s.bytesAllocated, record.size);
          numberOfMallocs := Wrap(numberOfMallocs + 1);
          bytesAllocated := Wrap(bytesAllocated + record.size);
          allocations := Emplace(allocations, record.address, record);

        case Realloc(original, moved, newSize) =>
          hide Wrap;
          WrapAbsorbs(s.reallocs, 1);
          numberOfReallocs := Wrap(numberOfReallocs + 1);
          MoveRecord(original, moved, newSize, s.bytesAllocated);

        case Free(block) =>
          hide Wrap;
          if block in allocations {
            EraseAsFreed(block, s.frees, s.bytesFreed);
          } else {
            freesWithoutMallocs := freesWithoutMallocs + {block};
          }

        case Clear(caller) =>
          numberOfMallocs, numberOfReallocs, numberOfFrees := 0, 0, 0;
          bytesAllocated, bytesFreed := 0, 0;
          allocations, freesWithoutMallocs := map[], {};
          replies := replies + [Cleared(caller)];

        case Snapshot(caller) =>
          hide Wrap;
          ReconcileStrays(s);
          var leaks := ListAllocations();
          replies := replies + [Reported(caller, CurrentStatistics(), leaks)];

        case Stats(caller) =>
          replies := replies + [Counted(caller, CurrentStatistics())];
      }
    }

    /** The `for` loop over a dequeued batch: only the first `n` slots count, whatever the others hold. */
    method ProcessBatch(n: nat, ghost batch: seq<Request>, ghost s: State)
      requires n <= requests.Length && requests[..n] == batch && Shows(s) && Defined(s, batch)
      modifies this
      ensures Shows(Fold(s, batch))
      ensures replies == old(replies) + Replies(s, batch)
    {
      hide Step, RepliesTo, StatisticsOf;
      var i := 0;
      while i < n
        invariant 0 <= i <= n
        invariant Defined(s, batch[..i]) && Shows(Fold(s, batch[..i]))
        invariant replies == old(replies) + Replies(s, batch[..i])
      {
        ghost var ms := batch[..i + 1];
        assert batch == ms + batch[i + 1..];
        DefinedPrefix(s, ms, batch[i + 1..]);
        assert Init(ms) == batch[..i] && Last(ms) == batch[i] == requests[i];
        HandleSlot(i, Fold(s, batch[..i]));
        i := i + 1;
      }
      assert batch[..n] == batch;
    }

    /** `wait_dequeue_bulk_timed`: overwrites the first `k` slots, leaves the others as they were. */
    method Dequeue(arrivals: seq<Request>, taken: nat, k: nat)
      requires taken + k <= |arrivals| && k <= requests.Length
      modifies requests
      ensures requests[..k] == arrivals[taken..taken + k]
      ensures requests[k..] == old(requests[k..])
    {
      var i := 0;
      while i < k
        invariant 0 <= i <= k
        invariant requests[..i] == arrivals[taken..taken + i]
        invariant requests[k..] == old(requests[k..])
      {
        requests[i] := arrivals[taken + i];
        i := i + 1;
      }
    }

    /** One round of the outer loop that finds `k` requests. */
    method Serve(arrivals: seq<Request>, taken: nat, k: nat, ghost s: State, ghost before: seq<Reply>)
      requires taken + k <= |arrivals| && k <= requests.Length
      requires Defined(s, arrivals)
      requires Defined(s, arrivals[..taken]) && Shows(Fold(s, arrivals[..taken]))
      requires replies == before + Replies(s, arrivals[..taken])
      modifies this, requests
      ensures Defined(s, arrivals[..taken + k]) && Shows(Fold(s, arrivals[..taken + k]))
      ensures replies == before + Replies(s, arrivals[..taken + k])
    {
      hide Step, RepliesTo, Fold, Defined, Replies, StatisticsOf;
      Dequeue(arrivals, taken, k);
      BatchFollows(s, arrivals, taken, k);
      ProcessBatch(k, arrivals[taken..taken + k], Fold(s, arrivals[..taken]));
    }

    /** The outer loop. `arrivals` is the order in which the queue yields requests; `offered[j]` is how
        many of them the j-th wait finds ready (0 after a timeout). The worker takes what the waits yield;
        however that cuts the stream into batches, it is where the one-at-a-time fold is and has settled the
        same promises. */
    method WorkerMain(arrivals: seq<Request>, offered: seq<nat>, ghost s: State) returns (taken: nat)
      requires requests.Length == MAX_REQUESTS_TO_DEQUEUE
      requires Shows(s) && Defined(s, arrivals)
      modifies this, requests
      ensures taken == Yield(|arrivals|, offered) <= |arrivals| && Defined(s, arrivals[..taken])
      ensures Shows(Fold(s, arrivals[..taken]))
      ensures replies == old(replies) + Replies(s, arrivals[..taken])
      ensures NonEmptyWaits(offered) >= |arrivals| ==> taken == |arrivals|
    {
      taken := 0;
      var round := 0;
      assert arrivals[..0] == [] && Replies(s, arrivals[..0]) == [] && Fold(s, arrivals[..0]) == s;
      hide Step, RepliesTo, Fold, Defined, Replies, StatisticsOf, Shows;
      while round < |offered|
        invariant 0 <= round <= |offered|
        invariant taken == Yield(|arrivals|, offered[..round]) <= |arrivals|
        invariant Defined(s, arrivals[..taken]) && Shows(Fold(s, arrivals[..taken]))
        invariant replies == old(replies) + Replies(s, arrivals[..taken])
      {
        var k := Min(Min(offered[round], |arrivals| - taken), MAX_REQUESTS_TO_DEQUEUE);
        YieldNext(|arrivals|, offered, round, k);
        hide Min, Yield;
        Serve(arrivals, taken, k, s, old(replies));
        taken, round := taken + k, round + 1;
      }
      assert offered[..round] == offered;
      EnoughWaitsTakeAll(|arrivals|, offered);
    }
  }

  // ----- how much the waits yield -----

  function Min(a: nat, b: nat): nat {
    if a <= b then a else b
  }

  /** Of `total` requests, how many have been taken after waits that found so many ready: never more than 20
      at once, and a wait that finds none is followed by the next. */
  function Yield(total: nat, offered: seq<nat>): nat {
    if offered == [] then 0
    else Min(total, Yield(total, Init(offered)) + Min(Last(offered), MAX_REQUESTS_TO_DEQUEUE))
  }

  function NonEmptyWaits(offered: seq<nat>): nat {
    if offered == [] then 0 else NonEmptyWaits(Init(offered)) + (if Last(offered) > 0 then 1 else 0)
  }

  /** What is ready, up to 20, is what the next wait adds. */
  lemma YieldNext(total: nat, offered: seq<nat>, round: nat, k: nat)
    requires round < |offered| && Yield(total, offered[..round]) <= total
    requires k == Min(Min(offered[round], total - Yield(total, offered[..round])), MAX_REQUESTS_TO_DEQUEUE)
    ensures Yield(total, offered[..round + 1]) == Yield(total, offered[..round]) + k <= total
    ensures k <= 20
  {
    assert Init(offered[..round + 1]) == offered[..round] && Last(offered[..round + 1]) == offered[round];
  }

  /** Each wait that finds something takes at least one request; timeouts, however many, take none away. */
  lemma {:induction false} EnoughWaitsTakeAll(total: nat, offered: seq<nat>)
    ensures Yield(total, offered) <= total
    ensures NonEmptyWaits(offered) >= total ==> Yield(total, offered) == total
    ensures Yield(total, offered) >= Min(total, NonEmptyWaits(offered))
  {
    if offered != [] {
      EnoughWaitsTakeAll(total, Init(offered));
    }
  }
}
