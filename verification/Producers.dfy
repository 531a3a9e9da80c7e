/** Several producers at once, each releasing and reallocating only blocks of its own: the stress tests of
    unit_tests/BasicTests.cpp:255-306. Addresses may be reused between producers. */
module Producers {
  import opened Requests
  import opened Tracker
  import opened Counting
  import opened ReferenceHeap
  import opened PostLogs
  import opened Soundness
  import opened Merges
  import Workload

  /** Each log is a legal run of a heap that holds only that producer's own blocks. */
  ghost predicate OwnBlocksOnly(logs: Logs) {
    forall t :: 0 <= t < |logs| ==> LegalRun(map[], logs[t])
  }

  lemma {:induction false} LegalRunCounts(h: Heap, ms: seq<Request>, a: Address)
    requires LegalRun(h, ms)
    ensures Gross(ms, a) == (if a in Run(h, ms) then 1 else 0) - (if a in h then 1 else 0)
  {
    if ms != [] {
      LegalRunCounts(h, Init(ms), a);
    }
  }

  lemma {:induction false} LegalRunHasNoClear(h: Heap, ms: seq<Request>)
    requires LegalRun(h, ms)
    ensures forall k :: 0 <= k < |ms| ==> !ms[k].Clear?
  {
    if ms != [] {
      LegalRunHasNoClear(h, Init(ms));
      assert forall k :: 0 <= k < |ms| - 1 ==> ms[k] == Init(ms)[k];
    }
  }

  lemma {:induction false} LegalPrefix(h: Heap, ms: seq<Request>, n: nat)
    requires LegalRun(h, ms) && n <= |ms|
    ensures LegalRun(h, ms[..n])
    ensures n < |ms| ==> Legal(Run(h, ms[..n]), ms[n]) && Run(h, ms[..n + 1]) == Apply(Run(h, ms[..n]), ms[n])
    decreases |ms|
  {
    if n == |ms| {
      assert ms[..n] == ms;
    } else {
      assert Init(ms[..n + 1]) == ms[..n];
      if n == |ms| - 1 {
        assert ms[..n] == Init(ms) && ms[..n + 1] == ms;
      } else {
        LegalPrefix(h, Init(ms), n);
        assert Init(ms)[..n] == ms[..n] && Init(ms)[n] == ms[n];
      }
    }
  }

  // ----- when no REALLOC misses, with reuse -----

  /** No block that a thread reallocates is released by another thread, at any time. */
  ghost predicate ReallocsAlone(logs: Logs) {
    forall t, k, t', k', a :: ReallocsAt(logs, t, k, a) && LosesAt(logs, t', k', a) ==> t' == t
  }

  /** Nobody but `t` releases a block at `a`. */
  ghost predicate SoleLoser(logs: Logs, t: nat, a: Address) {
    forall t': nat, k: nat :: LosesAt(logs, t', k, a) ==> t' == t
  }

  /** What `t` owns at `a` is open, and no FREE of it has strayed. */
  ghost predicate Tracks(s: State, owned: Heap, a: Address) {
    a !in s.strays && (a in owned ==> a in s.open)
  }

  lemma OwnStepTracks(s: State, owned: Heap, r: Request, a: Address)
    requires Tracks(s, owned, a) && Legal(owned, r) && Handles(s, r)
    ensures Tracks(Step(s, r), Apply(owned, r), a)
  {
  }

  lemma OtherStepTracks(s: State, owned: Heap, r: Request, a: Address)
    requires Tracks(s, owned, a) && !Loses(r, a) && !r.Clear? && Handles(s, r)
    ensures Tracks(Step(s, r), owned, a)
  {
  }

  /** Whatever other threads do at `a` short of releasing it, and however the logs are merged. */
  lemma {:induction false} SoleLoserIsTracked(logs: Logs, order: seq<nat>, t: nat, a: Address)
    requires OwnBlocksOnly(logs) && IsOrder(logs, order) && Defined(EMPTY, Merge(logs, order))
    requires t < |logs| && SoleLoser(logs, t, a)
    ensures Served(order, t) <= |logs[t]|
    ensures Tracks(Fold(EMPTY, Merge(logs, order)), Run(map[], logs[t][..Served(order, t)]), a)
  {
    ServedFits(logs, order);
    if order != [] {
      var before, u := Init(order), Last(order);
      var k := Served(before, u);
      var s, r := Fold(EMPTY, Merge(logs, before)), logs[u][k];
      assert Init(Merge(logs, order)) == Merge(logs, before) && Last(Merge(logs, order)) == r;
      SoleLoserIsTracked(logs, before, t, a);
      LegalPrefix(map[], logs[u], k);
      hide Step, Handles, Tracks, LegalRun, Run, Apply;
      if u == t {
        OwnStepTracks(s, Run(map[], logs[t][..k]), r, a);
      } else {
        assert LosesAt(logs, u, k, a) <==> Loses(r, a);
        LegalIsNoClear(Run(map[], logs[u][..k]), r);
        OtherStepTracks(s, Run(map[], logs[t][..Served(before, t)]), r, a);
      }
    }
  }

  lemma LegalIsNoClear(h: Heap, r: Request)
    requires Legal(h, r)
    ensures !r.Clear? && (r.Realloc? ==> r.original in h)
  {
  }

  lemma {:induction false} AloneIsHandled(logs: Logs, order: seq<nat>)
    requires OwnBlocksOnly(logs) && ReallocsAlone(logs) && IsOrder(logs, order)
    ensures Defined(EMPTY, Merge(logs, order))
  {
    if order != [] {
      var before, u := Init(order), Last(order);
      var k := Served(before, u);
      var r := logs[u][k];
      AloneIsHandled(logs, before);
      assert Init(Merge(logs, order)) == Merge(logs, before) && Last(Merge(logs, order)) == r;
      LegalPrefix(map[], logs[u], k);
      if r.Realloc? {
        assert ReallocsAt(logs, u, k, r.original);
        SoleLoserIsTracked(logs, before, u, r.original);
      }
    }
  }

  /** For producers that touch only their own blocks, addresses handed on between them or not: every merge of
      their logs can be handled if and only if no address that one of them reallocates is released by another. */
  lemma OwnReallocsHitIff(logs: Logs)
    requires OwnBlocksOnly(logs)
    ensures EveryMergeIsHandled(logs) <==> ReallocsAlone(logs)
  {
    if ReallocsAlone(logs) {
      forall order | IsOrder(logs, order)
        ensures Defined(EMPTY, Merge(logs, order))
      {
        AloneIsHandled(logs, order);
      }
    }
    if EveryMergeIsHandled(logs) {
      forall t: nat, k: nat, t': nat, k': nat, a: Address | ReallocsAt(logs, t, k, a) && LosesAt(logs, t', k', a)
        ensures t' == t
      {
        NoLossElsewhere(logs, t, k, t', k', a);
      }
    }
  }

  // ----- what reports list, with reuse -----

  /** With reuse, for every merge of the logs in which each REALLOC finds its record: a reported address
      is a block that one of the producers still owns. */
  lemma ReportsListOwnedBlocks(logs: Logs, order: seq<nat>)
    requires OwnBlocksOnly(logs) && IsComplete(logs, order) && Defined(EMPTY, Merge(logs, order))
    ensures forall a :: a in Reconcile(Fold(EMPTY, Merge(logs, order))).open ==>
              exists t :: 0 <= t < |logs| && a in Run(map[], logs[t])
  {
    forall t | 0 <= t < |logs| {
      LegalRunHasNoClear(map[], logs[t]);
    }
    forall a | a in Reconcile(Fold(EMPTY, Merge(logs, order))).open
      ensures exists t :: 0 <= t < |logs| && a in Run(map[], logs[t])
    {
      var t := ReportedHasAnOwner(logs, order, a);
      LegalRunCounts(map[], logs[t], a);
    }
  }

  /** Producers that end with none of their own blocks leave an empty report. */
  lemma TidyProducersReportNothing(logs: Logs, order: seq<nat>)
    requires OwnBlocksOnly(logs) && IsComplete(logs, order) && Defined(EMPTY, Merge(logs, order))
    requires forall t :: 0 <= t < |logs| ==> Run(map[], logs[t]) == map[]
    ensures Reconcile(Fold(EMPTY, Merge(logs, order))).open == map[]
  {
    forall t | 0 <= t < |logs| {
      LegalRunHasNoClear(map[], logs[t]);
    }
    var open := Reconcile(Fold(EMPTY, Merge(logs, order))).open;
    if open != map[] {
      var a :| a in open;
      var t := ReportedHasAnOwner(logs, order, a);
      LegalRunCounts(map[], logs[t], a);
    }
  }

  /** The open allocations that a report of the merge lists. */
  ghost function Listed(logs: Logs, order: seq<nat>): OpenMap
    requires IsOrder(logs, order) && Defined(EMPTY, Merge(logs, order))
  {
    Reconcile(Fold(EMPTY, Merge(logs, order))).open
  }

  /** A block that a producer still owns is listed if no other producer releases its address. */
  lemma SolelyLostIsListed(logs: Logs, order: seq<nat>, t: nat, a: Address)
    requires OwnBlocksOnly(logs) && IsComplete(logs, order) && Defined(EMPTY, Merge(logs, order))
    requires t < |logs| && a in Run(map[], logs[t]) && SoleLoser(logs, t, a)
    ensures a in Listed(logs, order)
  {
    SoleLoserIsTracked(logs, order, t, a);
    assert logs[t][..Served(order, t)] == logs[t];
  }

  lemma {:induction false} LastLoss(h: Heap, ms: seq<Request>, a: Address, from: nat) returns (k: nat)
    requires LegalRun(h, ms) && a !in Run(h, ms)
    requires from < |ms| && Loses(ms[from], a)
    ensures k < |ms| && Loses(ms[k], a) && forall i :: k < i < |ms| ==> !Gains(ms[i], a)
    decreases |ms|
  {
    if Loses(Last(ms), a) {
      k := |ms| - 1;
    } else {
      assert ms[from] == Init(ms)[from];
      k := LastLoss(h, Init(ms), a, from);
      assert forall i :: k < i < |ms| - 1 ==> ms[i] == Init(ms)[i];
      assert ms[|ms| - 1] == Last(ms);
    }
  }

  /** The worker serves the first `n` producers in full, but for one. */
  lemma {:induction false} AllButOne(logs: Logs, n: nat, one: nat) returns (order: seq<nat>)
    requires n <= |logs|
    ensures IsOrder(logs, order)
    ensures forall u :: 0 <= u < |logs| ==> Served(order, u) == if u < n && u != one then |logs[u]| else 0
  {
    if n == 0 {
      order := [];
    } else {
      order := AllButOne(logs, n - 1, one);
      if n - 1 != one {
        order := TurnsInARow(logs, order, n - 1, |logs[n - 1]|);
      }
    }
  }

  /** The merge that serves last a producer which has released `a` for good does not list `a`. */
  lemma ServedLastHides(logs: Logs, t: nat, k: nat, a: Address) returns (order: seq<nat>)
    requires OwnBlocksOnly(logs) && EveryMergeIsHandled(logs)
    requires LosesAt(logs, t, k, a) && a !in Run(map[], logs[t])
    ensures IsComplete(logs, order) && Defined(EMPTY, Merge(logs, order)) && a !in Listed(logs, order)
  {
    var last := LastLoss(map[], logs[t], a, k);
    var x;
    order, x := ServedLast(logs, t);
    var y := logs[t][last + 1..];
    assert x + logs[t] == x + logs[t][..last] + [logs[t][last]] + y;
    hide Gains, Loses, Run, LegalRun, Defined, Fold, IsComplete, OwnBlocksOnly;
    LostStaysLost(x + logs[t][..last], logs[t][last], y, a);
    assert a !in Listed(logs, order);
  }

  /** The complete merge that ends with all of one producer's log. */
  lemma ServedLast(logs: Logs, t: nat) returns (order: seq<nat>, x: seq<Request>)
    requires EveryMergeIsHandled(logs) && t < |logs|
    ensures IsComplete(logs, order) && Defined(EMPTY, Merge(logs, order)) && Merge(logs, order) == x + logs[t]
  {
    hide Defined;
    order := AllButOne(logs, |logs|, t);
    x := Merge(logs, order);
    order := TurnsInARow(logs, order, t, |logs[t]|);
    assert logs[t][0..|logs[t]|] == logs[t];
  }

  /** A merge of prefixes goes on to a complete one. */
  lemma {:induction false} Completed(logs: Logs, order: seq<nat>, n: nat) returns (longer: seq<nat>, more: seq<Request>)
    requires IsOrder(logs, order) && n <= |logs|
    requires forall u :: n <= u < |logs| ==> Served(order, u) == |logs[u]|
    ensures IsComplete(logs, longer) && Merge(logs, longer) == Merge(logs, order) + more
    decreases n
  {
    ServedFits(logs, order);
    if n == 0 {
      longer, more := order, [];
    } else {
      var rest := |logs[n - 1]| - Served(order, n - 1);
      var next := TurnsInARow(logs, order, n - 1, rest);
      hide IsOrder, Merge, Served;
      longer, more := Completed(logs, next, n - 1);
      more := logs[n - 1][Served(order, n - 1)..Served(order, n - 1) + rest] + more;
    }
  }

  /** It is enough to look at complete merges. */
  lemma CompleteMergesAreHandledIff(logs: Logs)
    ensures EveryMergeIsHandled(logs) <==>
              forall order :: IsComplete(logs, order) ==> Defined(EMPTY, Merge(logs, order))
  {
    if forall order :: IsComplete(logs, order) ==> Defined(EMPTY, Merge(logs, order)) {
      forall order | IsOrder(logs, order)
        ensures Defined(EMPTY, Merge(logs, order))
      {
        ServedFits(logs, order);
        var longer, more := Completed(logs, order, |logs|);
        DefinedPrefix(EMPTY, Merge(logs, order), more);
      }
    }
  }

  ghost predicate AlwaysLists(logs: Logs, a: Address) {
    forall order :: IsComplete(logs, order) ==> Defined(EMPTY, Merge(logs, order)) && a in Listed(logs, order)
  }

  /** For a block that one producer alone still owns: every complete merge can be handled and lists it if and
      only if no other producer ever releases its address, nor any address that another reallocates. */
  lemma OwnedIsAlwaysListedIff(logs: Logs, t: nat, a: Address)
    requires OwnBlocksOnly(logs) && t < |logs| && a in Run(map[], logs[t])
    requires forall u :: 0 <= u < |logs| && u != t ==> a !in Run(map[], logs[u])
    ensures AlwaysLists(logs, a) <==> ReallocsAlone(logs) && SoleLoser(logs, t, a)
  {
    OwnReallocsHitIff(logs);
    CompleteMergesAreHandledIff(logs);
    if EveryMergeIsHandled(logs) {
      if SoleLoser(logs, t, a) {
        forall order | IsComplete(logs, order)
          ensures Defined(EMPTY, Merge(logs, order)) && a in Listed(logs, order)
        {
          SolelyLostIsListed(logs, order, t, a);
        }
      } else {
        var u: nat, k: nat :| LosesAt(logs, u, k, a) && u != t;
        var order := ServedLastHides(logs, u, k, a);
      }
    }
  }

  ghost predicate Owned(logs: Logs, a: Address) {
    exists t :: 0 <= t < |logs| && a in Run(map[], logs[t])
  }

  ghost predicate ListsTheOwned(logs: Logs, order: seq<nat>) {
    && IsOrder(logs, order) && Defined(EMPTY, Merge(logs, order))
    && forall a :: a in Listed(logs, order) <==> Owned(logs, a)
  }

  /** No address that a producer owns in the end was ever released by another. */
  ghost predicate OwnedApart(logs: Logs) {
    forall t, a :: 0 <= t < |logs| && a in Run(map[], logs[t]) ==> SoleLoser(logs, t, a)
  }

  /** Every complete merge can be handled and its report lists just the blocks still owned, if and only if no
      address that a producer reallocates, or owns in the end, is ever released by another. */
  lemma ReportsAreExactIff(logs: Logs)
    requires OwnBlocksOnly(logs)
    requires forall t, u, a :: 0 <= t < |logs| && 0 <= u < |logs| && t != u && a in Run(map[], logs[t]) ==>
               a !in Run(map[], logs[u])
    ensures (forall order :: IsComplete(logs, order) ==> ListsTheOwned(logs, order))
       <==> ReallocsAlone(logs) && OwnedApart(logs)
  {
    OwnReallocsHitIff(logs);
    CompleteMergesAreHandledIff(logs);
    if EveryMergeIsHandled(logs) {
      if OwnedApart(logs) {
        forall order | IsComplete(logs, order)
          ensures ListsTheOwned(logs, order)
        {
          ExactWhenApart(logs, order);
        }
      } else {
        var t, a :| 0 <= t < |logs| && a in Run(map[], logs[t]) && !SoleLoser(logs, t, a);
        var u: nat, k: nat :| LosesAt(logs, u, k, a) && u != t;
        var order := ServedLastHides(logs, u, k, a);
        assert Owned(logs, a);
      }
    }
  }

  lemma ExactWhenApart(logs: Logs, order: seq<nat>)
    requires OwnBlocksOnly(logs) && OwnedApart(logs)
    requires IsComplete(logs, order) && Defined(EMPTY, Merge(logs, order))
    ensures ListsTheOwned(logs, order)
  {
    ReportsListOwnedBlocks(logs, order);
    forall a | Owned(logs, a)
      ensures a in Listed(logs, order)
    {
      var t :| 0 <= t < |logs| && a in Run(map[], logs[t]);
      SolelyLostIsListed(logs, order, t, a);
    }
  }

  /** Producers that end with none of their own blocks, when no address that one reallocates is released by
      another: every merge can be handled and reports nothing. */
  lemma TidyProducersAlwaysReportNothing(logs: Logs, order: seq<nat>)
    requires OwnBlocksOnly(logs) && ReallocsAlone(logs) && IsComplete(logs, order)
    requires forall t :: 0 <= t < |logs| ==> Run(map[], logs[t]) == map[]
    ensures Defined(EMPTY, Merge(logs, order)) && Listed(logs, order) == map[]
  {
    AloneIsHandled(logs, order);
    TidyProducersReportNothing(logs, order);
  }

  /** The multi-threaded stress test: any number of threads in the random workload, any addresses, any
      merge of their requests. No leak is reported, whenever no REALLOC misses. */
  method WatchManyRandomHeapOperations(numThreads: nat, numOperations: int) returns (logs: Logs)
    ensures |logs| == numThreads && OwnBlocksOnly(logs)
    ensures forall order :: IsComplete(logs, order) && Defined(EMPTY, Merge(logs, order)) ==>
              Reconcile(Fold(EMPTY, Merge(logs, order))).open == map[]
    ensures EveryMergeIsHandled(logs) <==> ReallocsAlone(logs)
    ensures ReallocsAlone(logs) ==> forall order :: IsComplete(logs, order) ==>
              Defined(EMPTY, Merge(logs, order)) && Listed(logs, order) == map[]
  {
    logs := [];
    while |logs| < numThreads
      invariant |logs| <= numThreads && OwnBlocksOnly(logs)
      invariant forall t :: 0 <= t < |logs| ==> Run(map[], logs[t]) == map[]
    {
      var heap := new Workload.WatchedHeap(map[]);
      var mallocs, reallocs, frees, operations := Workload.RandomHeapOperations(heap, numOperations);
      logs := logs + [heap.posted];
    }
    forall order | IsComplete(logs, order) && Defined(EMPTY, Merge(logs, order)) {
      TidyProducersReportNothing(logs, order);
    }
    OwnReallocsHitIff(logs);
    if ReallocsAlone(logs) {
      forall order | IsComplete(logs, order) {
        TidyProducersAlwaysReportNothing(logs, order);
      }
    }
  }
}
