/** The streams the worker may see: every merge of the producers' logs that keeps each producer's own
    order. When no merge brings a REALLOC to a missing record, and what a report of any merge can list
    (src/HeapWatcher.cpp:667-777). */
module Merges {
  import opened Requests
  import opened Tracker
  import opened Counting
  import opened PostLogs
  import opened Soundness

  /** How often producer `t` has had its turn. */
  function Served(order: seq<nat>, t: nat): nat {
    if order == [] then 0 else Served(Init(order), t) + (if Last(order) == t then 1 else 0)
  }

  /** A merge names, request by request, the producer whose head is taken. */
  predicate IsOrder(logs: Logs, order: seq<nat>) {
    order == [] || (
      && IsOrder(logs, Init(order))
      && Last(order) < |logs| && Served(Init(order), Last(order)) < |logs[Last(order)]|)
  }

  function Merge(logs: Logs, order: seq<nat>): seq<Request>
    requires IsOrder(logs, order)
  {
    if order == [] then []
    else Merge(logs, Init(order)) + [logs[Last(order)][Served(Init(order), Last(order))]]
  }

  /** No merge of prefixes of the logs reaches a REALLOC without a record. */
  ghost predicate EveryMergeIsHandled(logs: Logs) {
    forall order :: IsOrder(logs, order) ==> Defined(EMPTY, Merge(logs, order))
  }

  lemma OneMoreTurn(logs: Logs, order: seq<nat>, t: nat)
    requires IsOrder(logs, order) && t < |logs| && Served(order, t) < |logs[t]|
    ensures IsOrder(logs, order + [t])
    ensures Merge(logs, order + [t]) == Merge(logs, order) + [logs[t][Served(order, t)]]
    ensures forall u :: Served(order + [t], u) == Served(order, u) + if u == t then 1 else 0
  {
    assert Init(order + [t]) == order && Last(order + [t]) == t;
  }

  /** The worker takes `n` requests of producer `t` in a row. */
  lemma {:induction false} TurnsInARow(logs: Logs, order: seq<nat>, t: nat, n: nat) returns (longer: seq<nat>)
    requires IsOrder(logs, order) && t < |logs| && Served(order, t) + n <= |logs[t]|
    ensures IsOrder(logs, longer)
    ensures Merge(logs, longer) == Merge(logs, order) + logs[t][Served(order, t)..Served(order, t) + n]
    ensures forall u :: Served(longer, u) == Served(order, u) + if u == t then n else 0
  {
    hide Served, IsOrder, Merge;
    if n == 0 {
      longer := order;
    } else {
      longer := TurnsInARow(logs, order, t, n - 1);
      OneMoreTurn(logs, longer, t);
      longer := longer + [t];
    }
  }

  // ----- sufficient -----

  function Turns(logs: Logs, order: seq<nat>): seq<nat> {
    seq(|logs|, t requires 0 <= t < |logs| => Served(order, t))
  }

  lemma OneMoreIsKnown(logs: Logs, before: seq<nat>, t: nat)
    requires GainedOnce(logs) && ReallocsStay(logs) && NoClear(logs)
    requires IsOrder(logs, before) && t < |logs| && Served(before, t) < |logs[t]|
    requires Defined(EMPTY, Merge(logs, before))
    requires Merged(Fold(EMPTY, Merge(logs, before)), logs, Turns(logs, before))
    ensures IsOrder(logs, before + [t]) && Defined(EMPTY, Merge(logs, before + [t]))
    ensures Merged(Fold(EMPTY, Merge(logs, before + [t])), logs, Turns(logs, before + [t]))
  {
    hide Defined, Fold, Merge, Step, Handles, Merged, GainedOnce, ReallocsStay, NoClear, IsOrder, Served;
    var s, r := Fold(EMPTY, Merge(logs, before)), logs[t][Served(before, t)];
    AnyHeadIsHandled(s, logs, Turns(logs, before), t);
    OneMoreTurn(logs, before, t);
    FoldSnoc(EMPTY, Merge(logs, before), r);
    assert Turns(logs, before + [t]) == Turns(logs, before)[t := Turns(logs, before)[t] + 1];
  }

  lemma {:induction false} MergeIsKnown(logs: Logs, order: seq<nat>)
    requires GainedOnce(logs) && ReallocsStay(logs) && NoClear(logs) && IsOrder(logs, order)
    ensures Defined(EMPTY, Merge(logs, order))
    ensures Merged(Fold(EMPTY, Merge(logs, order)), logs, Turns(logs, order))
  {
    if order != [] {
      assert order == Init(order) + [Last(order)];
      hide Defined, Fold, Merge, Merged, GainedOnce, ReallocsStay, NoClear;
      MergeIsKnown(logs, Init(order));
      OneMoreIsKnown(logs, Init(order), Last(order));
    }
  }

  // ----- necessary -----

  lemma {:induction false} OpenWasGained(ms: seq<Request>, a: Address)
    requires Defined(EMPTY, ms) && a in Fold(EMPTY, ms).open
    ensures exists i :: 0 <= i < |ms| && Gains(ms[i], a)
  {
    if !Gains(Last(ms), a) {
      OpenWasGained(Init(ms), a);
      var i :| 0 <= i < |Init(ms)| && Gains(Init(ms)[i], a);
      assert Gains(ms[i], a);
    }
  }

  lemma {:induction false} LostStaysLost(x: seq<Request>, lost: Request, y: seq<Request>, a: Address)
    requires Loses(lost, a) && forall i :: 0 <= i < |y| ==> !Gains(y[i], a)
    requires Defined(EMPTY, x + [lost] + y)
    ensures a !in Fold(EMPTY, x + [lost] + y).open
    decreases |y|
  {
    var ms := x + [lost] + y;
    if y == [] {
      assert Last(ms) == lost;
    } else {
      assert Init(ms) == x + [lost] + Init(y) && Last(ms) == Last(y);
      LostStaysLost(x, lost, Init(y), a);
      assert !Gains(y[|y| - 1], a);
    }
  }

  lemma MissAfterLoss(x: seq<Request>, lost: Request, y: seq<Request>, r: Request, a: Address)
    requires Loses(lost, a) && forall i :: 0 <= i < |y| ==> !Gains(y[i], a)
    requires r.Realloc? && r.original == a
    ensures !Defined(EMPTY, x + [lost] + y + [r])
  {
    var ms := x + [lost] + y;
    assert Init(ms + [r]) == ms && Last(ms + [r]) == r;
    if Defined(EMPTY, ms) {
      LostStaysLost(x, lost, y, a);
    }
  }

  /** The merges that serve one thread alone, and another thread before its last request. */
  lemma ServedAlone(logs: Logs, t: nat, k: nat)
    requires EveryMergeIsHandled(logs) && t < |logs| && k < |logs[t]|
    ensures Defined(EMPTY, logs[t][..k] + [logs[t][k]])
  {
    hide Defined;
    var order := TurnsInARow(logs, [], t, k);
    OneMoreTurn(logs, order, t);
    assert Merge(logs, order) == logs[t][..k];
  }

  lemma ServedInBetween(logs: Logs, t: nat, k: nat, t': nat, k': nat)
    requires EveryMergeIsHandled(logs) && t < |logs| && k < |logs[t]|
    requires t' < |logs| && t' != t && k' < |logs[t']|
    ensures Defined(EMPTY, logs[t][..k] + logs[t'][..k'] + [logs[t'][k']] + [] + [logs[t][k]])
  {
    hide Defined;
    var order := TurnsInARow(logs, [], t, k);
    order := TurnsInARow(logs, order, t', k' + 1);
    OneMoreTurn(logs, order, t);
    assert logs[t'][..k' + 1] == logs[t'][..k'] + [logs[t'][k']];
    assert Merge(logs, order) == logs[t][..k] + logs[t'][..k'] + [logs[t'][k']] + [];
  }

  /** A thread that is served alone needs its own block. */
  lemma ReallocNeedsOwnGain(logs: Logs, t: nat, k: nat, a: Address)
    requires EveryMergeIsHandled(logs) && ReallocsAt(logs, t, k, a)
    ensures exists j: nat :: j < k && GainsAt(logs, t, j, a)
  {
    var alone := logs[t][..k];
    ServedAlone(logs, t, k);
    assert Init(alone + [logs[t][k]]) == alone && Last(alone + [logs[t][k]]) == logs[t][k];
    OpenWasGained(alone, a);
    var i :| 0 <= i < |alone| && Gains(alone[i], a);
    assert GainsAt(logs, t, i, a);
  }

  lemma NoLossBefore(logs: Logs, t: nat, k: nat, k': nat, a: Address)
    requires EveryMergeIsHandled(logs) && GainedOnce(logs) && GainsFirst(logs)
    requires ReallocsAt(logs, t, k, a) && LosesAt(logs, t, k', a)
    ensures k <= k'
  {
    hide Defined, Gains, Loses, EveryMergeIsHandled;
    if k' < k {
      ReallocNeedsOwnGain(logs, t, k, a);
      ServedAlone(logs, t, k);
      var x, y := logs[t][..k'], logs[t][k' + 1..k];
      assert logs[t][..k] == x + [logs[t][k']] + y;
      forall i | 0 <= i < |y|
        ensures !Gains(y[i], a)
      {
        var at: nat := k' + 1 + i;
        assert GainsAt(logs, t, at, a) <==> Gains(logs[t][at], a);
      }
      MissAfterLoss(x, logs[t][k'], y, logs[t][k], a);
    }
  }

  lemma NoLossElsewhere(logs: Logs, t: nat, k: nat, t': nat, k': nat, a: Address)
    requires EveryMergeIsHandled(logs)
    requires ReallocsAt(logs, t, k, a) && LosesAt(logs, t', k', a)
    ensures t' == t
  {
    if t' != t {
      ServedInBetween(logs, t, k, t', k');
      MissAfterLoss(logs[t][..k] + logs[t'][..k'], logs[t'][k'], [], logs[t][k], a);
    }
  }

  /** Without reuse, every merge of the logs can be handled if and only if each thread reallocates only
      blocks that it obtained itself and that only it lets go of, later. */
  lemma EveryMergeIsHandledIff(logs: Logs)
    requires GainedOnce(logs) && GainsFirst(logs) && NoClear(logs)
    ensures EveryMergeIsHandled(logs) <==> ReallocsStay(logs)
  {
    if ReallocsStay(logs) {
      forall order | IsOrder(logs, order)
        ensures Defined(EMPTY, Merge(logs, order))
      {
        MergeIsKnown(logs, order);
      }
    }
    if EveryMergeIsHandled(logs) {
      forall t: nat, k: nat, a: Address | ReallocsAt(logs, t, k, a)
        ensures exists j: nat :: j < k && GainsAt(logs, t, j, a)
      {
        ReallocNeedsOwnGain(logs, t, k, a);
      }
      forall t: nat, k: nat, t': nat, k': nat, a: Address | ReallocsAt(logs, t, k, a) && LosesAt(logs, t', k', a)
        ensures t' == t && k <= k'
      {
        NoLossElsewhere(logs, t, k, t', k', a);
        NoLossBefore(logs, t, k, k', a);
      }
    }
  }

  // ----- what a report of any merge can list, with reuse -----

  function Total(logs: Logs, a: Address): int {
    if logs == [] then 0 else Total(Init(logs), a) + Gross(Last(logs), a)
  }

  lemma {:induction false} TotalUpdate(logs: Logs, t: nat, log: seq<Request>, a: Address)
    requires t < |logs|
    ensures Total(logs[t := log], a) == Total(logs, a) - Gross(logs[t], a) + Gross(log, a)
  {
    if t == |logs| - 1 {
      assert Init(logs[t := log]) == Init(logs);
    } else {
      assert Init(logs[t := log]) == Init(logs)[t := log];
      TotalUpdate(Init(logs), t, log, a);
    }
  }

  lemma {:induction false} SurplusHasAnOwner(logs: Logs, a: Address)
    requires Total(logs, a) > 0
    ensures exists t :: 0 <= t < |logs| && Gross(logs[t], a) > 0
  {
    if Gross(Last(logs), a) > 0 {
      assert Gross(logs[|logs| - 1], a) > 0;
    } else {
      SurplusHasAnOwner(Init(logs), a);
      var t :| 0 <= t < |Init(logs)| && Gross(Init(logs)[t], a) > 0;
      assert Gross(logs[t], a) > 0;
    }
  }

  ghost predicate IsComplete(logs: Logs, order: seq<nat>) {
    IsOrder(logs, order) && forall t :: 0 <= t < |logs| ==> Served(order, t) == |logs[t]|
  }

  /** The part of each log that a merge has reached. */
  function Reached(logs: Logs, order: seq<nat>): Logs
    requires forall t :: 0 <= t < |logs| ==> Served(order, t) <= |logs[t]|
  {
    seq(|logs|, t requires 0 <= t < |logs| => logs[t][..Served(order, t)])
  }

  lemma {:induction false} ServedFits(logs: Logs, order: seq<nat>)
    requires IsOrder(logs, order)
    ensures forall t :: 0 <= t < |logs| ==> Served(order, t) <= |logs[t]|
  {
    if order != [] {
      ServedFits(logs, Init(order));
    }
  }

  lemma {:induction false} NothingTotals(logs: Logs, a: Address)
    requires forall t :: 0 <= t < |logs| ==> logs[t] == []
    ensures Total(logs, a) == 0
  {
    if logs != [] {
      NothingTotals(Init(logs), a);
    }
  }

  lemma {:induction false} MergeAddsUp(logs: Logs, order: seq<nat>, a: Address)
    requires IsOrder(logs, order) && NoClear(logs)
    ensures forall t :: 0 <= t < |logs| ==> Served(order, t) <= |logs[t]|
    ensures Net(Merge(logs, order), a) == Total(Reached(logs, order), a)
  {
    ServedFits(logs, order);
    if order == [] {
      NothingTotals(Reached(logs, order), a);
    } else {
      var before, t := Init(order), Last(order);
      var n := Served(before, t);
      MergeAddsUp(logs, before, a);
      var longer := logs[t][..n + 1];
      assert Init(longer) == logs[t][..n] && Last(longer) == logs[t][n];
      assert Reached(logs, order) == Reached(logs, before)[t := longer];
      TotalUpdate(Reached(logs, before), t, longer, a);
      assert Init(Merge(logs, order)) == Merge(logs, before) && Last(Merge(logs, order)) == logs[t][n];
    }
  }

  /** With reuse, in any merge of the whole logs that can be handled: a reported address was acquired more
      often than released by some one producer. */
  lemma ReportedHasAnOwner(logs: Logs, order: seq<nat>, a: Address) returns (t: nat)
    requires IsComplete(logs, order) && NoClear(logs) && Defined(EMPTY, Merge(logs, order))
    requires a in Reconcile(Fold(EMPTY, Merge(logs, order))).open
    ensures t < |logs| && Gross(logs[t], a) > 0
  {
    CountingInvariant(Merge(logs, order), a);
    MergeAddsUp(logs, order, a);
    assert forall u :: 0 <= u < |logs| ==> logs[u][..Served(order, u)] == logs[u];
    assert Reached(logs, order) == logs;
    SurplusHasAnOwner(logs, a);
    t :| t < |logs| && Gross(logs[t], a) > 0;
  }
}
