/** What each producer posts in one session, how these logs fit the heap when libc never hands out an
    address twice, and what the worker knows after any merge of prefixes of them
    (src/HeapWatcher.cpp:674-777, unit_tests/BasicTests.cpp:308-324). */
module PostLogs {
  import opened Requests
  import opened Tracker
  import opened Counting

  type Logs = seq<seq<Request>>

  /** A block comes to `a`, or leaves it; a REALLOC in place does neither. */
  predicate Gains(r: Request, a: Address) {
    Weight(r, a) > 0
  }

  predicate Loses(r: Request, a: Address) {
    Weight(r, a) < 0
  }

  ghost predicate GainsAt(logs: Logs, t: nat, k: nat, a: Address) {
    t < |logs| && k < |logs[t]| && Gains(logs[t][k], a)
  }

  ghost predicate LosesAt(logs: Logs, t: nat, k: nat, a: Address) {
    t < |logs| && k < |logs[t]| && Loses(logs[t][k], a)
  }

  ghost predicate ReallocsAt(logs: Logs, t: nat, k: nat, a: Address) {
    t < |logs| && k < |logs[t]| && logs[t][k].Realloc? && logs[t][k].original == a
  }

  ghost predicate Gained(logs: Logs, a: Address) {
    exists t: nat, k: nat :: GainsAt(logs, t, k, a)
  }

  ghost predicate Lost(logs: Logs, a: Address) {
    exists t: nat, k: nat :: LosesAt(logs, t, k, a)
  }

  ghost predicate GainedOnce(logs: Logs) {
    forall t, k, t', k', a :: GainsAt(logs, t, k, a) && GainsAt(logs, t', k', a) ==> t == t' && k == k'
  }

  ghost predicate LostOnce(logs: Logs) {
    forall t, k, t', k', a :: LosesAt(logs, t, k, a) && LosesAt(logs, t', k', a) ==> t == t' && k == k'
  }

  /** A thread that both obtains and releases a block obtains it first. */
  ghost predicate GainsFirst(logs: Logs) {
    forall t, j, k, a :: GainsAt(logs, t, j, a) && LosesAt(logs, t, k, a) ==> j < k
  }

  /** A reallocated block was obtained earlier by the same thread, and only that thread lets go of it, later. */
  ghost predicate ReallocsStay(logs: Logs) {
    && (forall t, k, a :: ReallocsAt(logs, t, k, a) ==> exists j :: j < k && GainsAt(logs, t, j, a))
    && (forall t, k, t', k', a :: ReallocsAt(logs, t, k, a) && LosesAt(logs, t', k', a) ==> t' == t && k <= k')
  }

  ghost predicate NoClear(logs: Logs) {
    forall t, k :: 0 <= t < |logs| && 0 <= k < |logs[t]| ==> !logs[t][k].Clear?
  }

  /** `live` blocks, every address ever `used`, and the blocks whose release posted nothing. */
  datatype Truth = Truth(live: set<Address>, used: set<Address>, missed: set<Address>)

  ghost predicate FitsHeap(logs: Logs, truth: Truth) {
    && truth.live <= truth.used
    && (forall t, k, a :: GainsAt(logs, t, k, a) ==> a in truth.used)
    && (forall t, k, a :: LosesAt(logs, t, k, a) ==> a in truth.used && a !in truth.live && a !in truth.missed)
    && (forall a :: a in truth.missed ==> a in truth.used && a !in truth.live)
    && (forall t, k, a :: GainsAt(logs, t, k, a) ==> a in truth.live || a in truth.missed || Lost(logs, a))
  }

  ghost predicate WellPosted(logs: Logs, truth: Truth) {
    && GainedOnce(logs) && LostOnce(logs) && GainsFirst(logs) && NoClear(logs)
    && FitsHeap(logs, truth)
  }

  function Append(logs: Logs, t: nat, r: Request): Logs
    requires t < |logs|
  {
    logs[t := logs[t] + [r]]
  }

  /** Where a position of the longer logs comes from. */
  lemma AppendPositions(logs: Logs, t: nat, r: Request, a: Address)
    requires t < |logs|
    ensures forall u, k :: GainsAt(Append(logs, t, r), u, k, a) <==>
              GainsAt(logs, u, k, a) || (u == t && k == |logs[t]| && Gains(r, a))
    ensures forall u, k :: LosesAt(Append(logs, t, r), u, k, a) <==>
              LosesAt(logs, u, k, a) || (u == t && k == |logs[t]| && Loses(r, a))
    ensures forall u, k :: ReallocsAt(Append(logs, t, r), u, k, a) <==>
              ReallocsAt(logs, u, k, a) || (u == t && k == |logs[t]| && r.Realloc? && r.original == a)
  {
  }

  lemma AppendEverywhere(logs: Logs, t: nat, r: Request)
    requires t < |logs|
    ensures forall u, k, a :: GainsAt(Append(logs, t, r), u, k, a) <==>
              GainsAt(logs, u, k, a) || (u == t && k == |logs[t]| && Gains(r, a))
    ensures forall u, k, a :: LosesAt(Append(logs, t, r), u, k, a) <==>
              LosesAt(logs, u, k, a) || (u == t && k == |logs[t]| && Loses(r, a))
    ensures forall u, k, a :: ReallocsAt(Append(logs, t, r), u, k, a) <==>
              ReallocsAt(logs, u, k, a) || (u == t && k == |logs[t]| && r.Realloc? && r.original == a)
  {
    forall a {
      AppendPositions(logs, t, r, a);
    }
  }

  lemma LostPersists(logs: Logs, t: nat, r: Request, a: Address)
    requires t < |logs| && Lost(logs, a)
    ensures Lost(Append(logs, t, r), a)
  {
    var u: nat, k: nat :| LosesAt(logs, u, k, a);
    AppendPositions(logs, t, r, a);
    assert LosesAt(Append(logs, t, r), u, k, a);
  }

  lemma MallocKeepsFit(logs: Logs, truth: Truth, t: nat, record: AllocationRecord)
    requires WellPosted(logs, truth) && t < |logs| && record.address !in truth.used
    ensures WellPosted(Append(logs, t, Malloc(record)),
                       truth.(live := truth.live + {record.address}, used := truth.used + {record.address}))
  {
    AppendEverywhere(logs, t, Malloc(record));
    forall a | Lost(logs, a) {
      LostPersists(logs, t, Malloc(record), a);
    }
  }

  lemma FreeKeepsFit(logs: Logs, truth: Truth, t: nat, block: Address)
    requires WellPosted(logs, truth) && t < |logs| && block in truth.live
    ensures WellPosted(Append(logs, t, Free(block)), truth.(live := truth.live - {block}))
  {
    AppendEverywhere(logs, t, Free(block));
    assert LosesAt(Append(logs, t, Free(block)), t, |logs[t]|, block);
    forall a | Lost(logs, a) {
      LostPersists(logs, t, Free(block), a);
    }
  }

  lemma ReallocKeepsFit(logs: Logs, truth: Truth, t: nat, original: Address, moved: Address, newSize: nat)
    requires WellPosted(logs, truth) && t < |logs| && original in truth.live
    requires moved == original || moved !in truth.used
    ensures WellPosted(Append(logs, t, Realloc(original, moved, newSize)),
                       truth.(live := truth.live - {original} + {moved}, used := truth.used + {moved}))
  {
    var r := Realloc(original, moved, newSize);
    AppendEverywhere(logs, t, r);
    if moved != original {
      assert LosesAt(Append(logs, t, r), t, |logs[t]|, original);
    }
    forall a | Lost(logs, a) {
      LostPersists(logs, t, r, a);
    }
  }

  /** Commands neither gain nor lose a block. */
  lemma CommandKeepsFit(logs: Logs, truth: Truth, t: nat, r: Request)
    requires WellPosted(logs, truth) && t < |logs| && r.IsCommand() && !r.Clear?
    ensures WellPosted(Append(logs, t, r), truth)
  {
    AppendEverywhere(logs, t, r);
    forall a | Lost(logs, a) {
      LostPersists(logs, t, r, a);
    }
  }

  /** The block a request releases for good, if any. */
  function ReleasedBy(r: Request): set<Address> {
    match r
    case Free(block) => {block}
    case Realloc(original, moved, _) => if original == moved then {} else {original}
    case _ => {}
  }

  /** A call that in the end posts nothing. */
  lemma SkipKeepsFit(logs: Logs, truth: Truth, t: nat, r: Request)
    requires t < |logs| && WellPosted(Append(logs, t, r), truth)
    requires r.Malloc? || r.Realloc? || r.Free?
    ensures WellPosted(logs, truth.(missed := truth.missed + ReleasedBy(r)))
  {
    AppendEverywhere(logs, t, r);
    assert NoClear(logs) by {
      forall u, k | 0 <= u < |logs| && 0 <= k < |logs[u]|
        ensures !logs[u][k].Clear?
      {
        assert Append(logs, t, r)[u][k] == logs[u][k];
      }
    }
    forall u: nat, k: nat, a: Address | LosesAt(logs, u, k, a)
      ensures a !in ReleasedBy(r)
    {
      if a in ReleasedBy(r) {
        assert LosesAt(Append(logs, t, r), t, |logs[t]|, a);
      }
    }
    forall a | a in ReleasedBy(r)
      ensures a in truth.used && a !in truth.live
    {
      assert LosesAt(Append(logs, t, r), t, |logs[t]|, a);
    }
    forall u: nat, k: nat, a: Address | GainsAt(logs, u, k, a)
      ensures a in truth.live || a in truth.missed || a in ReleasedBy(r) || Lost(logs, a)
    {
      if a !in truth.live && a !in truth.missed && a !in ReleasedBy(r) {
        var v: nat, i: nat :| LosesAt(Append(logs, t, r), v, i, a);
        assert LosesAt(logs, v, i, a);
      }
    }
  }

  ghost predicate ArePrefixes(short: Logs, logs: Logs) {
    |short| == |logs| && forall t :: 0 <= t < |logs| ==> short[t] <= logs[t]
  }

  /** What holds of logs holds of any prefixes of them. */
  lemma PrefixesStay(short: Logs, logs: Logs)
    requires ArePrefixes(short, logs)
    ensures GainedOnce(logs) ==> GainedOnce(short)
    ensures GainsFirst(logs) ==> GainsFirst(short)
    ensures NoClear(logs) ==> NoClear(short)
    ensures ReallocsStay(logs) ==> ReallocsStay(short)
  {
    assert forall t: nat, k: nat, a :: GainsAt(short, t, k, a) ==> GainsAt(logs, t, k, a);
    assert forall t: nat, k: nat, a :: LosesAt(short, t, k, a) ==> LosesAt(logs, t, k, a);
    assert forall t: nat, k: nat, a :: ReallocsAt(short, t, k, a) ==> ReallocsAt(logs, t, k, a);
    assert forall t, k :: 0 <= t < |short| && 0 <= k < |short[t]| ==> short[t][k] == logs[t][k];
    if ReallocsStay(logs) {
      forall t: nat, k: nat, a | ReallocsAt(short, t, k, a)
        ensures exists j: nat :: j < k && GainsAt(short, t, j, a)
      {
        var j: nat :| j < k && GainsAt(logs, t, j, a);
        assert GainsAt(short, t, j, a);
      }
    }
  }

  // ----- the merge -----

  /** Gained, or lost, in the part of the logs the worker has handled. */
  ghost predicate SeenGained(logs: Logs, taken: seq<nat>, a: Address)
    requires |taken| == |logs|
  {
    exists t: nat, k: nat :: GainsAt(logs, t, k, a) && k < taken[t]
  }

  ghost predicate SeenLost(logs: Logs, taken: seq<nat>, a: Address)
    requires |taken| == |logs|
  {
    exists t: nat, k: nat :: LosesAt(logs, t, k, a) && k < taken[t]
  }

  /** What the worker knows of `a` after any merge of prefixes. */
  ghost predicate Knows(s: State, logs: Logs, taken: seq<nat>, a: Address)
    requires |taken| == |logs|
  {
    var gained, lost := SeenGained(logs, taken, a), SeenLost(logs, taken, a);
    && (a in s.open ==> gained)
    && (a in s.strays ==> lost)
    && (gained && !lost ==> a in s.open && a !in s.strays)
    && (gained && lost && a in s.open ==> a in s.strays)
    && (!gained && lost ==> a in s.strays)
  }

  ghost predicate Merged(s: State, logs: Logs, taken: seq<nat>) {
    && |taken| == |logs|
    && (forall t :: 0 <= t < |logs| ==> taken[t] <= |logs[t]|)
    && (forall a :: Knows(s, logs, taken, a))
  }

  lemma SeenAfterTake(logs: Logs, taken: seq<nat>, t: nat, a: Address)
    requires |taken| == |logs| && t < |logs| && taken[t] < |logs[t]|
    ensures SeenGained(logs, taken[t := taken[t] + 1], a)
       <==> SeenGained(logs, taken, a) || Gains(logs[t][taken[t]], a)
    ensures SeenLost(logs, taken[t := taken[t] + 1], a)
       <==> SeenLost(logs, taken, a) || Loses(logs[t][taken[t]], a)
  {
    var taken' := taken[t := taken[t] + 1];
    if SeenGained(logs, taken, a) {
      var u: nat, k: nat :| GainsAt(logs, u, k, a) && k < taken[u];
      assert GainsAt(logs, u, k, a) && k < taken'[u];
    }
    if SeenLost(logs, taken, a) {
      var u: nat, k: nat :| LosesAt(logs, u, k, a) && k < taken[u];
      assert LosesAt(logs, u, k, a) && k < taken'[u];
    }
    assert GainsAt(logs, t, taken[t], a) <==> Gains(logs[t][taken[t]], a);
    assert LosesAt(logs, t, taken[t], a) <==> Loses(logs[t][taken[t]], a);
  }

  /** Each gain and each loss is new when it is handled; a reallocated block is known and not yet lost. */
  lemma HeadIsNew(logs: Logs, taken: seq<nat>, t: nat, a: Address)
    requires GainedOnce(logs) && ReallocsStay(logs)
    requires |taken| == |logs| && t < |logs| && taken[t] < |logs[t]|
    ensures Gains(logs[t][taken[t]], a) ==> !SeenGained(logs, taken, a)
    ensures logs[t][taken[t]].Realloc? && logs[t][taken[t]].original == a ==>
              SeenGained(logs, taken, a) && !SeenLost(logs, taken, a)
  {
    var r, n := logs[t][taken[t]], taken[t];
    assert Gains(r, a) ==> GainsAt(logs, t, n, a);
    if r.Realloc? && r.original == a {
      assert ReallocsAt(logs, t, n, a);
      var j: nat :| j < n && GainsAt(logs, t, j, a);
    }
  }

  /** Whichever producer's head comes next, the worker can handle it (a REALLOC always hits) and knows
      what it should of every address. */
  lemma AnyHeadIsHandled(s: State, logs: Logs, taken: seq<nat>, t: nat)
    requires GainedOnce(logs) && ReallocsStay(logs) && NoClear(logs)
    requires Merged(s, logs, taken) && t < |logs| && taken[t] < |logs[t]|
    ensures Handles(s, logs[t][taken[t]])
    ensures Merged(Step(s, logs[t][taken[t]]), logs, taken[t := taken[t] + 1])
  {
    var r, taken' := logs[t][taken[t]], taken[t := taken[t] + 1];
    if r.Realloc? {
      HeadIsNew(logs, taken, t, r.original);
      assert Knows(s, logs, taken, r.original);
    }
    forall a
      ensures Knows(Step(s, r), logs, taken', a)
    {
      assert Knows(s, logs, taken, a);
      HeadIsNew(logs, taken, t, a);
      SeenAfterTake(logs, taken, t, a);
      StepIsKnown(s, r, logs, taken, taken', a);
    }
  }

  lemma StepIsKnown(s: State, r: Request, logs: Logs, taken: seq<nat>, taken': seq<nat>, a: Address)
    requires |taken| == |logs| == |taken'| && Handles(s, r) && !r.Clear?
    requires Knows(s, logs, taken, a)
    requires Gains(r, a) ==> !SeenGained(logs, taken, a)
    requires r.Realloc? && r.original == a ==> SeenGained(logs, taken, a) && !SeenLost(logs, taken, a)
    requires SeenGained(logs, taken', a) <==> SeenGained(logs, taken, a) || Gains(r, a)
    requires SeenLost(logs, taken', a) <==> SeenLost(logs, taken, a) || Loses(r, a)
    ensures Knows(Step(s, r), logs, taken', a)
  {
  }

  /** What a report lists is what was gained and not lost among the requests handled. */
  lemma ReportIsGainedNotLost(s: State, logs: Logs, taken: seq<nat>, a: Address)
    requires Merged(s, logs, taken)
    ensures a in Reconcile(s).open <==> SeenGained(logs, taken, a) && !SeenLost(logs, taken, a)
  {
    assert Knows(s, logs, taken, a);
  }
}
