/** Leak reports are sound in every run: a conservation law over everything the heap did, joined with
    the counting invariant of the tracker (src/HeapWatcher.cpp:226-304, 656-777). */
module Soundness {
  import opened Requests
  import opened Tracker
  import opened Counting
  import opened Machine

  function PcWeight(pc: Pc, a: Address): int {
    if pc.Returned? || pc.Posting? then Weight(pc.request, a) else 0
  }

  /** The signed count of what a thread has done to `a` that the worker has not handled yet. */
  function PendingWeight(th: Thread, a: Address): int
    requires th.Valid()
  {
    Gross(th.Queue(), a) + PcWeight(th.pc, a)
  }

  function InFlight(threads: seq<Thread>, a: Address): int
    requires forall t :: 0 <= t < |threads| ==> threads[t].Valid()
  {
    if threads == [] then 0 else InFlight(Init(threads), a) + PendingWeight(Last(threads), a)
  }

  lemma {:induction false} InFlightUpdate(threads: seq<Thread>, t: nat, th: Thread, a: Address)
    requires forall u :: 0 <= u < |threads| ==> threads[u].Valid()
    requires t < |threads| && th.Valid()
    ensures InFlight(threads[t := th], a)
         == InFlight(threads, a) - PendingWeight(threads[t], a) + PendingWeight(th, a)
  {
    if t == |threads| - 1 {
      assert Init(threads[t := th]) == Init(threads);
    } else {
      assert Init(threads[t := th]) == Init(threads)[t := th];
      InFlightUpdate(Init(threads), t, th, a);
    }
  }

  lemma {:induction false} GrossConcat(xs: seq<Request>, ys: seq<Request>, a: Address)
    ensures Gross(xs + ys, a) == Gross(xs, a) + Gross(ys, a)
  {
    if ys == [] {
      assert xs + ys == xs;
    } else {
      assert Init(xs + ys) == xs + Init(ys) && Last(xs + ys) == Last(ys);
      GrossConcat(xs, Init(ys), a);
    }
  }

  lemma GrossOneMore(xs: seq<Request>, r: Request, a: Address)
    ensures Gross(xs + [r], a) == Gross(xs, a) + Weight(r, a)
  {
    assert Init(xs + [r]) == xs && Last(xs + [r]) == r;
  }

  lemma QueueAfterTake(th: Thread, pc: Pc, a: Address)
    requires th.Valid() && th.taken < |th.posted|
    ensures Gross(th.(taken := th.taken + 1, pc := pc).Queue(), a) == Gross(th.Queue(), a) - Weight(Head(th), a)
  {
    assert th.Queue() == [Head(th)] + th.posted[th.taken + 1..];
    GrossConcat([Head(th)], th.posted[th.taken + 1..], a);
    GrossOneMore([], Head(th), a);
    assert [] + [Head(th)] == [Head(th)];
  }

  lemma QueueAfterPost(th: Thread, r: Request, pc: Pc, a: Address)
    requires th.Valid()
    ensures Gross(th.(posted := th.posted + [r], pc := pc).Queue(), a) == Gross(th.Queue(), a) + Weight(r, a)
  {
    assert (th.posted + [r])[th.taken..] == th.Queue() + [r];
    GrossOneMore(th.Queue(), r, a);
  }

  function Presence(live: set<Address>, a: Address): int {
    if a in live then 1 else 0
  }

  /** Live blocks that no request, handled, queued, pending or skipped, accounts for. */
  ghost function Unaccounted(s: System, a: Address): int
    requires s.Valid()
  {
    Presence(s.live, a) - Gross(s.handled, a) - InFlight(s.threads, a) - Gross(s.skipped, a)
  }

  lemma AdvanceKeepsPending(s: System, t: nat, a: Address)
    requires s.Valid() && Enabled(s, Proceed(t))
    ensures Advance(s, t).threads[t].Valid()
    ensures PendingWeight(Advance(s, t).threads[t], a) == PendingWeight(s.threads[t], a)
  {
    hide Step, Handles, Gross;
    var th := s.threads[t];
    match th.pc
    case Posting(r) => QueueAfterPost(th, r, Idle, a);
    case Asking(stats) => QueueAfterPost(th, if stats then Stats(t) else Snapshot(t), Awaiting(stats), a);
    case StartClearing => QueueAfterPost(th, Clear(t), StartAwaiting, a);
    case StopAsking => QueueAfterPost(th, Snapshot(t), StopAwaiting, a);
    case _ =>
  }

  lemma AdvanceKeepsHeap(s: System, t: nat)
    requires Enabled(s, Proceed(t))
    ensures Advance(s, t).live == s.live && Advance(s, t).skipped == s.skipped
  {
    hide Step, Handles;
  }

  lemma TakeMovesWeight(s: System, t: nat, a: Address)
    requires s.Valid() && Enabled(s, Take(t))
    ensures var th, s' := s.threads[t], Apply(s, Take(t));
            && s'.threads[t].Valid()
            && PendingWeight(s'.threads[t], a) == PendingWeight(th, a) - Weight(Head(th), a)
            && Gross(s'.handled, a) == Gross(s.handled, a) + Weight(Head(th), a)
            && s'.live == s.live && s'.skipped == s.skipped
  {
    var th := s.threads[t];
    QueueAfterTake(th, Woken(th.pc, Head(th)), a);
    GrossOneMore(s.handled, Head(th), a);
  }

  /** What a step adds to the heap it adds to the thread's pending requests or to the history. */
  ghost predicate Matches(s: System, t: nat, s': System, a: Address)
    requires t < |s.threads| == |s'.threads| && s.threads[t].Valid() && s'.threads[t].Valid()
  {
    Presence(s'.live, a) - Presence(s.live, a)
    == (PendingWeight(s'.threads[t], a) - PendingWeight(s.threads[t], a))
     + (Gross(s'.handled, a) - Gross(s.handled, a)) + (Gross(s'.skipped, a) - Gross(s.skipped, a))
  }

  lemma CallMatches(s: System, action: Action, a: Address)
    requires s.Valid() && Enabled(s, action) && !action.Take? && !action.Proceed?
    ensures |Apply(s, action).threads| == |s.threads| && Apply(s, action).threads[action.t].Valid()
    ensures Matches(s, action.t, Apply(s, action), a)
  {
    hide Step, Handles, Gross, Advance, Passes;
    if action.ReadFlags? {
      GrossOneMore(s.skipped, s.threads[action.t].pc.request, a);
    }
  }

  lemma TakeMatches(s: System, t: nat, a: Address)
    requires s.Valid() && Enabled(s, Take(t))
    ensures |Apply(s, Take(t)).threads| == |s.threads| && Apply(s, Take(t)).threads[t].Valid()
    ensures Matches(s, t, Apply(s, Take(t)), a)
  {
    TakeFrame(s, t);
    TakeMovesWeight(s, t, a);
    hide Step, Handles, Gross, Apply, Enabled, PendingWeight, Weight, Head;
  }

  lemma AdvanceMatches(s: System, t: nat, a: Address)
    requires s.Valid() && Enabled(s, Proceed(t))
    ensures |Advance(s, t).threads| == |s.threads| && Advance(s, t).threads[t].Valid()
    ensures Matches(s, t, Advance(s, t), a)
  {
    AdvanceFrame(s, t);
    AdvanceKeepsPending(s, t, a);
    AdvanceKeepsHeap(s, t);
    hide Step, Handles, Gross, Advance, Enabled, PendingWeight;
  }

  lemma StepMatches(s: System, action: Action, a: Address)
    requires s.Valid() && Enabled(s, action)
    ensures |Apply(s, action).threads| == |s.threads| && Apply(s, action).threads[action.t].Valid()
    ensures Apply(s, action).threads == s.threads[action.t := Apply(s, action).threads[action.t]]
    ensures Matches(s, action.t, Apply(s, action), a)
  {
    StepFrame(s, action);
    hide Step, Handles, Apply, Advance, Enabled, Matches, Thread.Valid;
    if action.Take? {
      TakeMatches(s, action.t, a);
    } else if action.Proceed? {
      AdvanceMatches(s, action.t, a);
      ProceedIsAdvance(s, action.t);
    } else {
      CallMatches(s, action, a);
    }
  }

  lemma StepConserves(s: System, action: Action, a: Address)
    requires s.Valid() && Enabled(s, action)
    ensures Apply(s, action).Valid()
    ensures Unaccounted(Apply(s, action), a) == Unaccounted(s, a)
  {
    StepMatches(s, action, a);
    hide Apply, Enabled, PendingWeight, Gross, Presence;
    InFlightUpdate(s.threads, action.t, Apply(s, action).threads[action.t], a);
  }

  /** Conservation: over any run, whatever the interleaving, address reuse or skipping, each block that
      appears or disappears is matched by exactly one request, handled, queued, pending or skipped. */
  lemma {:induction false} RunConserves(s: System, run: seq<Action>, a: Address)
    requires s.Valid() && Possible(s, run)
    ensures After(s, run).Valid()
    ensures Unaccounted(After(s, run), a) == Unaccounted(s, a)
  {
    if run != [] {
      RunConserves(s, Init(run), a);
      StepConserves(After(s, Init(run)), Last(run), a);
    }
  }

  // ----- what it means for reports -----

  /** A free or a realloc away from `a` that the worker has yet to handle. */
  ghost predicate ReleasePending(th: Thread, a: Address)
    requires th.Valid()
  {
    || (exists r :: r in th.Queue() && Releases(r, a))
    || ((th.pc.Returned? || th.pc.Posting?) && Releases(th.pc.request, a))
  }

  ghost predicate ReleaseInFlight(s: System, a: Address)
    requires s.Valid()
  {
    exists t :: 0 <= t < |s.threads| && ReleasePending(s.threads[t], a)
  }

  lemma {:induction false} NegativeGrossReleases(ms: seq<Request>, a: Address)
    requires Gross(ms, a) < 0
    ensures exists r :: r in ms && Releases(r, a)
  {
    if Weight(Last(ms), a) < 0 {
      assert Last(ms) in ms;
    } else {
      NegativeGrossReleases(Init(ms), a);
    }
  }

  lemma {:induction false} NegativeFlightReleases(threads: seq<Thread>, a: Address)
    requires forall t :: 0 <= t < |threads| ==> threads[t].Valid()
    requires InFlight(threads, a) < 0
    ensures exists t :: 0 <= t < |threads| && ReleasePending(threads[t], a)
  {
    if PendingWeight(Last(threads), a) < 0 {
      if Gross(Last(threads).Queue(), a) < 0 {
        NegativeGrossReleases(Last(threads).Queue(), a);
      }
      assert ReleasePending(threads[|threads| - 1], a);
    } else {
      NegativeFlightReleases(Init(threads), a);
      var t :| 0 <= t < |Init(threads)| && ReleasePending(Init(threads)[t], a);
      assert ReleasePending(threads[t], a);
    }
  }

  /** Live blocks at `a` that nothing told to the worker since its last CLEAR, or on its way there, accounts
      for: those never accounted for, those whose call was skipped, and those that a CLEAR erased. */
  ghost function Untold(s: System, a: Address): int
    requires s.Valid()
  {
    Unaccounted(s, a) + Gross(s.skipped, a) + Gross(s.handled, a) - Net(s.handled, a)
  }

  /** A reported address is live, or its release is still on the way, unless more releases than
      acquisitions of it were kept from the worker. */
  lemma ReportIsSound(s: System, a: Address)
    requires TrackerFollows(s)
    requires Untold(s, a) >= 0
    requires a in ReportedNow(s)
    ensures a in s.live || ReleaseInFlight(s, a)
  {
    CountingInvariant(s.handled, a);
    if a !in s.live {
      NegativeFlightReleases(s.threads, a);
    }
  }

  /** The only steps that can lower the untold count of `a`: a skipped release of `a`, and a CLEAR. */
  lemma UntoldOnlyDropsWhenSkipped(s: System, action: Action, a: Address)
    requires s.Valid() && Enabled(s, action)
    requires action.Take? ==> !Head(s.threads[action.t]).Clear?
    requires action.ReadFlags? && Releases(s.threads[action.t].pc.request, a) ==>
               Passes(s, action.t, action.path)
    ensures Apply(s, action).Valid() && Untold(Apply(s, action), a) >= Untold(s, a)
  {
    StepConserves(s, action, a);
    if action.Take? {
      TakeKeepsErased(s, action.t, a);
    } else {
      StepFrame(s, action);
      SkipsKeepGross(s, action, a);
    }
    hide Step, Handles, Apply, Enabled, Gross, Net, Unaccounted, Weight, KeepsPosted;
  }

  /** Without a CLEAR, what the worker handles stays told. */
  lemma TakeKeepsErased(s: System, t: nat, a: Address)
    requires s.Valid() && Enabled(s, Take(t)) && !Head(s.threads[t]).Clear?
    ensures var s' := Apply(s, Take(t));
            && Gross(s'.handled, a) - Net(s'.handled, a) == Gross(s.handled, a) - Net(s.handled, a)
            && s'.skipped == s.skipped
  {
    var r := Head(s.threads[t]);
    assert Init(s.handled + [r]) == s.handled && Last(s.handled + [r]) == r;
    hide Step, Handles, Weight;
  }

  /** Only a skipped release lowers the count of what was skipped. */
  lemma SkipsKeepGross(s: System, action: Action, a: Address)
    requires s.Valid() && Enabled(s, action) && !action.Take?
    requires action.ReadFlags? && Releases(s.threads[action.t].pc.request, a) ==>
               Passes(s, action.t, action.path)
    ensures Gross(Apply(s, action).skipped, a) >= Gross(s.skipped, a)
  {
    hide Step, Handles, Gross, Advance, Acquires, Releases;
    if action.ReadFlags? {
      GrossOneMore(s.skipped, s.threads[action.t].pc.request, a);
    } else if action.Proceed? {
      AdvanceKeepsHeap(s, action.t);
    }
  }

  /** Nothing on its way to the worker. */
  ghost predicate Quiet(s: System) {
    forall t :: 0 <= t < |s.threads| ==>
      s.threads[t].taken == |s.threads[t].posted| && !s.threads[t].pc.Returned? && !s.threads[t].pc.Posting?
  }

  lemma {:induction false} QuietMeansNoFlight(threads: seq<Thread>, a: Address)
    requires forall t :: 0 <= t < |threads| ==>
      threads[t].taken == |threads[t].posted| && !threads[t].pc.Returned? && !threads[t].pc.Posting?
    ensures InFlight(threads, a) == 0
  {
    if threads != [] {
      QuietMeansNoFlight(Init(threads), a);
    }
  }

  /** A session begins: CLEAR was the last thing handled (or nothing was). Requests of other threads may
      still be queued, and threads may be inside heap calls. */
  ghost predicate SessionBegins(s: System) {
    TrackerFollows(s) && (s.handled == [] || Last(s.handled).Clear?)
  }

  /** The run keeps to one session. */
  ghost predicate TakesNoClear(s: System, run: seq<Action>)
    requires Possible(s, run)
  {
    run == [] || (
      && TakesNoClear(s, Init(run))
      && (Last(run).Take? ==> !Head(After(s, Init(run)).threads[Last(run).t]).Clear?))
  }

  /** Every release of `a` in the run is let through. */
  ghost predicate KeepsReleases(s: System, run: seq<Action>, a: Address)
    requires Possible(s, run)
  {
    run == [] || (
      var before := After(s, Init(run));
      && KeepsReleases(s, Init(run), a)
      && (Last(run).ReadFlags? && Releases(before.threads[Last(run).t].pc.request, a) ==>
            Passes(before, Last(run).t, Last(run).path)))
  }

  lemma {:induction false} UntoldNeverDrops(s: System, run: seq<Action>, a: Address)
    requires SessionBegins(s) && Possible(s, run) && TakesNoClear(s, run) && KeepsReleases(s, run, a)
    ensures After(s, run).Valid()
    ensures Untold(After(s, run), a) >= Presence(s.live, a) - InFlight(s.threads, a)
  {
    if run == [] {
      assert Net(s.handled, a) == 0;
    } else {
      UntoldNeverDrops(s, Init(run), a);
      UntoldOnlyDropsWhenSkipped(After(s, Init(run)), Last(run), a);
    }
  }

  /** The block at `a`, less what is on its way to the worker. */
  function Settled(s: System, a: Address): int
    requires s.Valid()
  {
    Presence(s.live, a) - InFlight(s.threads, a)
  }

  /** In every session, busy at its start or not, with address reuse, any merge of the producers' queues and
      any allocations skipped: an address can be reported only if the heap has gained it since the start,
      requests on their way deducted then and now. */
  lemma ReportedIsGained(s: System, run: seq<Action>, a: Address)
    requires SessionBegins(s) && Possible(s, run) && TakesNoClear(s, run) && KeepsReleases(s, run, a)
    ensures After(s, run).Valid()
    ensures a in ReportedNow(After(s, run)) ==> Settled(After(s, run), a) > Settled(s, a)
  {
    RunFollows(s, run);
    UntoldNeverDrops(s, run, a);
    CountingInvariant(After(s, run).handled, a);
  }

  /** A snapshot at any moment lists only blocks that are live or whose release is still on its way, and
      when nothing is, only live blocks: for each address of which no more acquisitions than its block, if
      it is live, were on their way when the session began. */
  lemma SessionReportsAreSound(s: System, run: seq<Action>, a: Address)
    requires SessionBegins(s) && Possible(s, run) && TakesNoClear(s, run) && KeepsReleases(s, run, a)
    requires InFlight(s.threads, a) <= Presence(s.live, a)
    ensures var now := After(s, run);
            now.Valid() && (a in ReportedNow(now) ==> a in now.live || ReleaseInFlight(now, a))
    ensures Quiet(After(s, run)) && a in ReportedNow(After(s, run)) ==> a in After(s, run).live
  {
    var now := After(s, run);
    ReportedIsGained(s, run, a);
    if a in ReportedNow(now) && a !in now.live {
      NegativeFlightReleases(now.threads, a);
    }
    if Quiet(now) {
      QuietMeansNoFlight(now.threads, a);
    }
  }

  /** Between two quiet moments, with reuse and any number of threads: a report lists only blocks that are
      live now and were not live when the session began. A session that leaves the heap as it found it
      reports nothing. */
  lemma QuietReportsListNewBlocks(s: System, run: seq<Action>)
    requires SessionBegins(s) && Quiet(s) && Possible(s, run) && TakesNoClear(s, run) && Quiet(After(s, run))
    requires forall a :: KeepsReleases(s, run, a)
    ensures ReportedNow(After(s, run)) <= After(s, run).live - s.live
  {
    forall a | a in ReportedNow(After(s, run))
      ensures a in After(s, run).live - s.live
    {
      assert KeepsReleases(s, run, a);
      ReportedIsGained(s, run, a);
      QuietMeansNoFlight(s.threads, a);
      QuietMeansNoFlight(After(s, run).threads, a);
    }
  }
}
