/** Sessions of the concurrent system in which each thread's posted requests are about blocks of its own,
    with address reuse: what the worker handles is a merge of what was posted, so the results on merges hold
    of every run (src/HeapWatcher.cpp:226-304, 656-777; unit_tests/BasicTests.cpp:281-306). */
module OwnBlockSessions {
  import opened Requests
  import opened Tracker
  import opened Counting
  import ReferenceHeap
  import opened Machine
  import opened Soundness
  import opened PostLogs
  import opened Merges
  import opened Producers
  import opened Exactness

  /** Requests that are posted later do not disturb a merge of those before. */
  lemma {:induction false} MergeOfLonger(logs: Logs, longer: Logs, order: seq<nat>)
    requires IsOrder(logs, order) && ArePrefixes(logs, longer)
    ensures IsOrder(longer, order) && Merge(longer, order) == Merge(logs, order)
  {
    if order != [] {
      MergeOfLonger(logs, longer, Init(order));
      var t := Last(order);
      assert logs[t] <= longer[t];
    }
  }

  /** `order` is the order in which the worker has taken what was posted since `base`. */
  ghost predicate TakenInOrder(s: System, base: seq<nat>, order: seq<nat>) {
    && Based(s.threads, base) && IsOrder(PostedLogs(s.threads, base), order)
    && forall t :: 0 <= t < |base| ==> Served(order, t) == s.threads[t].taken - base[t]
  }

  lemma TakeInOrder(s: System, base: seq<nat>, order: seq<nat>, t: nat)
    requires TakenInOrder(s, base, order) && Enabled(s, Take(t))
    ensures TakenInOrder(Apply(s, Take(t)), base, order + [t])
    ensures Merge(PostedLogs(s.threads, base), order + [t])
         == Merge(PostedLogs(s.threads, base), order) + [Head(s.threads[t])]
    ensures PostedLogs(Apply(s, Take(t)).threads, base) == PostedLogs(s.threads, base)
  {
    var th, th' := s.threads[t], Apply(s, Take(t)).threads[t];
    var logs := PostedLogs(s.threads, base);
    LogsUpdate(s.threads, base, t, th');
    assert logs[t := th'.posted[base[t]..]] == logs;
    assert logs[t][Served(order, t)] == Head(th);
    hide Step, Handles;
    OneMoreTurn(logs, order, t);
  }

  lemma OtherStepInOrder(s: System, base: seq<nat>, order: seq<nat>, action: Action)
    requires TakenInOrder(s, base, order) && Enabled(s, action) && !action.Take?
    ensures TakenInOrder(Apply(s, action), base, order)
    ensures Merge(PostedLogs(Apply(s, action).threads, base), order) == Merge(PostedLogs(s.threads, base), order)
    ensures Apply(s, action).handled == s.handled
  {
    PostsGrow(s, base, action);
    OnlyTakesTake(s, action);
    assert Apply(s, action).handled == s.handled by {
      hide Step, Handles;
    }
    hide Apply, Enabled, PostedLogs;
    MergeOfLonger(PostedLogs(s.threads, base), PostedLogs(Apply(s, action).threads, base), order);
  }

  /** In every run the worker handles a merge of what the threads have posted. */
  lemma {:induction false} HandledIsAMerge(s: System, run: seq<Action>) returns (order: seq<nat>)
    requires s.Valid() && Possible(s, run)
    ensures TakenInOrder(After(s, run), BaseOf(s), order)
    ensures After(s, run).handled == s.handled + Merge(PostedLogs(After(s, run).threads, BaseOf(s)), order)
  {
    if run == [] {
      order := [];
    } else {
      var before, action := After(s, Init(run)), Last(run);
      order := HandledIsAMerge(s, Init(run));
      hide TakenInOrder, Step;
      if action.Take? {
        TakeInOrder(before, BaseOf(s), order, action.t);
        order := order + [action.t];
      } else {
        OtherStepInOrder(before, BaseOf(s), order, action);
      }
    }
  }

  /** At the end of a quiet session that began with a CLEAR, the merge is complete and the worker's state is
      its fold. */
  lemma QuietMerge(s: System, run: seq<Action>) returns (order: seq<nat>)
    requires SessionBegins(s) && Possible(s, run) && Quiet(After(s, run))
    ensures Based(After(s, run).threads, BaseOf(s))
    ensures var logs := PostedLogs(After(s, run).threads, BaseOf(s));
            && IsComplete(logs, order) && Defined(EMPTY, Merge(logs, order))
            && After(s, run).tracker == Fold(EMPTY, Merge(logs, order))
            && After(s, run).handled == s.handled + Merge(logs, order)
  {
    order := HandledIsAMerge(s, run);
    RunFollows(s, run);
    var now := After(s, run);
    var ms := Merge(PostedLogs(now.threads, BaseOf(s)), order);
    DefinedPrefix(EMPTY, s.handled, ms);
    assert s.tracker == EMPTY;
  }

  lemma {:induction false} NetIsGross(ms: seq<Request>, a: Address)
    requires forall k :: 0 <= k < |ms| ==> !ms[k].Clear?
    ensures Net(ms, a) == Gross(ms, a)
  {
    if ms != [] {
      assert forall k :: 0 <= k < |ms| - 1 ==> ms[k] == Init(ms)[k];
      assert !ms[|ms| - 1].Clear?;
      NetIsGross(Init(ms), a);
    }
  }

  lemma {:induction false} MergeHasNoClear(logs: Logs, order: seq<nat>)
    requires IsOrder(logs, order) && NoClear(logs)
    ensures forall k :: 0 <= k < |Merge(logs, order)| ==> !Merge(logs, order)[k].Clear?
  {
    if order != [] {
      MergeHasNoClear(logs, Init(order));
    }
  }

  lemma CompleteMergeAddsUp(logs: Logs, order: seq<nat>, a: Address)
    requires IsComplete(logs, order) && NoClear(logs)
    ensures Gross(Merge(logs, order), a) == Total(logs, a)
  {
    MergeAddsUp(logs, order, a);
    MergeHasNoClear(logs, order);
    NetIsGross(Merge(logs, order), a);
    assert forall u :: 0 <= u < |logs| ==> logs[u][..Served(order, u)] == logs[u];
    assert Reached(logs, order) == logs;
  }

  /** The heap has gained what the threads have gained. */
  lemma HeapGainsTotal(s: System, run: seq<Action>, order: seq<nat>, a: Address)
    requires s.Valid() && Quiet(s) && Possible(s, run) && Quiet(After(s, run))
    requires After(s, run).skipped == s.skipped && Based(After(s, run).threads, BaseOf(s))
    requires var logs := PostedLogs(After(s, run).threads, BaseOf(s));
             IsComplete(logs, order) && NoClear(logs) && After(s, run).handled == s.handled + Merge(logs, order)
    ensures Presence(After(s, run).live, a) - Presence(s.live, a)
         == Total(PostedLogs(After(s, run).threads, BaseOf(s)), a)
  {
    var now, logs := After(s, run), PostedLogs(After(s, run).threads, BaseOf(s));
    RunConserves(s, run, a);
    QuietMeansNoFlight(s.threads, a);
    QuietMeansNoFlight(now.threads, a);
    GrossConcat(s.handled, Merge(logs, order), a);
    CompleteMergeAddsUp(logs, order, a);
  }

  lemma {:induction false} OwnerMakesSurplus(logs: Logs, t: nat, a: Address)
    requires OwnBlocksOnly(logs) && t < |logs| && a in ReferenceHeap.Run(map[], logs[t])
    ensures Total(logs, a) > 0
  {
    LegalRunCounts(map[], Last(logs), a);
    if t < |logs| - 1 {
      assert Init(logs)[t] == logs[t];
      OwnerMakesSurplus(Init(logs), t, a);
    } else {
      NoDeficit(Init(logs), a);
    }
  }

  lemma {:induction false} NoDeficit(logs: Logs, a: Address)
    requires OwnBlocksOnly(logs)
    ensures Total(logs, a) >= 0
  {
    if logs != [] {
      LegalRunCounts(map[], Last(logs), a);
      NoDeficit(Init(logs), a);
    }
  }

  /** What a thread owns in the end is what the heap has gained. */
  lemma OwnedIsNew(s: System, run: seq<Action>, order: seq<nat>, a: Address)
    requires s.Valid() && Quiet(s) && Possible(s, run) && Quiet(After(s, run))
    requires After(s, run).skipped == s.skipped && Based(After(s, run).threads, BaseOf(s))
    requires var logs := PostedLogs(After(s, run).threads, BaseOf(s));
             && IsComplete(logs, order) && OwnBlocksOnly(logs)
             && After(s, run).handled == s.handled + Merge(logs, order)
    ensures Owned(PostedLogs(After(s, run).threads, BaseOf(s)), a) <==> a in After(s, run).live - s.live
  {
    var logs := PostedLogs(After(s, run).threads, BaseOf(s));
    assert NoClear(logs) by {
      forall t | 0 <= t < |logs| {
        LegalRunHasNoClear(map[], logs[t]);
      }
    }
    HeapGainsTotal(s, run, order, a);
    if Owned(logs, a) {
      var t :| 0 <= t < |logs| && a in ReferenceHeap.Run(map[], logs[t]);
      OwnerMakesSurplus(logs, t, a);
    }
    if a in After(s, run).live - s.live {
      SurplusHasAnOwner(logs, a);
      var t :| 0 <= t < |logs| && Gross(logs[t], a) > 0;
      LegalRunCounts(map[], logs[t], a);
    }
  }

  /** Exact reports with reuse: at any quiet moment of a session, busy at its start or not, with any number of
      threads, any interleaving and any calls skipped, the report is exactly the blocks that the threads own
      by what they have posted, whenever no address that one still owns was ever released by another. */
  lemma ReportsAreTheOwned(s: System, run: seq<Action>)
    requires SessionBegins(s) && Possible(s, run) && Quiet(After(s, run))
    requires Based(After(s, run).threads, BaseOf(s))
    requires OwnBlocksOnly(PostedLogs(After(s, run).threads, BaseOf(s)))
    requires OwnedApart(PostedLogs(After(s, run).threads, BaseOf(s)))
    ensures forall a :: a in ReportedNow(After(s, run)) <==> Owned(PostedLogs(After(s, run).threads, BaseOf(s)), a)
  {
    var order := QuietMerge(s, run);
    ExactWhenApart(PostedLogs(After(s, run).threads, BaseOf(s)), order);
  }

  /** Between two quiet moments with nothing skipped, these are the blocks that are live now and were not then. */
  lemma SessionWithReuseIsExact(s: System, run: seq<Action>)
    requires SessionBegins(s) && Quiet(s) && Possible(s, run) && Quiet(After(s, run))
    requires After(s, run).skipped == s.skipped && Based(After(s, run).threads, BaseOf(s))
    requires OwnBlocksOnly(PostedLogs(After(s, run).threads, BaseOf(s)))
    requires OwnedApart(PostedLogs(After(s, run).threads, BaseOf(s)))
    ensures ReportedNow(After(s, run)) == After(s, run).live - s.live
  {
    var order := QuietMerge(s, run);
    ReportsAreTheOwned(s, run);
    forall a
      ensures a in ReportedNow(After(s, run)) <==> a in After(s, run).live - s.live
    {
      OwnedIsNew(s, run, order, a);
    }
  }
}
