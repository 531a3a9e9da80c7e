/** Exact reports: in a session in which libc never reuses an address, every interleaving and every merge
    of the queues ends in a report of exactly the blocks posted in the session that are still live or whose
    release the worker is never told, as long as each posted REALLOC is of a block of its own thread
    (src/HeapWatcher.cpp:226-304, 674-777). */
module Exactness {
  import opened Requests
  import opened Tracker
  import opened Counting
  import opened Machine
  import opened Soundness
  import opened PostLogs
  import opened Merges

  function Pending(pc: Pc): seq<Request> {
    if pc.Returned? || pc.Posting? then [pc.request] else []
  }

  /** What a thread has posted or may be about to post since `base`. */
  function ThreadLog(th: Thread, base: nat): seq<Request>
    requires base <= |th.posted|
  {
    th.posted[base..] + Pending(th.pc)
  }

  predicate Based(threads: seq<Thread>, base: seq<nat>) {
    |base| == |threads| && forall t :: 0 <= t < |threads| ==> base[t] <= threads[t].taken <= |threads[t].posted|
  }

  function SessionLogs(threads: seq<Thread>, base: seq<nat>): Logs
    requires Based(threads, base)
  {
    seq(|threads|, t requires 0 <= t < |threads| => ThreadLog(threads[t], base[t]))
  }

  function PostedLogs(threads: seq<Thread>, base: seq<nat>): Logs
    requires Based(threads, base)
  {
    seq(|threads|, t requires 0 <= t < |threads| => threads[t].posted[base[t]..])
  }

  function SessionTaken(threads: seq<Thread>, base: seq<nat>): seq<nat>
    requires Based(threads, base)
  {
    seq(|threads|, t requires 0 <= t < |threads| => threads[t].taken - base[t])
  }

  /** libc hands out only addresses it has never handed out, and no second session begins. */
  predicate NoReuse(s: System, action: Action)
    requires Enabled(s, action)
  {
    match action
    case LibcMalloc(_, record) => record.address !in s.used
    case LibcRealloc(_, original, moved, _) => moved == original || moved !in s.used
    case Proceed(t) => !s.threads[t].pc.StartClearing?
    case _ => true
  }

  /** The blocks released by the calls that posted nothing. */
  function Missed(skipped: seq<Request>): set<Address> {
    if skipped == [] then {} else Missed(Init(skipped)) + ReleasedBy(Last(skipped))
  }

  /** Where a session begins: each producer's place in its queue, the skips so far, and the blocks brought by
      leftover requests but already gone. */
  datatype Origin = Origin(base: seq<nat>, skips: nat, stale: set<Address>)

  /** The blocks whose release the worker is never told. */
  ghost function Untraced(s: System, o: Origin): set<Address>
    requires o.skips <= |s.skipped|
  {
    o.stale + Missed(s.skipped[o.skips..])
  }

  ghost function TruthOf(s: System, o: Origin): Truth
    requires o.skips <= |s.skipped|
  {
    Truth(s.live, s.used, Untraced(s, o))
  }

  ghost predicate OnlyHeapCalls(threads: seq<Thread>) {
    forall t :: 0 <= t < |threads| && (threads[t].pc.Returned? || threads[t].pc.Posting?) ==>
      threads[t].pc.request.Malloc? || threads[t].pc.request.Realloc? || threads[t].pc.request.Free?
  }

  /** The logs agree with the heap. */
  ghost predicate Fits(s: System, o: Origin) {
    && Based(s.threads, o.base) && OnlyHeapCalls(s.threads) && o.skips <= |s.skipped|
    && WellPosted(SessionLogs(s.threads, o.base), TruthOf(s, o))
  }

  /** The worker knows what it has taken of them. */
  ghost predicate Knowing(s: System, base: seq<nat>) {
    && Based(s.threads, base)
    && Merged(s.tracker, PostedLogs(s.threads, base), SessionTaken(s.threads, base))
  }

  lemma LogsUpdate(threads: seq<Thread>, base: seq<nat>, t: nat, th: Thread)
    requires Based(threads, base) && t < |threads| && base[t] <= th.taken <= |th.posted|
    ensures Based(threads[t := th], base)
    ensures SessionLogs(threads[t := th], base) == SessionLogs(threads, base)[t := ThreadLog(th, base[t])]
    ensures PostedLogs(threads[t := th], base) == PostedLogs(threads, base)[t := th.posted[base[t]..]]
    ensures SessionTaken(threads[t := th], base) == SessionTaken(threads, base)[t := th.taken - base[t]]
  {
  }

  lemma PostedArePrefixes(threads: seq<Thread>, base: seq<nat>)
    requires Based(threads, base)
    ensures ArePrefixes(PostedLogs(threads, base), SessionLogs(threads, base))
  {
  }

  // ----- the logs keep agreeing with the heap -----

  lemma LibcKeepsFit(s: System, o: Origin, action: Action)
    requires Fits(s, o) && Enabled(s, action) && NoReuse(s, action)
    requires action.LibcMalloc? || action.LibcRealloc? || action.LibcFree?
    ensures Fits(Apply(s, action), o)
  {
    var t := action.t;
    var th' := Apply(s, action).threads[t];
    var logs := SessionLogs(s.threads, o.base);
    LogsUpdate(s.threads, o.base, t, th');
    assert ThreadLog(th', o.base[t]) == logs[t] + [th'.pc.request];
    match action {
      case LibcMalloc(_, record) => MallocKeepsFit(logs, TruthOf(s, o), t, record);
      case LibcFree(_, block) => FreeKeepsFit(logs, TruthOf(s, o), t, block);
      case LibcRealloc(_, original, moved, newSize) =>
        ReallocKeepsFit(logs, TruthOf(s, o), t, original, moved, newSize);
    }
  }

  lemma MissedOneMore(skipped: seq<Request>, r: Request, from: nat)
    requires from <= |skipped|
    ensures Missed((skipped + [r])[from..]) == Missed(skipped[from..]) + ReleasedBy(r)
  {
    assert (skipped + [r])[from..] == skipped[from..] + [r];
    assert Init(skipped[from..] + [r]) == skipped[from..];
  }

  /** The thread's log loses the request that is not going to be posted. */
  lemma SkipFits(s: System, o: Origin, t: nat, path: CallPath)
    requires Fits(s, o) && Enabled(s, ReadFlags(t, path)) && !Passes(s, t, path)
    ensures Fits(Apply(s, ReadFlags(t, path)), o)
  {
    var s', r := Apply(s, ReadFlags(t, path)), s.threads[t].pc.request;
    LogsUpdate(s.threads, o.base, t, s'.threads[t]);
    var logs, logs' := SessionLogs(s.threads, o.base), SessionLogs(s'.threads, o.base);
    assert ThreadLog(s'.threads[t], o.base[t]) + [r] == logs[t];
    assert Append(logs', t, r) == logs;
    MissedOneMore(s.skipped, r, o.skips);
    SkipKeepsFit(logs', TruthOf(s, o), t, r);
    assert TruthOf(s', o) == TruthOf(s, o).(missed := TruthOf(s, o).missed + ReleasedBy(r));
  }

  /** Only the commands add to what a thread was going to post. */
  lemma AdvanceKeepsLog(s: System, t: nat, base: nat)
    requires Enabled(s, Proceed(t)) && base <= |s.threads[t].posted|
    requires !s.threads[t].pc.Asking? && !s.threads[t].pc.StopAsking? && !s.threads[t].pc.StartClearing?
    ensures base <= |Advance(s, t).threads[t].posted|
    ensures ThreadLog(Advance(s, t).threads[t], base) == ThreadLog(s.threads[t], base)
  {
    var th := s.threads[t];
    if th.pc.Posting? {
      assert (th.posted + [th.pc.request])[base..] == th.posted[base..] + [th.pc.request];
    }
  }

  lemma AdvanceStaysBased(s: System, o: Origin, t: nat)
    requires Based(s.threads, o.base) && Enabled(s, Proceed(t))
    ensures var s' := Advance(s, t);
            && s'.threads == s.threads[t := s'.threads[t]] && |s'.threads| == |s.threads|
            && o.base[t] <= s'.threads[t].taken <= |s'.threads[t].posted|
            && s'.live == s.live && s'.used == s.used && s'.skipped == s.skipped
            && !s'.threads[t].pc.Returned? && !s'.threads[t].pc.Posting?
  {
  }

  lemma AskingExtendsLog(s: System, t: nat, base: nat) returns (r: Request)
    requires Enabled(s, Proceed(t)) && base <= |s.threads[t].posted|
    requires s.threads[t].pc.Asking? || s.threads[t].pc.StopAsking?
    ensures r.IsCommand() && !r.Clear? && base <= |Advance(s, t).threads[t].posted|
    ensures ThreadLog(Advance(s, t).threads[t], base) == ThreadLog(s.threads[t], base) + [r]
  {
    r := Last(Advance(s, t).threads[t].posted);
  }

  lemma ProceedKeepsFit(s: System, o: Origin, t: nat)
    requires Fits(s, o) && Enabled(s, Proceed(t)) && NoReuse(s, Proceed(t))
    ensures Fits(Apply(s, Proceed(t)), o)
  {
    AdvanceStaysBased(s, o, t);
    hide Step, WellPosted, Advance, ThreadLog, SessionLogs;
    var th' := Advance(s, t).threads[t];
    var logs := SessionLogs(s.threads, o.base);
    LogsUpdate(s.threads, o.base, t, th');
    LogOf(s.threads, o.base, t);
    if s.threads[t].pc.Asking? || s.threads[t].pc.StopAsking? {
      var r := AskingExtendsLog(s, t, o.base[t]);
      CommandKeepsFit(logs, TruthOf(s, o), t, r);
    } else {
      AdvanceKeepsLog(s, t, o.base[t]);
      assert logs[t := logs[t]] == logs;
    }
  }

  lemma LogOf(threads: seq<Thread>, base: seq<nat>, t: nat)
    requires Based(threads, base) && t < |threads|
    ensures |SessionLogs(threads, base)| == |threads|
    ensures SessionLogs(threads, base)[t] == ThreadLog(threads[t], base[t])
  {
  }

  lemma StepKeepsFit(s: System, o: Origin, action: Action)
    requires Fits(s, o) && Enabled(s, action) && NoReuse(s, action)
    ensures Fits(Apply(s, action), o)
  {
    hide Step, WellPosted;
    var t := action.t;
    if action.LibcMalloc? || action.LibcRealloc? || action.LibcFree? {
      LibcKeepsFit(s, o, action);
    } else if action.Proceed? {
      ProceedKeepsFit(s, o, t);
    } else if action.ReadFlags? && !Passes(s, t, action.path) {
      SkipFits(s, o, t, action.path);
    } else {
      var th' := Apply(s, action).threads[t];
      LogsUpdate(s.threads, o.base, t, th');
      assert SessionLogs(s.threads, o.base)[t := ThreadLog(th', o.base[t])] == SessionLogs(s.threads, o.base);
    }
  }

  // ----- the worker keeps knowing -----

  /** The merge does not depend on what lies beyond the handled prefixes. */
  lemma MergedFrame(s: Tracker.State, logs: Logs, logs': Logs, taken: seq<nat>)
    requires Merged(s, logs, taken) && ArePrefixes(logs, logs')
    ensures Merged(s, logs', taken)
  {
    forall a
      ensures Knows(s, logs', taken, a)
    {
      assert Knows(s, logs, taken, a);
      assert forall t: nat, k: nat :: t < |logs| && k < taken[t] ==>
        (GainsAt(logs, t, k, a) <==> GainsAt(logs', t, k, a)) && (LosesAt(logs, t, k, a) <==> LosesAt(logs', t, k, a));
    }
  }

  /** The requests posted only grow. */
  lemma PostsGrow(s: System, base: seq<nat>, action: Action)
    requires Based(s.threads, base) && Enabled(s, action)
    ensures Based(Apply(s, action).threads, base)
    ensures ArePrefixes(PostedLogs(s.threads, base), PostedLogs(Apply(s, action).threads, base))
  {
    StepFrame(s, action);
    hide Step, Handles, Apply, Enabled;
    var t, s' := action.t, Apply(s, action);
    assert s.threads[t].posted <= s'.threads[t].posted;
    LogsUpdate(s.threads, base, t, s'.threads[t]);
    assert s.threads[t].posted[base[t]..] <= s'.threads[t].posted[base[t]..];
  }

  lemma TakeKeepsKnowing(s: System, base: seq<nat>, t: nat)
    requires Knowing(s, base) && Enabled(s, Take(t))
    requires GainedOnce(PostedLogs(s.threads, base)) && NoClear(PostedLogs(s.threads, base))
    requires ReallocsStay(PostedLogs(s.threads, base))
    ensures Knowing(Apply(s, Take(t)), base)
  {
    var th, th' := s.threads[t], Apply(s, Take(t)).threads[t];
    var logs, taken := PostedLogs(s.threads, base), SessionTaken(s.threads, base);
    LogsUpdate(s.threads, base, t, th');
    assert logs[t := th'.posted[base[t]..]] == logs;
    assert logs[t][taken[t]] == Head(th);
    AnyHeadIsHandled(s.tracker, logs, taken, t);
  }

  lemma OtherStepKeepsKnowing(s: System, base: seq<nat>, action: Action)
    requires Knowing(s, base) && Enabled(s, action) && !action.Take?
    ensures Knowing(Apply(s, action), base)
  {
    PostsGrow(s, base, action);
    OnlyTakesTake(s, action);
    hide Step, Handles, Apply, Enabled, Merged, PostedLogs;
    var s' := Apply(s, action);
    assert SessionTaken(s'.threads, base) == SessionTaken(s.threads, base);
    MergedFrame(s.tracker, PostedLogs(s.threads, base), PostedLogs(s'.threads, base), SessionTaken(s.threads, base));
  }

  lemma OnlyTakesTake(s: System, action: Action)
    requires Enabled(s, action) && !action.Take?
    ensures Apply(s, action).tracker == s.tracker && |Apply(s, action).threads| == |s.threads|
    ensures forall t :: 0 <= t < |s.threads| ==> Apply(s, action).threads[t].taken == s.threads[t].taken
  {
    StepFrame(s, action);
    hide Step, Handles, Apply, Enabled;
  }

  lemma StepKeepsKnowing(s: System, o: Origin, action: Action)
    requires Fits(s, o) && Knowing(s, o.base) && Enabled(s, action)
    requires ReallocsStay(PostedLogs(s.threads, o.base))
    ensures Knowing(Apply(s, action), o.base)
  {
    PostedArePrefixes(s.threads, o.base);
    PrefixesStay(PostedLogs(s.threads, o.base), SessionLogs(s.threads, o.base));
    hide Step, Handles, Apply, Merged, SessionLogs, PostedLogs;
    if action.Take? {
      TakeKeepsKnowing(s, o.base, action.t);
    } else {
      OtherStepKeepsKnowing(s, o.base, action);
    }
  }

  // ----- whole sessions -----

  function BaseOf(s: System): seq<nat> {
    seq(|s.threads|, t requires 0 <= t < |s.threads| => s.threads[t].taken)
  }

  ghost function Leftovers(s: System): Logs
    requires s.Valid()
  {
    SessionLogs(s.threads, BaseOf(s))
  }

  /** What is on its way when the session begins fits a heap that never hands out an address twice. */
  ghost predicate LeftoversFit(s: System) {
    && s.Valid() && OnlyHeapCalls(s.threads) && s.live <= s.used
    && var logs := Leftovers(s);
       && GainedOnce(logs) && LostOnce(logs) && GainsFirst(logs) && NoClear(logs)
       && (forall t, k, a :: GainsAt(logs, t, k, a) ==> a in s.used)
       && (forall t, k, a :: LosesAt(logs, t, k, a) ==> a in s.used && a !in s.live)
  }

  ghost function OriginOf(s: System): Origin
    requires s.Valid()
  {
    Origin(BaseOf(s), |s.skipped|,
           set a | a in s.used && a !in s.live && Gained(Leftovers(s), a) && !Lost(Leftovers(s), a))
  }

  /** Nothing left over fits, and leaves nothing stale. */
  lemma QuietLeftoversFit(s: System)
    requires Quiet(s) && s.Valid() && s.live <= s.used
    ensures LeftoversFit(s) && OriginOf(s).stale == {}
  {
    assert forall t :: 0 <= t < |s.threads| ==> Leftovers(s)[t] == [];
  }

  ghost predicate NoReuseRun(s: System, run: seq<Action>)
    requires Possible(s, run)
  {
    run == [] || (NoReuseRun(s, Init(run)) && NoReuse(After(s, Init(run)), Last(run)))
  }

  lemma LeftoversAreKnown(s: System)
    requires SessionBegins(s) && LeftoversFit(s)
    ensures Fits(s, OriginOf(s)) && Knowing(s, BaseOf(s))
  {
    assert s.tracker == EMPTY;
    assert s.skipped[|s.skipped|..] == [];
    assert forall t :: 0 <= t < |s.threads| ==> SessionTaken(s.threads, BaseOf(s))[t] == 0;
  }

  lemma {:induction false} RunKeepsFit(s: System, run: seq<Action>)
    requires SessionBegins(s) && LeftoversFit(s) && Possible(s, run) && NoReuseRun(s, run)
    ensures Fits(After(s, run), OriginOf(s))
  {
    if run == [] {
      LeftoversAreKnown(s);
    } else {
      RunKeepsFit(s, Init(run));
      StepKeepsFit(After(s, Init(run)), OriginOf(s), Last(run));
    }
  }

  /** The posted logs of the session agree with the heap, and while each posted REALLOC is of a block of its
      own thread the worker knows what it has taken of them. */
  lemma {:induction false} RunKeepsKnowing(s: System, run: seq<Action>)
    requires SessionBegins(s) && LeftoversFit(s) && Possible(s, run) && NoReuseRun(s, run)
    requires Based(After(s, run).threads, BaseOf(s))
    requires ReallocsStay(PostedLogs(After(s, run).threads, BaseOf(s)))
    ensures Knowing(After(s, run), BaseOf(s))
  {
    if run == [] {
      LeftoversAreKnown(s);
    } else {
      var before, action := After(s, Init(run)), Last(run);
      RunKeepsFit(s, Init(run));
      PostsGrow(before, BaseOf(s), action);
      PrefixesStay(PostedLogs(before.threads, BaseOf(s)), PostedLogs(After(s, run).threads, BaseOf(s)));
      RunKeepsKnowing(s, Init(run));
      StepKeepsKnowing(before, OriginOf(s), action);
    }
  }

  /** Exactly when no REALLOC of such a session can miss, whichever queues the worker turns to: each thread's
      posted REALLOCs are of blocks it obtained in the session itself and that no other thread's posted
      requests release. */
  lemma SessionReallocsHitIff(s: System, run: seq<Action>)
    requires SessionBegins(s) && LeftoversFit(s) && Possible(s, run) && NoReuseRun(s, run)
    ensures Based(After(s, run).threads, BaseOf(s))
    ensures var logs := PostedLogs(After(s, run).threads, BaseOf(s));
            EveryMergeIsHandled(logs) <==> ReallocsStay(logs)
  {
    RunKeepsFit(s, run);
    var now, base := After(s, run), BaseOf(s);
    PostedArePrefixes(now.threads, base);
    PrefixesStay(PostedLogs(now.threads, base), SessionLogs(now.threads, base));
    EveryMergeIsHandledIff(PostedLogs(now.threads, base));
  }

  /** The block at `a` was obtained, and its MALLOC or REALLOC posted, in the session. */
  ghost predicate PostedSince(s: System, base: seq<nat>, a: Address)
    requires |base| == |s.threads|
  {
    exists t, k :: 0 <= t < |base| && base[t] <= k < |s.threads[t].posted| && Gains(s.threads[t].posted[k], a)
  }

  lemma QuietLogsArePosted(s: System, base: seq<nat>)
    requires Based(s.threads, base) && Quiet(s)
    ensures SessionLogs(s.threads, base) == PostedLogs(s.threads, base)
    ensures var logs, taken := PostedLogs(s.threads, base), SessionTaken(s.threads, base);
            forall t :: 0 <= t < |logs| ==> taken[t] == |logs[t]| && logs[t] == s.threads[t].posted[base[t]..]
  {
    var logs := PostedLogs(s.threads, base);
    assert forall t :: 0 <= t < |logs| ==> SessionLogs(s.threads, base)[t] == logs[t] + [] == logs[t];
  }

  /** When everything is taken, what is seen is what is there. */
  lemma AllIsSeen(logs: Logs, taken: seq<nat>, a: Address)
    requires |taken| == |logs| && forall t :: 0 <= t < |logs| ==> taken[t] == |logs[t]|
    ensures SeenGained(logs, taken, a) <==> Gained(logs, a)
    ensures SeenLost(logs, taken, a) <==> Lost(logs, a)
  {
    if Gained(logs, a) {
      var t: nat, k: nat :| GainsAt(logs, t, k, a);
      assert k < taken[t];
    }
    if Lost(logs, a) {
      var t: nat, k: nat :| LosesAt(logs, t, k, a);
      assert k < taken[t];
    }
  }

  lemma GainedIsPosted(s: System, base: seq<nat>, a: Address)
    requires Based(s.threads, base)
    ensures Gained(PostedLogs(s.threads, base), a) <==> PostedSince(s, base, a)
  {
    hide Gains;
    var logs := PostedLogs(s.threads, base);
    if PostedSince(s, base, a) {
      var t, k :| 0 <= t < |base| && base[t] <= k < |s.threads[t].posted| && Gains(s.threads[t].posted[k], a);
      assert logs[t][k - base[t]] == s.threads[t].posted[k];
      assert GainsAt(logs, t, k - base[t], a);
    }
    if Gained(logs, a) {
      var t: nat, k: nat :| GainsAt(logs, t, k, a);
      assert logs[t][k] == s.threads[t].posted[base[t] + k];
    }
  }

  /** The session's posted REALLOCs are all of their threads' own blocks. */
  ghost predicate OwnReallocs(s: System, base: seq<nat>) {
    Based(s.threads, base) && ReallocsStay(PostedLogs(s.threads, base))
  }

  /** In such a session no REALLOC misses, whichever queue the worker turns to; and whenever nothing is on
      its way the report is exactly the blocks posted in the session that are still live, also when FREEs
      overtook their MALLOCs, and those whose release the worker was never told: skipped, or from before the
      session. So a listed block is a real leak if and only if it is not one of these. */
  lemma SessionReportsAreExact(s: System, run: seq<Action>)
    requires SessionBegins(s) && LeftoversFit(s) && Possible(s, run) && NoReuseRun(s, run)
    requires OwnReallocs(After(s, run), BaseOf(s))
    ensures |s.skipped| <= |After(s, run).skipped|
    ensures var now := After(s, run);
            forall t :: 0 <= t < |now.threads| && now.threads[t].taken < |now.threads[t].posted| ==>
              Handles(now.tracker, Head(now.threads[t]))
    ensures var now := After(s, run);
            Quiet(now) ==>
              forall a :: a in ReportedNow(now) <==>
                PostedSince(now, BaseOf(s), a) && (a in now.live || a in Untraced(now, OriginOf(s)))
    ensures var now := After(s, run);
            Quiet(now) ==>
              forall a :: a in ReportedNow(now) ==> (a in now.live <==> a !in Untraced(now, OriginOf(s)))
  {
    var now, base := After(s, run), BaseOf(s);
    RunKeepsFit(s, run);
    RunKeepsKnowing(s, run);
    HeadsAreHandled(now, OriginOf(s));
    if Quiet(now) {
      forall a
        ensures a in ReportedNow(now) <==>
                  PostedSince(now, base, a) && (a in now.live || a in Untraced(now, OriginOf(s)))
        ensures a in ReportedNow(now) ==> (a in now.live <==> a !in Untraced(now, OriginOf(s)))
      {
        QuietReportAt(now, OriginOf(s), a);
      }
    }
  }

  /** After a quiet start only skipped calls keep a release from the worker. */
  lemma QuietSessionReportsAreExact(s: System, run: seq<Action>)
    requires SessionBegins(s) && Quiet(s) && s.live <= s.used && Possible(s, run) && NoReuseRun(s, run)
    requires OwnReallocs(After(s, run), BaseOf(s)) && Quiet(After(s, run))
    ensures |s.skipped| <= |After(s, run).skipped|
    ensures var now := After(s, run);
            forall a :: a in ReportedNow(now) <==>
              PostedSince(now, BaseOf(s), a) && (a in now.live || a in Missed(now.skipped[|s.skipped|..]))
  {
    QuietLeftoversFit(s);
    SessionReportsAreExact(s, run);
  }

  lemma HeadsAreHandled(s: System, o: Origin)
    requires Fits(s, o) && Knowing(s, o.base) && OwnReallocs(s, o.base)
    ensures forall t :: 0 <= t < |s.threads| && s.threads[t].taken < |s.threads[t].posted| ==>
              Handles(s.tracker, Head(s.threads[t]))
  {
    PostedArePrefixes(s.threads, o.base);
    PrefixesStay(PostedLogs(s.threads, o.base), SessionLogs(s.threads, o.base));
    var logs, taken := PostedLogs(s.threads, o.base), SessionTaken(s.threads, o.base);
    forall t | 0 <= t < |s.threads| && s.threads[t].taken < |s.threads[t].posted|
      ensures Handles(s.tracker, Head(s.threads[t]))
    {
      assert logs[t][taken[t]] == Head(s.threads[t]);
      AnyHeadIsHandled(s.tracker, logs, taken, t);
    }
  }

  lemma QuietReportAt(s: System, o: Origin, a: Address)
    requires Fits(s, o) && Knowing(s, o.base) && Quiet(s)
    ensures a in ReportedNow(s) <==> PostedSince(s, o.base, a) && (a in s.live || a in Untraced(s, o))
    ensures a in ReportedNow(s) ==> (a in s.live <==> a !in Untraced(s, o))
  {
    var logs, taken := PostedLogs(s.threads, o.base), SessionTaken(s.threads, o.base);
    QuietLogsArePosted(s, o.base);
    ReportIsGainedNotLost(s.tracker, logs, taken, a);
    AllIsSeen(logs, taken, a);
    GainedIsPosted(s, o.base, a);
    hide Merged, Knows, Step, Gains, Loses;
    assert FitsHeap(SessionLogs(s.threads, o.base), TruthOf(s, o));
  }
}
