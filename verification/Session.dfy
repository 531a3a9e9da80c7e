/** The command protocol: start, stop, capture and snapshot callers against the worker, in every
    interleaving (src/HeapWatcher.cpp:149-220, 452-480, 585-608, 730-785). */
module Session {
  import opened Requests
  import opened Tracker
  import opened Machine

  /** Inside a section guarded by `command_mutex_`. */
  predicate HoldsMutex(pc: Pc) {
    || pc.StartLocked? || pc.StartClearing? || pc.StartAwaiting? || pc.StartCleared?
    || pc.StopLocked? || pc.StopAsking? || pc.StopAwaiting?
    || pc.CaptureLocked? || pc.Capturing? || pc.Recording? || pc.Unlocking?
  }

  /** Between finding the flag off and turning it on. */
  predicate Starting(pc: Pc) {
    pc.StartClearing? || pc.StartAwaiting? || pc.StartCleared?
  }

  /** Between turning the flag off and the reply. */
  predicate Stopping(pc: Pc) {
    pc.StopAsking? || pc.StopAwaiting?
  }

  /** A stage at which nobody is watched. */
  predicate FlagOff(pc: Pc) {
    Starting(pc) || Stopping(pc) || pc.Recording?
  }

  predicate Waiting(pc: Pc) {
    pc.Awaiting? || pc.StartAwaiting? || pc.StopAwaiting?
  }

  ghost predicate NoCommands(q: seq<Request>) {
    forall i :: 0 <= i < |q| ==> !q[i].IsCommand()
  }

  /** The request a blocked thread waits for. */
  predicate IsAwaited(pc: Pc, t: nat, r: Request) {
    match pc
    case StartAwaiting => r == Clear(t)
    case StopAwaiting => r == Snapshot(t)
    case Awaiting(stats) => r == if stats then Stats(t) else Snapshot(t)
    case _ => false
  }

  /** A blocked thread has exactly one command outstanding, the last request of its queue; the others
      have none. */
  ghost predicate Shaped(th: Thread, t: nat) {
    && th.Valid()
    && (th.pc.Returned? || th.pc.Posting? ==> !th.pc.request.IsCommand())
    && if Waiting(th.pc) then
         th.Queue() != [] && IsAwaited(th.pc, t, Last(th.Queue())) && NoCommands(Init(th.Queue()))
       else NoCommands(th.Queue())
  }

  ghost predicate AllShaped(s: System) {
    forall t :: 0 <= t < |s.threads| ==> Shaped(s.threads[t], t)
  }

  ghost predicate Locked(s: System) {
    && (forall t :: 0 <= t < |s.threads| ==> (HoldsMutex(s.threads[t].pc) <==> s.mutex == LockedBy(t)))
    && (forall t :: 0 <= t < |s.threads| && FlagOff(s.threads[t].pc) ==> !s.watching)
    && (forall t :: 0 <= t < |s.threads| && s.threads[t].pc.Capturing? ==> s.watching)
  }

  ghost predicate Protocol(s: System) {
    AllShaped(s) && Locked(s)
  }

  lemma PostKeepsShape(th: Thread, t: nat, r: Request, pc: Pc)
    requires th.Valid() && NoCommands(th.Queue())
    requires if Waiting(pc) then IsAwaited(pc, t, r) else !r.IsCommand()
    requires !pc.Returned? && !pc.Posting?
    ensures Shaped(th.(posted := th.posted + [r], pc := pc), t)
  {
    assert (th.posted + [r])[th.taken..] == th.Queue() + [r];
    assert Init(th.Queue() + [r]) == th.Queue();
  }

  lemma TakeKeepsShape(th: Thread, t: nat)
    requires Shaped(th, t) && th.taken < |th.posted|
    ensures Shaped(th.(taken := th.taken + 1, pc := Woken(th.pc, Head(th))), t)
    ensures Woken(th.pc, Head(th)) != th.pc <==> Waiting(th.pc) && |th.Queue()| == 1
    ensures Head(th).IsCommand() <==> Waiting(th.pc) && |th.Queue()| == 1
    ensures Head(th).IsCommand() ==> IsAwaited(th.pc, t, Head(th))
  {
    var q, q' := th.Queue(), th.posted[th.taken + 1..];
    assert q == [Head(th)] + q';
    if Waiting(th.pc) && |q| > 1 {
      assert Init(q)[0] == Head(th);
      assert forall i :: 0 <= i < |Init(q')| ==> Init(q')[i] == Init(q)[i + 1];
    }
  }

  lemma AdvanceKeepsShape(s: System, t: nat)
    requires Protocol(s) && Enabled(s, Proceed(t))
    ensures Shaped(Advance(s, t).threads[t], t)
  {
    hide Step, Handles, Locked;
    var th := s.threads[t];
    match th.pc
    case Posting(r) => PostKeepsShape(th, t, r, Idle);
    case Asking(stats) => PostKeepsShape(th, t, if stats then Stats(t) else Snapshot(t), Awaiting(stats));
    case StartClearing => PostKeepsShape(th, t, Clear(t), StartAwaiting);
    case StopAsking => PostKeepsShape(th, t, Snapshot(t), StopAwaiting);
    case _ =>
  }

  lemma CallKeepsShape(s: System, action: Action)
    requires Protocol(s) && Enabled(s, action) && !action.Take? && !action.Proceed?
    ensures Shaped(Apply(s, action).threads[action.t], action.t)
  {
    hide Step, Handles, Advance, Passes, Locked, NoCommands;
    assert Shaped(s.threads[action.t], action.t);
  }

  lemma StepKeepsShapes(s: System, action: Action)
    requires Protocol(s) && Enabled(s, action)
    ensures AllShaped(Apply(s, action))
  {
    var t := action.t;
    assert Shaped(s.threads[t], t);
    StepFrame(s, action);
    if action.Proceed? {
      AdvanceKeepsShape(s, t);
    } else if action.Take? {
      TakeKeepsShape(s.threads[t], t);
    } else {
      CallKeepsShape(s, action);
    }
    hide Step, Handles, Advance, Enabled, Shaped;
  }

  /** How one step may move a thread in and out of the guarded sections. */
  ghost predicate LockMove(s: System, t: nat, s': System)
    requires t < |s.threads| == |s'.threads|
  {
    var pc, pc' := s.threads[t].pc, s'.threads[t].pc;
    && (HoldsMutex(pc) ==> if HoldsMutex(pc') then s'.mutex == s.mutex else s'.mutex == Unlocked)
    && (!HoldsMutex(pc) && HoldsMutex(pc') ==> s.mutex == Unlocked && s'.mutex == LockedBy(t))
    && (!HoldsMutex(pc) && !HoldsMutex(pc') ==> s'.mutex == s.mutex)
    && (s'.watching != s.watching ==> HoldsMutex(pc))
    && (FlagOff(pc') ==> !s'.watching || (FlagOff(pc) && s'.watching == s.watching))
    && (pc'.Capturing? ==> s'.watching || (pc.Capturing? && s'.watching == s.watching))
  }

  lemma AdvanceMovesLock(s: System, t: nat)
    requires Enabled(s, Proceed(t))
    ensures Advance(s, t).threads == s.threads[t := Advance(s, t).threads[t]]
    ensures LockMove(s, t, Advance(s, t))
  {
  }

  lemma CallMovesLock(s: System, action: Action)
    requires Enabled(s, action) && !action.Proceed?
    ensures LockMove(s, action.t, Apply(s, action))
  {
    hide Step, Handles, Passes, Advance;
  }

  lemma LockMoves(s: System, action: Action)
    requires Enabled(s, action)
    ensures Apply(s, action).threads == s.threads[action.t := Apply(s, action).threads[action.t]]
    ensures LockMove(s, action.t, Apply(s, action))
  {
    StepFrame(s, action);
    if action.Proceed? {
      AdvanceMovesLock(s, action.t);
    } else {
      CallMovesLock(s, action);
    }
    hide Step, Handles, Advance, LockMove, Enabled;
  }

  lemma StepKeepsLock(s: System, action: Action)
    requires Locked(s) && Enabled(s, action)
    ensures Locked(Apply(s, action))
  {
    LockMoves(s, action);
    hide Apply, Enabled;
    var t, s' := action.t, Apply(s, action);
    forall u | 0 <= u < |s'.threads|
      ensures HoldsMutex(s'.threads[u].pc) <==> s'.mutex == LockedBy(u)
      ensures FlagOff(s'.threads[u].pc) ==> !s'.watching
      ensures s'.threads[u].pc.Capturing? ==> s'.watching
    {
      assert u != t ==> s'.threads[u] == s.threads[u];
      assert HoldsMutex(s.threads[t].pc) <==> s.mutex == LockedBy(t);
      assert FlagOff(s.threads[u].pc) || s.threads[u].pc.Capturing? ==>
        HoldsMutex(s.threads[u].pc);
    }
  }

  lemma StepKeepsProtocol(s: System, action: Action)
    requires Protocol(s) && Enabled(s, action)
    ensures Protocol(Apply(s, action))
  {
    hide Step, Apply, Enabled, AllShaped, Locked;
    StepKeepsShapes(s, action);
    StepKeepsLock(s, action);
  }

  /** The protocol invariant holds in every run from before the first session. */
  lemma {:induction false} RunKeepsProtocol(s: System, run: seq<Action>)
    requires Initial(s) && Possible(s, run)
    ensures Protocol(After(s, run))
  {
    if run != [] {
      RunKeepsProtocol(s, Init(run));
      StepKeepsProtocol(After(s, Init(run)), Last(run));
    }
  }

  /** A CLEAR is outstanding only while its poster holds the mutex in start_watching() with the global
      flag off; it is the poster's last request and no other CLEAR is outstanding anywhere. */
  lemma OutstandingClear(s: System, t: nat, i: nat)
    requires Protocol(s) && t < |s.threads| && i < |s.threads[t].Queue()| && s.threads[t].Queue()[i].Clear?
    ensures s.mutex == LockedBy(t) && s.threads[t].pc == StartAwaiting && !s.watching
    ensures i == |s.threads[t].Queue()| - 1
    ensures forall u, j :: 0 <= u < |s.threads| && 0 <= j < |s.threads[u].Queue()| && s.threads[u].Queue()[j].Clear? ==>
              u == t && j == i
  {
    forall u, j | 0 <= u < |s.threads| && 0 <= j < |s.threads[u].Queue()| && s.threads[u].Queue()[j].Clear?
      ensures s.mutex == LockedBy(u) && s.threads[u].pc == StartAwaiting && j == |s.threads[u].Queue()| - 1
    {
      assert Shaped(s.threads[u], u);
    }
    assert s.threads[t].Queue()[i].Clear?;
  }

  /** A heap call whose check passes does so while no CLEAR is outstanding anywhere. */
  lemma PassedCheckMeetsNoClear(s: System, t: nat, path: CallPath)
    requires Protocol(s) && t < |s.threads| && s.threads[t].pc.Returned? && Passes(s, t, path)
    ensures forall u, i :: 0 <= u < |s.threads| && 0 <= i < |s.threads[u].Queue()| ==>
              !s.threads[u].Queue()[i].Clear?
  {
    forall u, i | 0 <= u < |s.threads| && 0 <= i < |s.threads[u].Queue()|
      ensures !s.threads[u].Queue()[i].Clear?
    {
      if s.threads[u].Queue()[i].Clear? {
        OutstandingClear(s, u, i);
      }
    }
  }

  /** While a thread is in a guarded section nobody else changes the global flag or the mutex. */
  lemma MutexGuardsTheFlag(s: System, action: Action, t: nat)
    requires Protocol(s) && Enabled(s, action) && t < |s.threads| && HoldsMutex(s.threads[t].pc) && action.t != t
    ensures Apply(s, action).watching == s.watching && Apply(s, action).mutex == s.mutex
    ensures !HoldsMutex(s.threads[action.t].pc) && Apply(s, action).threads[t] == s.threads[t]
  {
    LockMoves(s, action);
    assert s.mutex == LockedBy(t);
    assert HoldsMutex(s.threads[action.t].pc) <==> s.mutex == LockedBy(action.t);
  }

  // ----- exactly one reply per caller -----

  /** Each caller's command moves towards the head only, one place for each of its producer's requests
      handled, and the caller wakes in the very step that handles it. */
  lemma WaitersAreServedInTurn(s: System, action: Action, t: nat)
    requires Protocol(s) && Enabled(s, action) && t < |s.threads| && Waiting(s.threads[t].pc)
    ensures Apply(s, action).threads[t].Valid()
    ensures var th, th' := s.threads[t], Apply(s, action).threads[t];
            if action != Take(t) then th' == th
            else
              && |th'.Queue()| == |th.Queue()| - 1
              && (Waiting(th'.pc) <==> |th.Queue()| > 1)
              && (Waiting(th'.pc) ==> th'.pc == th.pc && Last(th'.Queue()) == Last(th.Queue()))
              && (!Waiting(th'.pc) ==> IsAwaited(th.pc, t, Head(th)))
  {
    assert Shaped(s.threads[t], t);
    if action == Take(t) {
      TakeKeepsShape(s.threads[t], t);
    }
  }

  // ----- a session is never cleared from under its callers -----

  /** From the CLEAR of start_watching() being handled until stop_watching() has its reply. */
  ghost predicate SessionOpen(s: System) {
    && Protocol(s)
    && (s.watching || exists t :: 0 <= t < |s.threads| && HoldsSessionOpen(s.threads[t].pc))
    && forall t :: 0 <= t < |s.threads| ==> !ClearsOrCaptures(s.threads[t].pc)
  }

  /** The flag is off, but the session has begun or is not over. */
  predicate HoldsSessionOpen(pc: Pc) {
    pc.StartCleared? || Stopping(pc)
  }

  predicate ClearsOrCaptures(pc: Pc) {
    pc.StartClearing? || pc.StartAwaiting? || pc.Capturing?
  }

  lemma SessionOpens(s: System, t: nat)
    requires Protocol(s) && Enabled(s, Take(t)) && Head(s.threads[t]).Clear?
    ensures SessionOpen(Apply(s, Take(t)))
    ensures Apply(s, Take(t)).threads[t].pc == StartCleared && Apply(s, Take(t)).threads[t].Queue() == []
  {
    StepKeepsProtocol(s, Take(t));
    hide Step;
    var s' := Apply(s, Take(t));
    assert forall u :: 0 <= u < |s.threads| && u != t ==> s'.threads[u] == s.threads[u];
    assert Shaped(s.threads[t], t);
    TakeKeepsShape(s.threads[t], t);
    assert s.threads[t].pc.StartAwaiting? && HoldsMutex(s.threads[t].pc);
  }

  /** The step that answers stop_watching(). */
  predicate AnswersStop(s: System, action: Action)
    requires Enabled(s, action)
  {
    action.Take? && s.threads[action.t].pc.StopAwaiting? && Head(s.threads[action.t]).Snapshot?
  }

  /** What one step of a thread may do to an open session. */
  ghost predicate SessionMove(s: System, t: nat, s': System)
    requires t < |s.threads| == |s'.threads|
  {
    var pc, pc' := s.threads[t].pc, s'.threads[t].pc;
    && (ClearsOrCaptures(pc') ==> ClearsOrCaptures(pc) || (HoldsMutex(pc) && !s.watching))
    && (s.watching && !s'.watching ==> HoldsSessionOpen(pc') || pc.Capturing?)
    && (HoldsSessionOpen(pc) ==> !ClearsOrCaptures(pc') && (s'.watching || HoldsSessionOpen(pc')))
  }

  lemma AdvanceMovesSession(s: System, t: nat)
    requires Enabled(s, Proceed(t))
    ensures |Advance(s, t).threads| == |s.threads| && SessionMove(s, t, Advance(s, t))
  {
    hide Step, Handles;
  }

  lemma StepMovesSession(s: System, action: Action)
    requires Enabled(s, action) && !AnswersStop(s, action) && !(action.Take? && Head(s.threads[action.t]).Clear?)
    ensures |Apply(s, action).threads| == |s.threads| && SessionMove(s, action.t, Apply(s, action))
  {
    if action.Proceed? {
      AdvanceMovesSession(s, action.t);
    }
    hide Step, Handles, Advance, Passes;
  }

  /** No CLEAR is outstanding in an open session. */
  lemma OpenSessionHasNoClear(s: System, t: nat)
    requires SessionOpen(s) && t < |s.threads| && s.threads[t].taken < |s.threads[t].posted|
    ensures !Head(s.threads[t]).Clear?
  {
    assert Shaped(s.threads[t], t);
    TakeKeepsShape(s.threads[t], t);
  }

  lemma MoveKeepsSessionOpen(s: System, t: nat, s': System)
    requires SessionOpen(s) && Protocol(s') && t < |s.threads| == |s'.threads| && SessionMove(s, t, s')
    requires s'.threads == s.threads[t := s'.threads[t]]
    ensures SessionOpen(s')
  {
    hide AllShaped;
    assert !ClearsOrCaptures(s.threads[t].pc);
    if !s.watching {
      var u :| 0 <= u < |s.threads| && HoldsSessionOpen(s.threads[u].pc);
      assert s.mutex == LockedBy(u);
      assert HoldsMutex(s.threads[t].pc) ==> t == u;
      assert s'.watching || HoldsSessionOpen(s'.threads[u].pc);
    } else if !s'.watching {
      assert HoldsSessionOpen(s'.threads[t].pc);
    }
  }

  lemma StepKeepsSessionOpen(s: System, action: Action)
    requires SessionOpen(s) && Enabled(s, action) && !AnswersStop(s, action)
    ensures SessionOpen(Apply(s, action))
    ensures action.Take? ==> !Head(s.threads[action.t]).Clear?
  {
    if action.Take? {
      OpenSessionHasNoClear(s, action.t);
    }
    StepKeepsProtocol(s, action);
    StepMovesSession(s, action);
    LockMoves(s, action);
    hide Step, Handles, Apply, Enabled, SessionOpen, SessionMove, Protocol, LockMove, Head;
    MoveKeepsSessionOpen(s, action.t, Apply(s, action));
  }

  /** No stop is answered on the way. */
  ghost predicate NoStopAnswered(s: System, run: seq<Action>)
    requires Possible(s, run)
  {
    run == [] || (NoStopAnswered(s, Init(run)) && !AnswersStop(After(s, Init(run)), Last(run)))
  }

  /** `s` has handled `more` on top of what it had. */
  ghost predicate Grown(s0: System, s: System, more: seq<Request>) {
    && s.handled == s0.handled + more && (forall r :: r in more ==> !r.Clear?)
    && Defined(s0.tracker, more) && s.tracker == Fold(s0.tracker, more)
  }

  lemma StepGrows(s0: System, s: System, more: seq<Request>, action: Action)
    requires Grown(s0, s, more) && Enabled(s, action)
    requires action.Take? ==> !Head(s.threads[action.t]).Clear?
    ensures Grown(s0, Apply(s, action), if action.Take? then more + [Head(s.threads[action.t])] else more)
  {
    if action.Take? {
      FoldSnoc(s0.tracker, more, Head(s.threads[action.t]));
      hide Fold, Defined, Step;
    } else {
      StepFrame(s, action);
      hide Fold, Defined, Step, Apply, Enabled;
    }
  }

  /** From the moment a session's CLEAR is handled until its stop is answered, no CLEAR is handled: the worker only
      adds to what it had, so nothing posted in the session is erased before it is reported. */
  lemma {:induction false} OpenSessionOnlyGrows(s: System, run: seq<Action>) returns (more: seq<Request>)
    requires SessionOpen(s) && Possible(s, run) && NoStopAnswered(s, run)
    ensures SessionOpen(After(s, run)) && Grown(s, After(s, run), more)
  {
    more := [];
    if run != [] {
      more := OpenSessionOnlyGrows(s, Init(run));
      var before, action := After(s, Init(run)), Last(run);
      hide Grown, Step, SessionOpen, Apply;
      StepKeepsSessionOpen(before, action);
      StepGrows(s, before, more, action);
      more := if action.Take? then more + [Head(before.threads[action.t])] else more;
    }
  }

  // ----- with one linear queue -----

  /** The requests of one producer, in order. */
  function From(arrivals: seq<(nat, Request)>, t: nat): seq<Request> {
    if arrivals == [] then []
    else if Last(arrivals).0 == t then From(Init(arrivals), t) + [Last(arrivals).1]
    else From(Init(arrivals), t)
  }

  lemma {:induction false} FromCons(arrivals: seq<(nat, Request)>, t: nat)
    requires arrivals != []
    ensures From(arrivals, t)
         == (if arrivals[0].0 == t then [arrivals[0].1] else []) + From(arrivals[1..], t)
  {
    if |arrivals| == 1 {
      assert arrivals[1..] == [] && Init(arrivals) == [];
    } else {
      assert Init(arrivals)[1..] == Init(arrivals[1..]);
      FromCons(Init(arrivals), t);
    }
  }

  /** The worker has handled a prefix of the arrivals; the queues hold the rest. */
  ghost predicate InArrivalOrder(s: System) {
    && s.Valid()
    && |s.handled| <= |s.arrivals|
    && (forall i :: 0 <= i < |s.handled| ==> s.handled[i] == s.arrivals[i].1)
    && forall t :: 0 <= t < |s.threads| ==> s.threads[t].Queue() == From(s.arrivals[|s.handled|..], t)
  }

  /** One queue for all producers: the worker takes the oldest arrival. */
  predicate TakesOldest(s: System, action: Action) {
    action.Take? ==> |s.handled| < |s.arrivals| && s.arrivals[|s.handled|].0 == action.t
  }

  lemma TakeKeepsArrivalOrder(s: System, t: nat)
    requires InArrivalOrder(s) && Enabled(s, Take(t)) && TakesOldest(s, Take(t))
    ensures InArrivalOrder(Apply(s, Take(t)))
    ensures s.arrivals[|s.handled|] == (t, Head(s.threads[t]))
  {
    hide Step, Handles;
    var s', rest := Apply(s, Take(t)), s.arrivals[|s.handled|..];
    assert rest[1..] == s'.arrivals[|s'.handled|..];
    FromCons(rest, t);
    assert s.threads[t].Queue()[0] == Head(s.threads[t]);
    forall u | 0 <= u < |s.threads|
      ensures s'.threads[u].Queue() == From(rest[1..], u)
    {
      FromCons(rest, u);
    }
  }

  lemma EnqueueKeepsArrivalOrder(s: System, t: nat, r: Request, pc: Pc)
    requires InArrivalOrder(s) && t < |s.threads|
    ensures InArrivalOrder(Enqueue(s, t, r, pc))
  {
    var s', rest := Enqueue(s, t, r, pc), s.arrivals[|s.handled|..];
    assert s'.arrivals[|s.handled|..] == rest + [(t, r)];
    assert Init(rest + [(t, r)]) == rest;
    assert s'.threads[t].Queue() == s.threads[t].Queue() + [r];
  }

  lemma OtherStepsMoveNothing(s: System, action: Action)
    requires s.Valid() && Enabled(s, action) && !action.Take?
    requires action.Proceed? ==> !Enqueues(s.threads[action.t].pc)
    ensures Apply(s, action).Valid() && |Apply(s, action).threads| == |s.threads|
    ensures Apply(s, action).handled == s.handled && Apply(s, action).arrivals == s.arrivals
    ensures forall u :: 0 <= u < |s.threads| ==> Apply(s, action).threads[u].Queue() == s.threads[u].Queue()
  {
    StepFrame(s, action);
    hide Step, Handles, Apply, Enabled;
  }

  lemma StepKeepsArrivalOrder(s: System, action: Action)
    requires InArrivalOrder(s) && Enabled(s, action) && TakesOldest(s, action)
    ensures InArrivalOrder(Apply(s, action))
  {
    hide Step, From, Handles, InArrivalOrder;
    var t := action.t;
    if action.Take? {
      TakeKeepsArrivalOrder(s, t);
    } else if action.Proceed? && Enqueues(s.threads[t].pc) {
      match s.threads[t].pc
      case Posting(r) => EnqueueKeepsArrivalOrder(s, t, r, Idle);
      case Asking(stats) => EnqueueKeepsArrivalOrder(s, t, if stats then Stats(t) else Snapshot(t), Awaiting(stats));
      case StartClearing => EnqueueKeepsArrivalOrder(s, t, Clear(t), StartAwaiting);
      case StopAsking => EnqueueKeepsArrivalOrder(s, t, Snapshot(t), StopAwaiting);
    } else {
      SameQueuesSameOrder(s, action);
    }
  }

  lemma SameQueuesSameOrder(s: System, action: Action)
    requires InArrivalOrder(s) && Enabled(s, action) && !action.Take?
    requires action.Proceed? ==> !Enqueues(s.threads[action.t].pc)
    ensures InArrivalOrder(Apply(s, action))
  {
    OtherStepsMoveNothing(s, action);
    hide Step, From, Handles, Apply;
  }

  ghost predicate LinearRun(s: System, run: seq<Action>)
    requires Possible(s, run)
  {
    run == [] || (LinearRun(s, Init(run)) && TakesOldest(After(s, Init(run)), Last(run)))
  }

  lemma {:induction false} LinearRunKeepsArrivalOrder(s: System, run: seq<Action>)
    requires Initial(s) && Possible(s, run) && LinearRun(s, run)
    ensures InArrivalOrder(After(s, run))
  {
    if run != [] {
      LinearRunKeepsArrivalOrder(s, Init(run));
      StepKeepsArrivalOrder(After(s, Init(run)), Last(run));
    }
  }

  /** The requests of the first `n` arrivals. */
  function Enqueued(arrivals: seq<(nat, Request)>, n: nat): seq<Request>
    requires n <= |arrivals|
  {
    seq(n, i requires 0 <= i < n => arrivals[i].1)
  }

  /** The reply to a request is the report of exactly the stream `ms`: its statistics, and the listing of
      what it leaves open. */
  ghost predicate RepliesWithReportOf(tracker: State, r: Request, ms: seq<Request>) {
    && Defined(EMPTY, ms) && r.Snapshot?
    && var report := Reconcile(Fold(EMPTY, ms));
       RepliesTo(tracker, r) == [Reported(r.caller, StatisticsOf(report), Listing(report.open))]
  }

  lemma FoldedIsReported(tracker: State, r: Request, ms: seq<Request>)
    requires Defined(EMPTY, ms) && tracker == Fold(EMPTY, ms) && r.Snapshot?
    ensures RepliesWithReportOf(tracker, r, ms)
  {
    hide Defined, Fold, Reconcile, Listing, StatisticsOf;
  }

  lemma StopIsOldest(s: System, t: nat)
    requires InArrivalOrder(s) && Protocol(s) && Enabled(s, Take(t)) && TakesOldest(s, Take(t)) && AnswersStop(s, Take(t))
    ensures |s.handled| < |s.arrivals| && s.arrivals[|s.handled|] == (t, Snapshot(t))
    ensures Head(s.threads[t]) == Snapshot(t)
    ensures s.handled == Enqueued(s.arrivals, |s.handled|)
  {
    TakeKeepsArrivalOrder(s, t);
    assert Shaped(s.threads[t], t);
    TakeKeepsShape(s.threads[t], t);
  }

  /** With one linear FIFO queue the reply to a stop is the report of exactly the requests enqueued before the
      stop's own (README.md:13). */
  lemma LinearStopReportsEverything(s: System, run: seq<Action>, t: nat)
    requires Initial(s) && Possible(s, run) && LinearRun(s, run)
    requires Enabled(After(s, run), Take(t)) && TakesOldest(After(s, run), Take(t))
    requires AnswersStop(After(s, run), Take(t))
    ensures var now := After(s, run);
            && |now.handled| < |now.arrivals| && now.arrivals[|now.handled|] == (t, Snapshot(t))
            && RepliesWithReportOf(now.tracker, Snapshot(t), Enqueued(now.arrivals, |now.handled|))
  {
    LinearRunKeepsArrivalOrder(s, run);
    RunKeepsProtocol(s, run);
    RunFollows(s, run);
    hide *;
    StopIsOldest(After(s, run), t);
    TrackerIsFold(After(s, run));
    FoldedIsReported(After(s, run).tracker, Snapshot(t), After(s, run).handled);
  }

  lemma TrackerIsFold(s: System)
    requires TrackerFollows(s)
    ensures Defined(EMPTY, s.handled) && s.tracker == Fold(EMPTY, s.handled)
  {
  }
}
