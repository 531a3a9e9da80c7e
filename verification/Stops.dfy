/** What the answer to stop_watching() accounts for when every producer has its own queue: decided at the
    moment the flag goes off (src/HeapWatcher.cpp:173-185, 452-460; README.md:13). */
module Stops {
  import opened Requests
  import opened Tracker
  import opened Machine
  import opened Session
  import opened Confluence
  import opened Soundness
  import opened Runs
  import opened Schedules

  ghost predicate OnlyQueries(q: seq<Request>) {
    forall i :: 0 <= i < |q| ==> IsQuery(q[i])
  }

  /** No other thread is about to post a heap request, and none is queued by another thread. */
  ghost predicate Prepared(s: System, t: nat)
    requires s.Valid()
  {
    forall u :: 0 <= u < |s.threads| && u != t ==>
      !s.threads[u].pc.Posting? && OnlyQueries(s.threads[u].Queue())
  }

  /** The run leads to the moment at which the stop of `t` is answered, for the first time. */
  ghost predicate LeadsToAnswer(s: System, run: seq<Action>, t: nat) {
    && Possible(s, run) && NoStopAnswered(s, run)
    && Enabled(After(s, run), Take(t)) && AnswersStop(After(s, run), Take(t))
  }

  /** Every heap request ever enqueued has been handled. */
  ghost predicate AllTold(s: System) {
    s.Valid() && forall u :: 0 <= u < |s.threads| ==> OnlyQueries(s.threads[u].Queue())
  }

  // ----- a prepared stop -----

  /** What is left of the thread's own requests, its SNAPSHOT aside. */
  function OwnLeft(th: Thread): seq<Request>
    requires th.Valid()
  {
    if th.pc.StopAwaiting? && th.Queue() != [] then Init(th.Queue()) else th.Queue()
  }

  /** While the stop waits: nothing but queries can join, and `more` has been handled of its own requests. */
  ghost predicate Waits(s0: System, s: System, t: nat, more: seq<Request>) {
    && Protocol(s) && t < |s0.threads| == |s.threads| && s0.Valid() && s.Valid()
    && Stopping(s.threads[t].pc) && Prepared(s, t)
    && Updates(more) + OwnLeft(s.threads[t]) == OwnLeft(s0.threads[t])
    && Defined(s0.tracker, more) && s.tracker == Fold(s0.tracker, more)
  }

  lemma StoppingHoldsTheLock(s: System, t: nat)
    requires Protocol(s) && t < |s.threads| && Stopping(s.threads[t].pc)
    ensures !s.watching && s.mutex == LockedBy(t)
    ensures forall u :: 0 <= u < |s.threads| && u != t ==> !HoldsMutex(s.threads[u].pc)
  {
    assert HoldsMutex(s.threads[t].pc);
  }

  lemma OthersOnlyAsk(s: System, action: Action, t: nat)
    requires Protocol(s) && Enabled(s, action) && action.t != t && t < |s.threads| && Stopping(s.threads[t].pc)
    requires s.Valid() && Prepared(s, t)
    ensures Apply(s, action).Valid() && Prepared(Apply(s, action), t)
    ensures Apply(s, action).threads[t] == s.threads[t]
    ensures action.Take? ==> IsQuery(Head(s.threads[action.t]))
  {
    hide Step, Handles;
    StoppingHoldsTheLock(s, t);
    var u, s' := action.t, Apply(s, action);
    var th, th' := s.threads[u], s'.threads[u];
    assert s'.threads == s.threads[u := th'];
    if action.Take? {
      assert th.Queue()[0] == Head(th);
      assert th'.Queue() == th.Queue()[1..];
    } else if action.Proceed? {
      assert th.pc.Asking?;
      assert th'.Queue() == th.Queue() + [if th.pc.stats then Stats(u) else Snapshot(u)];
    } else {
      assert th'.Queue() == th.Queue();
    }
  }

  /** What taking one of its own requests does to a stopping thread. */
  lemma OwnIsTaken(th: Thread, t: nat)
    requires Shaped(th, t) && Stopping(th.pc) && th.taken < |th.posted|
    requires th.pc.StopAwaiting? ==> !Head(th).Snapshot?
    ensures Woken(th.pc, Head(th)) == th.pc && !IsQuery(Head(th))
    ensures OwnLeft(th) == [Head(th)] + OwnLeft(th.(taken := th.taken + 1))
  {
    TakeKeepsShape(th, t);
    var q := th.Queue();
    assert q == [Head(th)] + q[1..] && q[1..] == th.posted[th.taken + 1..];
    if th.pc.StopAwaiting? {
      assert |q| > 1;
      assert Init(q) == [Head(th)] + Init(q[1..]);
    }
  }

  lemma TakenIsFolded(s0: Tracker.State, s: System, more: seq<Request>, u: nat)
    requires Defined(s0, more) && s.tracker == Fold(s0, more) && Enabled(s, Take(u))
    ensures Defined(s0, more + [Head(s.threads[u])])
    ensures Apply(s, Take(u)).tracker == Fold(s0, more + [Head(s.threads[u])])
  {
    FoldSnoc(s0, more, Head(s.threads[u]));
  }

  lemma OwnTakeIsWaited(s: System, t: nat)
    requires Protocol(s) && s.Valid() && t < |s.threads| && Stopping(s.threads[t].pc) && Prepared(s, t)
    requires Enabled(s, Take(t)) && !AnswersStop(s, Take(t))
    ensures var th, s' := s.threads[t], Apply(s, Take(t));
            && s'.Valid() && Prepared(s', t) && Stopping(s'.threads[t].pc) && !IsQuery(Head(th))
            && OwnLeft(th) == [Head(th)] + OwnLeft(s'.threads[t])
  {
    assert Shaped(s.threads[t], t);
    OwnIsTaken(s.threads[t], t);
    hide Step, Handles, Protocol, OwnLeft;
    assert Apply(s, Take(t)).threads[t] == s.threads[t].(taken := s.threads[t].taken + 1);
  }

  lemma ThreadsStay(s: System, action: Action)
    requires Enabled(s, action)
    ensures |Apply(s, action).threads| == |s.threads|
    ensures !action.Take? ==> Apply(s, action).tracker == s.tracker
  {
    StepFrame(s, action);
    hide Step, Handles, Apply, Enabled;
  }

  lemma TakeKeepsWaiting(s0: System, s: System, t: nat, more: seq<Request>, u: nat)
    requires Waits(s0, s, t, more) && Enabled(s, Take(u)) && !AnswersStop(s, Take(u))
    ensures Waits(s0, Apply(s, Take(u)), t, more + [Head(s.threads[u])])
  {
    var s', r := Apply(s, Take(u)), Head(s.threads[u]);
    StepKeepsProtocol(s, Take(u));
    ThreadsStay(s, Take(u));
    TakenIsFolded(s0.tracker, s, more, u);
    UpdatesOneMore(more, r);
    hide Step, Apply, Handles, Protocol, Fold, Defined, Updates, OwnLeft, Enabled, Head, AnswersStop;
    if u == t {
      OwnTakeIsWaited(s, t);
      hide IsQuery, Prepared, Stopping;
      OwnMovesOver(Updates(more), r, OwnLeft(s'.threads[t]));
    } else {
      OthersOnlyAsk(s, Take(u), t);
      hide IsQuery, Prepared, Stopping;
      assert Updates(more) + [] == Updates(more);
    }
  }

  lemma OwnMovesOver(done: seq<Request>, r: Request, left: seq<Request>)
    ensures done + ([r] + left) == done + [r] + left
  {
  }

  /** The SNAPSHOT joins the thread's own queue. */
  lemma AskingKeepsOwn(s: System, t: nat)
    requires s.Valid() && t < |s.threads| && s.threads[t].pc == StopAsking && Prepared(s, t)
    ensures Apply(s, Proceed(t)).Valid() && Prepared(Apply(s, Proceed(t)), t)
    ensures Apply(s, Proceed(t)).threads[t].pc == StopAwaiting
    ensures OwnLeft(Apply(s, Proceed(t)).threads[t]) == OwnLeft(s.threads[t])
  {
    hide Step, Handles;
    var q := s.threads[t].Queue();
    assert Apply(s, Proceed(t)).threads[t].Queue() == q + [Snapshot(t)];
    assert Init(q + [Snapshot(t)]) == q;
  }

  lemma StepKeepsWaiting(s0: System, s: System, t: nat, more: seq<Request>, action: Action)
    requires Waits(s0, s, t, more) && Enabled(s, action) && !AnswersStop(s, action) && !action.Take?
    ensures Waits(s0, Apply(s, action), t, more)
  {
    StepKeepsProtocol(s, action);
    ThreadsStay(s, action);
    hide Step, Apply, Handles, Protocol, Fold, Defined, Updates, OwnLeft, Prepared;
    if action.t == t {
      assert action == Proceed(t) && s.threads[t].pc.StopAsking?;
      AskingKeepsOwn(s, t);
    } else {
      OthersOnlyAsk(s, action, t);
    }
  }

  lemma {:induction false} RunKeepsWaiting(s: System, t: nat, run: seq<Action>) returns (more: seq<Request>)
    requires Protocol(s) && s.Valid() && t < |s.threads| && s.threads[t].pc == StopAsking && Prepared(s, t)
    requires Possible(s, run) && NoStopAnswered(s, run)
    ensures Waits(s, After(s, run), t, more)
  {
    more := [];
    if run != [] {
      more := RunKeepsWaiting(s, t, Init(run));
      var before, action := After(s, Init(run)), Last(run);
      hide Waits, Protocol, Step, Prepared;
      if action.Take? {
        TakeKeepsWaiting(s, before, t, more, action.t);
        more := more + [Head(before.threads[action.t])];
      } else {
        StepKeepsWaiting(s, before, t, more, action);
      }
    }
  }

  /** At the answer, all that was left of the thread's own requests has been handled too. */
  lemma AnswerComesLast(s0: System, s: System, t: nat, more: seq<Request>)
    requires Waits(s0, s, t, more) && Enabled(s, Take(t)) && AnswersStop(s, Take(t))
    ensures s.threads[t].Queue() == [Snapshot(t)] && Updates(more) == OwnLeft(s0.threads[t])
    ensures AllTold(s)
  {
    var th := s.threads[t];
    assert Shaped(th, t);
    TakeKeepsShape(th, t);
    assert th.Queue()[0] == Head(th);
    assert OwnLeft(th) == [];
  }

  /** The list of leaks a prepared stop returns is fixed when the flag goes off: it is what the worker's state
      and the thread's own queue give at that moment, whatever else happens before the answer. The own queue
      only must not reallocate a block that has strayed by then. */
  lemma PreparedAnswerIsFixed(s: System, t: nat, run: seq<Action>)
    requires Protocol(s) && s.Valid() && t < |s.threads| && s.threads[t].pc == StopAsking && Prepared(s, t)
    requires LeadsToAnswer(s, run, t)
    requires Defined(s.tracker, s.threads[t].Queue()) && SparesStrays(s.tracker, s.threads[t].Queue())
    ensures SameReport(Reconcile(After(s, run).tracker), Reconcile(Fold(s.tracker, s.threads[t].Queue())))
  {
    var more := RunKeepsWaiting(s, t, run);
    AnswerComesLast(s, After(s, run), t, more);
    assert Updates(more) == s.threads[t].Queue();
    QueriesAreTransparent(s.tracker, more);
    hide Fold, Defined, SparesStrays, Updates, TotalSize, After, Possible, Prepared, Protocol;
  }

  // ----- a stop that is not prepared -----

  /** The stop's SNAPSHOT is enqueued behind the thread's own requests. */
  lemma StopIsPosted(s: System, run: seq<Action>, now: System, t: nat)
    returns (longer: seq<Action>, next: System)
    requires ReachesQuietly(s, run, now, NULLPTR) && t < |now.threads| && now.threads[t].Valid()
    requires now.threads[t].pc == StopAsking
    ensures ReachesQuietly(s, longer, next, NULLPTR)
    ensures |next.threads| == |now.threads| && next.tracker == now.tracker
    ensures forall u :: 0 <= u < |now.threads| && u != t ==> next.threads[u] == now.threads[u]
    ensures next.threads[t].Valid() && next.threads[t].pc == StopAwaiting
    ensures next.threads[t].Queue() == now.threads[t].Queue() + [Snapshot(t)]
  {
    hide Step, Handles, ReachesQuietly;
    longer, next := run + [Proceed(t)], Apply(now, Proceed(t));
    ProceedsQuietly(s, run, now, t, NULLPTR);
  }

  /** The worker takes the thread's own requests and turns to the SNAPSHOT. */
  lemma StopIsNext(s: System, run: seq<Action>, now: System, t: nat, own: seq<Request>)
    returns (longer: seq<Action>, next: System)
    requires ReachesQuietly(s, run, now, NULLPTR) && t < |now.threads| && now.threads[t].Valid()
    requires now.threads[t].pc == StopAwaiting && now.threads[t].Queue() == own + [Snapshot(t)]
    requires NoCommands(own) && Defined(now.tracker, own)
    ensures LeadsToAnswer(s, longer, t) && After(s, longer) == next && |next.threads| == |now.threads|
    ensures forall u :: 0 <= u < |now.threads| && u != t ==> next.threads[u] == now.threads[u]
  {
    assert (own + [Snapshot(t)])[..|own|] == own;
    hide Step, Defined, Fold, After, Possible, NoStopAnswered;
    longer, next := TakesInARow(s, run, now, t, |own|, NULLPTR);
    assert Head(next.threads[t]) == (own + [Snapshot(t)])[|own|];
  }

  /** A heap request that another thread has queued, or is about to, can be left out of the answer. */
  lemma UnpreparedStopMisses(s: System, t: nat, u: nat) returns (run: seq<Action>)
    requires Protocol(s) && s.Valid() && t < |s.threads| && s.threads[t].pc == StopAsking
    requires Defined(s.tracker, s.threads[t].Queue())
    requires u < |s.threads| && u != t && (s.threads[u].pc.Posting? || !OnlyQueries(s.threads[u].Queue()))
    ensures LeadsToAnswer(s, run, t) && !AllTold(After(s, run))
  {
    assert Shaped(s.threads[t], t) && Shaped(s.threads[u], u);
    var own, c := s.threads[t].Queue(), Coming(s.threads[u]);
    assert !OnlyQueries(c) by {
      var q := s.threads[u].Queue();
      assert forall i :: 0 <= i < |q| ==> c[i] == q[i];
      if s.threads[u].pc.Posting? {
        assert c[|q|] == s.threads[u].pc.request;
      }
    }
    hide Step, Handles, Defined, Fold, After, Possible, Protocol, Shaped, ReachesQuietly, OnlyQueries, LeadsToAnswer;
    var now;
    run, now := PostIsEnqueued(s, u, NULLPTR);
    run, now := StopIsPosted(s, run, now, t);
    run, now := StopIsNext(s, run, now, t, own);
    assert now.threads[u].Queue() == c;
  }

  /** The answer to a stop accounts for every heap request enqueued before it, in every continuation, if and
      only if at the moment the flag goes off no other thread is posting one and no other queue holds one. */
  lemma StopReportsEverythingIff(s: System, t: nat)
    requires Protocol(s) && s.Valid() && t < |s.threads| && s.threads[t].pc == StopAsking
    requires Defined(s.tracker, s.threads[t].Queue())
    ensures (forall run :: LeadsToAnswer(s, run, t) ==> AllTold(After(s, run))) <==> Prepared(s, t)
  {
    if Prepared(s, t) {
      forall run | LeadsToAnswer(s, run, t)
        ensures AllTold(After(s, run))
      {
        var more := RunKeepsWaiting(s, t, run);
        AnswerComesLast(s, After(s, run), t, more);
      }
    } else {
      var u :| 0 <= u < |s.threads| && u != t && (s.threads[u].pc.Posting? || !OnlyQueries(s.threads[u].Queue()));
      var run := UnpreparedStopMisses(s, t, u);
    }
  }
}
