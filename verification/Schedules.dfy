/** Building runs step by step: the worker drains one producer's queue while nobody else moves. */
module Schedules {
  import opened Requests
  import opened Tracker
  import opened Machine
  import opened Soundness
  import opened Session
  import opened Runs

  /** The run so far leads from `s` to `now`; in it no CLEAR is taken, no stop answered, and every release of
      `a` let through. */
  ghost predicate ReachesQuietly(s: System, run: seq<Action>, now: System, a: Address) {
    Reaches(s, run, now) && TakesNoClear(s, run) && NoStopAnswered(s, run) && KeepsReleases(s, run, a)
  }

  lemma ProceedsQuietly(s: System, run: seq<Action>, now: System, t: nat, a: Address)
    requires ReachesQuietly(s, run, now, a) && Enabled(now, Proceed(t))
    ensures ReachesQuietly(s, run + [Proceed(t)], Apply(now, Proceed(t)), a)
  {
    Then(s, run, now, Proceed(t), Apply(now, Proceed(t)));
    assert Init(run + [Proceed(t)]) == run && Last(run + [Proceed(t)]) == Proceed(t);
  }

  lemma TakenQuietly(s: System, run: seq<Action>, now: System, t: nat, a: Address)
    returns (longer: seq<Action>, next: System)
    requires ReachesQuietly(s, run, now, a) && t < |now.threads| && now.threads[t].taken < |now.threads[t].posted|
    requires Handles(now.tracker, Head(now.threads[t])) && !Head(now.threads[t]).IsCommand()
    ensures ReachesQuietly(s, longer, next, a) && next == TakenOf(now, t)
  {
    hide After, Possible, Step, Handles;
    longer, next := IsTaken(s, run, now, t);
    assert Init(longer) == run && Last(longer) == Take(t);
  }

  ghost function TakenOf(now: System, t: nat): System
    requires t < |now.threads| && now.threads[t].taken < |now.threads[t].posted|
    requires Handles(now.tracker, Head(now.threads[t]))
  {
    var th := now.threads[t];
    now.(tracker := Step(now.tracker, Head(th)),
         handled := now.handled + [Head(th)],
         threads := now.threads[t := th.(taken := th.taken + 1)])
  }

  /** The system after the worker has taken `n` requests, none a command, from one thread. */
  ghost function AfterTakes(now: System, t: nat, n: nat): System
    requires t < |now.threads| && now.threads[t].Valid() && n <= |now.threads[t].Queue()|
    requires Defined(now.tracker, now.threads[t].Queue()[..n])
  {
    var th := now.threads[t];
    now.(tracker := Fold(now.tracker, th.Queue()[..n]),
         handled := now.handled + th.Queue()[..n],
         threads := now.threads[t := th.(taken := th.taken + n)])
  }

  lemma AfterOneMoreTake(now: System, t: nat, n: nat)
    requires t < |now.threads| && now.threads[t].Valid() && n < |now.threads[t].Queue()|
    requires Defined(now.tracker, now.threads[t].Queue()[..n + 1])
    ensures Defined(now.tracker, now.threads[t].Queue()[..n])
    ensures var was := AfterTakes(now, t, n);
            && Head(was.threads[t]) == now.threads[t].Queue()[n] && Handles(was.tracker, Head(was.threads[t]))
            && TakenOf(was, t) == AfterTakes(now, t, n + 1)
  {
    hide Step, Handles;
    var q := now.threads[t].Queue();
    assert Init(q[..n + 1]) == q[..n] && Last(q[..n + 1]) == q[n];
    FoldedOneMore(now.tracker, q[..n + 1]);
    hide Defined, Fold;
    var th := now.threads[t];
    assert now.threads[t := th.(taken := th.taken + n)][t := th.(taken := th.taken + n + 1)]
        == now.threads[t := th.(taken := th.taken + n + 1)];
  }

  lemma {:induction false} TakesInARow(s: System, run: seq<Action>, now: System, t: nat, n: nat, a: Address)
    returns (longer: seq<Action>, next: System)
    requires ReachesQuietly(s, run, now, a) && t < |now.threads| && now.threads[t].Valid()
    requires n <= |now.threads[t].Queue()| && Defined(now.tracker, now.threads[t].Queue()[..n])
    requires NoCommands(now.threads[t].Queue()[..n])
    ensures ReachesQuietly(s, longer, next, a) && next == AfterTakes(now, t, n)
  {
    hide Step, Handles, After, Possible, ReachesQuietly;
    var th := now.threads[t];
    if n == 0 {
      longer, next := run, now;
      assert now.threads[t := th] == now.threads;
    } else {
      AfterOneMoreTake(now, t, n - 1);
      assert forall i :: 0 <= i < n - 1 ==> th.Queue()[..n - 1][i] == th.Queue()[..n][i];
      longer, next := TakesInARow(s, run, now, t, n - 1, a);
      assert th.Queue()[n - 1] == th.Queue()[..n][n - 1];
      hide Defined, Fold, AfterTakes;
      longer, next := TakenQuietly(s, longer, next, t, a);
    }
  }

  lemma FoldedOneMore(s: Tracker.State, ms: seq<Request>)
    requires ms != [] && Defined(s, ms)
    ensures Defined(s, Init(ms)) && Handles(Fold(s, Init(ms)), Last(ms))
    ensures Fold(s, ms) == Step(Fold(s, Init(ms)), Last(ms))
  {
  }

  /** The requests of a thread that are bound to be posted. */
  function Coming(th: Thread): seq<Request>
    requires th.Valid()
  {
    th.Queue() + (if th.pc.Posting? then [th.pc.request] else [])
  }

  /** The request a thread is posting, if any, is enqueued. */
  lemma PostIsEnqueued(s: System, t: nat, a: Address) returns (run: seq<Action>, now: System)
    requires Protocol(s) && t < |s.threads|
    ensures ReachesQuietly(s, run, now, a)
    ensures now.tracker == s.tracker && now.live == s.live
    ensures |now.threads| == |s.threads| && now.threads == s.threads[t := now.threads[t]]
    ensures now.threads[t].Valid() && now.threads[t].Queue() == Coming(s.threads[t])
    ensures now.threads[t].pc == if s.threads[t].pc.Posting? then Idle else s.threads[t].pc
  {
    hide Step, Handles;
    var th := s.threads[t];
    assert Shaped(th, t);
    run, now := [], s;
    assert ReachesQuietly(s, [], s, a);
    if th.pc.Posting? {
      run, now := [] + [Proceed(t)], Apply(s, Proceed(t));
      ProceedsQuietly(s, [], s, t, a);
      assert (th.posted + [th.pc.request])[th.taken..] == Coming(th);
    } else {
      assert s.threads[t := th] == s.threads;
    }
  }

  // ----- nobody waits for ever -----

  /** Whoever holds the mutex can go on, or waits for a command that the worker can come to: the next request
      of the holder's own queue can be taken, unless it is a REALLOC without a record. */
  lemma HolderCanGoOn(s: System, t: nat)
    requires Protocol(s) && t < |s.threads| && s.mutex == LockedBy(t)
    ensures || Enabled(s, Proceed(t)) || Enabled(s, Record(t, [], []))
            || (Waiting(s.threads[t].pc) && s.threads[t].taken < |s.threads[t].posted|
                && (Handles(s.tracker, Head(s.threads[t])) ==> Enabled(s, Take(t))))
  {
    hide Step, Handles;
    assert Shaped(s.threads[t], t);
    assert HoldsMutex(s.threads[t].pc);
  }

  /** Where a caller goes on once it is answered. */
  function Answered(pc: Pc): Pc {
    match pc
    case StartAwaiting => StartCleared
    case StopAwaiting => Unlocking
    case _ => Idle
  }

  /** The worker comes to the request that a caller waits for. */
  lemma TakeIsAnswered(now: System, t: nat)
    requires t < |now.threads| && now.threads[t].taken < |now.threads[t].posted|
    requires IsAwaited(now.threads[t].pc, t, Head(now.threads[t]))
    ensures Enabled(now, Take(t)) && Handles(now.tracker, Head(now.threads[t]))
    ensures var th := now.threads[t];
            Apply(now, Take(t)) == now.(
              tracker := Step(now.tracker, Head(th)),
              handled := now.handled + [Head(th)],
              threads := now.threads[t := th.(taken := th.taken + 1, pc := Answered(th.pc))])
  {
    hide Step;
  }

  /** The system once `t` has been answered. */
  ghost function AfterAnswer(s: System, t: nat): System
    requires t < |s.threads| && s.threads[t].Valid() && Defined(s.tracker, s.threads[t].Queue())
  {
    var th := s.threads[t];
    s.(tracker := Fold(s.tracker, th.Queue()),
       handled := s.handled + th.Queue(),
       threads := s.threads[t := th.(taken := |th.posted|, pc := Answered(th.pc))])
  }

  lemma ThreadsAgree(threads: seq<Thread>, t: nat, n: nat, pc: Pc)
    requires t < |threads| && threads[t].Valid() && |threads[t].Queue()| == n + 1
    ensures var th := threads[t];
            var before := threads[t := th.(taken := th.taken + n)];
            before[t := before[t].(taken := before[t].taken + 1, pc := pc)]
            == threads[t := th.(taken := |th.posted|, pc := pc)]
  {
  }

  lemma LastTakeAnswers(s: System, t: nat, n: nat)
    requires Protocol(s) && t < |s.threads| && Waiting(s.threads[t].pc) && s.threads[t].Valid()
    requires Defined(s.tracker, s.threads[t].Queue()) && |s.threads[t].Queue()| == n + 1
    ensures NoCommands(s.threads[t].Queue()[..n]) && Defined(s.tracker, s.threads[t].Queue()[..n])
    ensures var before := AfterTakes(s, t, n);
            Enabled(before, Take(t)) && Apply(before, Take(t)) == AfterAnswer(s, t)
  {
    var th := s.threads[t];
    var q := th.Queue();
    assert Shaped(th, t);
    assert q[..n] == Init(q) && q[..n] + [Last(q)] == q;
    FoldedOneMore(s.tracker, q);
    ThreadsAgree(s.threads, t, n, Answered(th.pc));
    hide Step, Handles, Protocol, Shaped, Defined, Fold, Apply, Enabled, Answered, NoCommands, Waiting;
    var before := AfterTakes(s, t, n);
    assert Head(before.threads[t]) == q[n] == Last(q);
    TakeIsAnswered(before, t);
    hide IsAwaited, Head;
    assert s.handled + q[..n] + [Last(q)] == s.handled + (q[..n] + [Last(q)]);
  }

  lemma QueueOfWaiter(s: System, t: nat)
    requires Protocol(s) && t < |s.threads| && Waiting(s.threads[t].pc)
    ensures s.threads[t].Valid() && |s.threads[t].Queue()| > 0
  {
    assert Shaped(s.threads[t], t);
  }

  /** Every blocked caller can be served: once the worker has taken the requests of its own queue, in order, its
      promise is settled and it goes on, whatever all other threads have queued. */
  lemma CallerIsServed(s: System, t: nat) returns (run: seq<Action>, next: System)
    requires Protocol(s) && t < |s.threads| && Waiting(s.threads[t].pc) && s.threads[t].Valid()
    requires Defined(s.tracker, s.threads[t].Queue())
    ensures Reaches(s, run, next)
    ensures next == s.(
              tracker := Fold(s.tracker, s.threads[t].Queue()),
              handled := s.handled + s.threads[t].Queue(),
              threads := s.threads[t := s.threads[t].(taken := |s.threads[t].posted|, pc := Answered(s.threads[t].pc))])
  {
    assert ReachesQuietly(s, [], s, NULLPTR);
    QueueOfWaiter(s, t);
    next := AfterAnswer(s, t);
    hide Step, Handles, Protocol, Defined, Fold, After, Possible, Enabled, Apply, AfterTakes, AfterAnswer,
      TakesNoClear, KeepsReleases, NoStopAnswered;
    var n: nat := |s.threads[t].Queue()| - 1;
    LastTakeAnswers(s, t, n);
    var before;
    run, before := TakesInARow(s, [], s, t, n, NULLPTR);
    Then(s, run, before, Take(t), next);
    run := run + [Take(t)];
  }
}
