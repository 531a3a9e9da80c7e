/** What start_watching() begins when other threads are busy: requests of an earlier session may still be
    queued behind the CLEAR's back, and threads may be inside heap calls
    (src/HeapWatcher.cpp:149-171, 226-304, 730-743). */
module SessionStart {
  import opened Requests
  import opened Tracker
  import opened Counting
  import opened Machine
  import opened Soundness
  import opened Session
  import opened Schedules

  /** In every run, whenever the worker handles a CLEAR: the tracker is empty and a session is open, while
      whatever the other threads had on its way is still on its way. */
  lemma ClearBeginsASession(s: System, run: seq<Action>, t: nat)
    requires Initial(s) && Possible(s, run)
    requires Enabled(After(s, run), Take(t)) && Head(After(s, run).threads[t]).Clear?
    ensures ClearLeaves(After(s, run), t, Apply(After(s, run), Take(t)))
  {
    RunFollows(s, run);
    RunKeepsProtocol(s, run);
    hide After, Possible, Initial;
    HandledClear(After(s, run), t);
  }

  /** The tracker is empty and a session open; the others' requests are where they were. */
  ghost predicate ClearLeaves(now: System, t: nat, next: System) {
    && SessionBegins(next) && SessionOpen(next) && next.tracker == EMPTY
    && t < |now.threads| == |next.threads| && next.threads == now.threads[t := next.threads[t]]
    && next.threads[t].pc == StartCleared && next.threads[t].Valid() && next.threads[t].Queue() == []
    && next.live == now.live && now.Valid() && next.Valid()
    && forall a :: InFlight(next.threads, a) == InFlight(now.threads, a)
  }

  lemma HandledClear(now: System, t: nat)
    requires TrackerFollows(now) && Protocol(now) && Enabled(now, Take(t)) && Head(now.threads[t]).Clear?
    ensures ClearLeaves(now, t, Apply(now, Take(t)))
  {
    SessionOpens(now, t);
    StepFollows(now, Take(t));
    TakeFrame(now, t);
    ClearMovesNoWeight(now, t);
    ClearEmpties(now, t);
    hide Step, Apply, Enabled, SessionOpen, InFlight, Fold, Defined, Protocol, Handles;
  }

  lemma ClearEmpties(now: System, t: nat)
    requires Enabled(now, Take(t)) && Head(now.threads[t]).Clear?
    ensures var next := Apply(now, Take(t));
            next.tracker == EMPTY && next.live == now.live && next.handled == now.handled + [Head(now.threads[t])]
  {
  }

  lemma ClearHasNoWeight(r: Request, a: Address)
    requires r.Clear?
    ensures Weight(r, a) == 0
  {
  }

  lemma ClearMovesNoWeightAt(now: System, t: nat, a: Address)
    requires now.Valid() && Enabled(now, Take(t)) && Head(now.threads[t]).Clear?
    ensures Apply(now, Take(t)).Valid()
    ensures InFlight(Apply(now, Take(t)).threads, a) == InFlight(now.threads, a)
  {
    TakeFrame(now, t);
    TakeMovesWeight(now, t, a);
    ClearHasNoWeight(Head(now.threads[t]), a);
    hide Step, Handles, Apply, Enabled, PendingWeight, Weight, Gross, InFlight, Head;
    InFlightUpdate(now.threads, t, Apply(now, Take(t)).threads[t], a);
  }

  lemma ClearMovesNoWeight(now: System, t: nat)
    requires now.Valid() && Enabled(now, Take(t)) && Head(now.threads[t]).Clear?
    ensures Apply(now, Take(t)).Valid()
    ensures forall a :: InFlight(Apply(now, Take(t)).threads, a) == InFlight(now.threads, a)
  {
    ClearMovesNoWeightAt(now, t, NULLPTR);
    hide Step, Handles, Apply, Enabled, InFlight, Head;
    forall a
      ensures InFlight(Apply(now, Take(t)).threads, a) == InFlight(now.threads, a)
    {
      ClearMovesNoWeightAt(now, t, a);
    }
  }

  lemma {:induction false} OpenSessionTakesNoClear(s: System, run: seq<Action>)
    requires SessionOpen(s) && Possible(s, run) && NoStopAnswered(s, run)
    ensures SessionOpen(After(s, run)) && TakesNoClear(s, run)
  {
    if run != [] {
      OpenSessionTakesNoClear(s, Init(run));
      StepKeepsSessionOpen(After(s, Init(run)), Last(run));
    }
  }

  /** Whole sessions, busy at the start or not: from the CLEAR being handled until the stop is answered, a
      snapshot at any moment lists only blocks that are live or being released. This holds for each address
      of which no more acquisitions than its live block were on their way to the worker when the CLEAR was
      handled, and of which every release in the session is let through. */
  lemma StartedSessionIsSound(s: System, before: seq<Action>, t: nat, run: seq<Action>, a: Address)
    requires Initial(s) && Possible(s, before)
    requires Enabled(After(s, before), Take(t)) && Head(After(s, before).threads[t]).Clear?
    requires var begun := Apply(After(s, before), Take(t));
             Possible(begun, run) && NoStopAnswered(begun, run) && KeepsReleases(begun, run, a)
    requires After(s, before).Valid() && InFlight(After(s, before).threads, a) <= Presence(After(s, before).live, a)
    ensures var now := After(Apply(After(s, before), Take(t)), run);
            now.Valid() && (a in ReportedNow(now) ==> a in now.live || ReleaseInFlight(now, a))
  {
    var begun := Apply(After(s, before), Take(t));
    ClearBeginsASession(s, before, t);
    OpenSessionTakesNoClear(begun, run);
    SessionReportsAreSound(begun, run, a);
  }

  // ----- requests left over from before -----

  ghost predicate Brings(ms: seq<Request>, a: Address) {
    exists i :: 0 <= i < |ms| && Acquires(ms[i], a)
  }

  /** Not live and nowhere being released. */
  ghost predicate Gone(s: System, a: Address)
    requires s.Valid()
  {
    a !in s.live && !ReleaseInFlight(s, a)
  }

  /** Whatever happens in the session, no snapshot lists `a` when it is gone. */
  ghost predicate SoundFrom(s: System, a: Address) {
    forall run :: Possible(s, run) && TakesNoClear(s, run) && KeepsReleases(s, run, a) ==>
      After(s, run).Valid() && (Gone(After(s, run), a) ==> a !in ReportedNow(After(s, run)))
  }

  lemma {:induction false} NothingBringsNoWeight(ms: seq<Request>, a: Address)
    requires !Brings(ms, a)
    ensures Gross(ms, a) <= 0
  {
    if ms != [] {
      assert !Acquires(ms[|ms| - 1], a);
      assert forall i :: 0 <= i < |Init(ms)| ==> !Acquires(Init(ms)[i], a) by {
        assert forall i :: 0 <= i < |Init(ms)| ==> Init(ms)[i] == ms[i];
      }
      NothingBringsNoWeight(Init(ms), a);
    }
  }

  lemma NothingPending(th: Thread, a: Address)
    requires th.Valid() && !Brings(Coming(th), a)
    requires th.pc.Returned? ==> !Acquires(th.pc.request, a)
    ensures PendingWeight(th, a) <= 0
  {
    var q := th.Queue();
    assert forall i :: 0 <= i < |q| ==> Coming(th)[i] == q[i];
    NothingBringsNoWeight(q, a);
    if th.pc.Posting? {
      assert Coming(th)[|q|] == th.pc.request;
    }
  }

  lemma {:induction false} NothingInFlight(threads: seq<Thread>, a: Address)
    requires forall t :: 0 <= t < |threads| ==> threads[t].Valid() && PendingWeight(threads[t], a) <= 0
    ensures InFlight(threads, a) <= 0
  {
    if threads != [] {
      NothingInFlight(Init(threads), a);
    }
  }

  /** Nothing in it releases `a` or clears the map. */
  ghost predicate Harmless(ms: seq<Request>, a: Address) {
    forall i :: 0 <= i < |ms| ==> !Releases(ms[i], a) && !ms[i].Clear?
  }

  lemma {:induction false} BroughtIsOpen(ms: seq<Request>, a: Address)
    requires Defined(EMPTY, ms) && Harmless(ms, a)
    ensures a !in Fold(EMPTY, ms).strays
    ensures Brings(ms, a) ==> a in Fold(EMPTY, ms).open
  {
    if ms != [] {
      var zs, r := Init(ms), Last(ms);
      assert forall i :: 0 <= i < |zs| ==> zs[i] == ms[i];
      BroughtIsOpen(zs, a);
      assert !Releases(ms[|ms| - 1], a) && !ms[|ms| - 1].Clear?;
      assert Fold(EMPTY, ms) == Step(Fold(EMPTY, zs), r);
      if Brings(ms, a) && !Acquires(r, a) {
        var i :| 0 <= i < |ms| && Acquires(ms[i], a);
        assert Acquires(zs[i], a);
      }
    }
  }

  // ----- exactly when a busy start is harmless -----

  lemma NothingComingReleases(s: System, t: nat, a: Address)
    requires s.Valid() && Gone(s, a) && t < |s.threads|
    ensures forall r :: r in Coming(s.threads[t]) ==> !Releases(r, a)
  {
    assert !ReleasePending(s.threads[t], a);
  }

  /** A command of the thread's is the last request of its queue, with no post behind it. */
  lemma CommandComesLast(th: Thread, t: nat, n: nat)
    requires Shaped(th, t) && n < |Coming(th)| && !Coming(th)[n].IsCommand()
    ensures NoCommands(Coming(th)[..n + 1])
  {
    var c, q := Coming(th), th.Queue();
    assert forall i :: 0 <= i < |q| ==> c[i] == q[i];
    if Waiting(th.pc) {
      assert c[|q| - 1] == Last(q) && n < |q| - 1;
      assert forall i :: 0 <= i < |q| - 1 ==> q[i] == Init(q)[i];
    }
  }

  lemma ComingIsHarmless(s: System, t: nat, n: nat, a: Address)
    requires Protocol(s) && s.Valid() && Gone(s, a) && t < |s.threads|
    requires n < |Coming(s.threads[t])| && Acquires(Coming(s.threads[t])[n], a)
    ensures NoCommands(Coming(s.threads[t])[..n + 1]) && Harmless(Coming(s.threads[t])[..n + 1], a)
    ensures Brings(Coming(s.threads[t])[..n + 1], a)
    ensures forall r :: r in Coming(s.threads[t]) ==> !Releases(r, a)
  {
    assert Shaped(s.threads[t], t);
    CommandComesLast(s.threads[t], t, n);
    NothingComingReleases(s, t, a);
    hide Coming, Shaped, Gone, Releases;
    var c := Coming(s.threads[t]);
    assert Acquires(c[..n + 1][n], a);
    assert forall i :: 0 <= i <= n ==> c[..n + 1][i] == c[i] && c[i] in c;
  }

  lemma TakesKeepGone(s: System, now: System, t: nat, n: nat, a: Address)
    requires s.Valid() && Gone(s, a) && t < |s.threads|
    requires now.live == s.live && |now.threads| == |s.threads| && now.threads == s.threads[t := now.threads[t]]
    requires now.threads[t].Valid() && now.threads[t].Queue() == Coming(s.threads[t])
    requires now.threads[t].pc == if s.threads[t].pc.Posting? then Idle else s.threads[t].pc
    requires forall r :: r in Coming(s.threads[t]) ==> !Releases(r, a)
    requires n <= |Coming(s.threads[t])| && Defined(now.tracker, now.threads[t].Queue()[..n])
    ensures AfterTakes(now, t, n).Valid() && Gone(AfterTakes(now, t, n), a)
  {
    hide Fold, Defined;
    var next := AfterTakes(now, t, n);
    assert next.threads[t].Queue() == Coming(s.threads[t])[n..];
    forall u | 0 <= u < |next.threads|
      ensures !ReleasePending(next.threads[u], a)
    {
      assert !ReleasePending(s.threads[u], a);
    }
  }

  lemma BroughtIsReported(s: System, t: nat, n: nat, a: Address)
    requires SessionBegins(s) && Protocol(s) && Gone(s, a) && t < |s.threads|
    requires n < |Coming(s.threads[t])| && Acquires(Coming(s.threads[t])[n], a)
    requires Defined(EMPTY, Coming(s.threads[t]))
    ensures !SoundFrom(s, a)
  {
    var c := Coming(s.threads[t]);
    assert s.tracker == EMPTY;
    ComingIsHarmless(s, t, n, a);
    assert c == c[..n + 1] + c[n + 1..];
    DefinedPrefix(EMPTY, c[..n + 1], c[n + 1..]);
    BroughtIsOpen(c[..n + 1], a);
    hide Step, Handles, Defined, Fold, Protocol, SessionBegins, Acquires, Possible, After;
    var run, now := PostIsEnqueued(s, t, a);
    TakesKeepGone(s, now, t, n + 1, a);
    var longer, next := TakesInARow(s, run, now, t, n + 1, a);
    assert a in ReportedNow(next);
    assert After(s, longer) == next;
  }

  /** For an address that is not live and not being released when the session begins, and leftover requests
      whose own REALLOCs hit: every run of the session is sound for it if and only if no request that brings
      it is left over. */
  lemma BusyStartIsSoundIff(s: System, a: Address)
    requires SessionBegins(s) && Protocol(s) && Gone(s, a)
    requires forall t :: 0 <= t < |s.threads| ==>
      Defined(EMPTY, Coming(s.threads[t])) && (s.threads[t].pc.Returned? ==> !Acquires(s.threads[t].pc.request, a))
    ensures SoundFrom(s, a) <==> forall t :: 0 <= t < |s.threads| ==> !Brings(Coming(s.threads[t]), a)
  {
    if t :| 0 <= t < |s.threads| && Brings(Coming(s.threads[t]), a) {
      var n :| 0 <= n < |Coming(s.threads[t])| && Acquires(Coming(s.threads[t])[n], a);
      BroughtIsReported(s, t, n, a);
    } else {
      forall t | 0 <= t < |s.threads| {
        NothingPending(s.threads[t], a);
      }
      NothingInFlight(s.threads, a);
      forall run | Possible(s, run) && TakesNoClear(s, run) && KeepsReleases(s, run, a)
        ensures After(s, run).Valid() && (Gone(After(s, run), a) ==> a !in ReportedNow(After(s, run)))
      {
        SessionReportsAreSound(s, run, a);
      }
    }
  }
}
