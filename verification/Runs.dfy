/** Particular runs: how a session begins, and where the guarantees of `Soundness`, `Exactness` and
    `Session` end. */
module Runs {
  import opened Requests
  import opened Tracker
  import opened Machine
  import opened Soundness
  import KnownLeaks

  /** The run so far leads from `s` to `now`. */
  ghost predicate Reaches(s: System, run: seq<Action>, now: System) {
    Possible(s, run) && After(s, run) == now
  }

  lemma Then(s: System, run: seq<Action>, now: System, action: Action, next: System)
    requires Reaches(s, run, now) && Enabled(now, action) && Apply(now, action) == next
    ensures Reaches(s, run + [action], next)
  {
    PossibleOneMore(s, run, action);
  }

  predicate IsHeapCall(action: Action) {
    action.LibcMalloc? || action.LibcRealloc? || action.LibcFree?
  }

  /** A watched thread makes a heap call and its request is enqueued: always when it is no allocation, and
      when the table does not recognise the allocation's trace. */
  lemma CallIsEnqueued(s: System, run: seq<Action>, now: System, action: Action, frames: seq<Address>)
    returns (longer: seq<Action>, next: System)
    requires Reaches(s, run, now) && IsHeapCall(action) && Enabled(now, action)
    requires now.watching && now.threads[action.t].watching
    requires action.LibcMalloc? ==> action.record.stackTail <= frames && KnownLeaks.Misses(now.leaks, frames)
    ensures Reaches(s, longer, next)
    ensures var t, th, called := action.t, now.threads[action.t], Apply(now, action);
            var r := called.threads[t].pc.request;
            next == called.(
              threads := now.threads[t := th.(posted := th.posted + [r])],
              arrivals := now.arrivals + [(t, r)])
  {
    hide Step, After, Possible;
    var t, th, s1 := action.t, now.threads[action.t], Apply(now, action);
    var r := s1.threads[t].pc.request;
    Then(s, run, now, action, s1);
    KnownLeaks.MissesIff(now.leaks, frames);
    var s2 := s1.(threads := now.threads[t := th.(pc := Posting(r))]);
    assert s1.threads[t := th.(pc := Posting(r))] == s2.threads;
    Then(s, run + [action], s1, ReadFlags(t, Instrumented(frames)), s2);
    next := s2.(threads := now.threads[t := th.(posted := th.posted + [r])], arrivals := now.arrivals + [(t, r)]);
    assert s2.threads[t := th.(posted := th.posted + [r])] == next.threads;
    Then(s, run + [action] + [ReadFlags(t, Instrumented(frames))], s2, Proceed(t), next);
    longer := run + [action] + [ReadFlags(t, Instrumented(frames))] + [Proceed(t)];
  }

  /** A thread that is paused or not watched makes an instrumented heap call, and nothing is posted. */
  lemma CallIsSkipped(s: System, run: seq<Action>, now: System, action: Action)
    returns (longer: seq<Action>, next: System)
    requires Reaches(s, run, now) && IsHeapCall(action) && Enabled(now, action)
    requires !now.watching || !now.threads[action.t].watching
    ensures Reaches(s, longer, next)
    ensures var called := Apply(now, action);
            next == called.(threads := now.threads, skipped := now.skipped + [called.threads[action.t].pc.request])
  {
    hide Step, After, Possible;
    var t, s1 := action.t, Apply(now, action);
    var r := s1.threads[t].pc.request;
    var path := Instrumented(if r.Malloc? then r.record.stackTail else []);
    Then(s, run, now, action, s1);
    next := s1.(threads := now.threads, skipped := now.skipped + [r]);
    assert s1.threads[t := now.threads[t]] == next.threads;
    Then(s, run + [action], s1, ReadFlags(t, path), next);
    longer := run + [action] + [ReadFlags(t, path)];
  }

  /** The worker takes one request, not a command, from thread `t`. */
  lemma IsTaken(s: System, run: seq<Action>, now: System, t: nat) returns (longer: seq<Action>, next: System)
    requires Reaches(s, run, now) && t < |now.threads| && now.threads[t].taken < |now.threads[t].posted|
    requires Handles(now.tracker, Head(now.threads[t])) && !Head(now.threads[t]).IsCommand()
    ensures Reaches(s, longer, next) && longer == run + [Take(t)]
    ensures var th := now.threads[t];
            next == now.(
              tracker := Step(now.tracker, Head(th)),
              handled := now.handled + [Head(th)],
              threads := now.threads[t := th.(taken := th.taken + 1)])
  {
    hide Step, After, Possible;
    next := Apply(now, Take(t));
    Then(s, run, now, Take(t), next);
    longer := run + [Take(t)];
  }

  /** Thread `t` calls stop_watching() and its SNAPSHOT is enqueued. */
  lemma StopIsEnqueued(s: System, run: seq<Action>, now: System, t: nat)
    returns (longer: seq<Action>, next: System)
    requires Reaches(s, run, now) && t < |now.threads|
    requires now.threads[t].pc.Idle? && now.mutex.Unlocked?
    ensures Reaches(s, longer, next)
    ensures next == now.(
              watching := false,
              mutex := LockedBy(t),
              threads := now.threads[t :=
                now.threads[t].(pc := StopAwaiting, posted := now.threads[t].posted + [Snapshot(t)])],
              arrivals := now.arrivals + [(t, Snapshot(t))])
  {
    hide Step, After, Possible;
    var th := now.threads[t];
    var s1 := now.(threads := now.threads[t := th.(pc := StopLocked)], mutex := LockedBy(t));
    Then(s, run, now, Call(t, Stop), s1);
    var s2 := s1.(threads := now.threads[t := th.(pc := StopAsking)], watching := false);
    assert s1.threads[t := th.(pc := StopAsking)] == s2.threads;
    Then(s, run + [Call(t, Stop)], s1, Proceed(t), s2);
    next := s2.(threads := now.threads[t := th.(pc := StopAwaiting, posted := th.posted + [Snapshot(t)])],
                arrivals := now.arrivals + [(t, Snapshot(t))]);
    assert s2.threads[t := next.threads[t]] == next.threads;
    Then(s, run + [Call(t, Stop)] + [Proceed(t)], s2, Proceed(t), next);
    longer := run + [Call(t, Stop)] + [Proceed(t)] + [Proceed(t)];
  }

  /** The worker answers a stop, and its caller returns. */
  lemma StopIsAnswered(s: System, run: seq<Action>, now: System, t: nat)
    returns (longer: seq<Action>, next: System)
    requires Reaches(s, run, now) && t < |now.threads| && now.threads[t].pc.StopAwaiting?
    requires now.threads[t].taken < |now.threads[t].posted| && Head(now.threads[t]) == Snapshot(t)
    ensures Reaches(s, longer, next)
    ensures next == now.(
              tracker := Reconcile(now.tracker),
              handled := now.handled + [Snapshot(t)],
              mutex := Unlocked,
              threads := now.threads[t := now.threads[t].(pc := Idle, taken := now.threads[t].taken + 1)])
  {
    hide After, Possible, Reconcile;
    var th := now.threads[t];
    var s1 := now.(
      tracker := Reconcile(now.tracker),
      handled := now.handled + [Snapshot(t)],
      threads := now.threads[t := th.(pc := Unlocking, taken := th.taken + 1)]);
    Then(s, run, now, Take(t), s1);
    next := s1.(threads := now.threads[t := th.(pc := Idle, taken := th.taken + 1)], mutex := Unlocked);
    assert s1.threads[t := next.threads[t]] == next.threads;
    Then(s, run + [Take(t)], s1, Proceed(t), next);
    longer := run + [Take(t)] + [Proceed(t)];
  }

  /** Thread `t` calls start_watching() and its CLEAR is enqueued. */
  lemma ClearIsEnqueued(s: System, run: seq<Action>, now: System, t: nat)
    returns (longer: seq<Action>, next: System)
    requires Reaches(s, run, now) && t < |now.threads| && now.threads[t].pc.Idle?
    requires !now.watching && now.mutex.Unlocked?
    ensures Reaches(s, longer, next)
    ensures next == now.(
              mutex := LockedBy(t),
              threads := now.threads[t :=
                now.threads[t].(pc := StartAwaiting, posted := now.threads[t].posted + [Clear(t)])],
              arrivals := now.arrivals + [(t, Clear(t))])
  {
    hide Step, After, Possible;
    var th := now.threads[t];
    var s1 := now.(threads := now.threads[t := th.(pc := StartLocked)], mutex := LockedBy(t));
    Then(s, run, now, Call(t, Start), s1);
    var s2 := s1.(threads := now.threads[t := th.(pc := StartClearing)]);
    assert s1.threads[t := th.(pc := StartClearing)] == s2.threads;
    Then(s, run + [Call(t, Start)], s1, Proceed(t), s2);
    next := s2.(threads := now.threads[t := th.(pc := StartAwaiting, posted := th.posted + [Clear(t)])],
                arrivals := now.arrivals + [(t, Clear(t))]);
    assert s2.threads[t := next.threads[t]] == next.threads;
    Then(s, run + [Call(t, Start)] + [Proceed(t)], s2, Proceed(t), next);
    longer := run + [Call(t, Start)] + [Proceed(t)] + [Proceed(t)];
  }

  /** start_watching() ends with the tracker empty and the flag on, whatever the other threads are doing:
      the caller only needs to have nothing queued itself (src/HeapWatcher.cpp:149-171). */
  lemma StartIsAnswered(s: System, before: seq<Action>, s0: System, t: nat) returns (run: seq<Action>, now: System)
    requires Reaches(s, before, s0) && TrackerFollows(s0) && !s0.watching && s0.mutex.Unlocked?
    requires t < |s0.threads| && s0.threads[t].pc.Idle? && s0.threads[t].taken == |s0.threads[t].posted|
    ensures Reaches(s, run, now) && SessionBegins(now)
    ensures now == s0.(
              watching := true,
              tracker := EMPTY,
              handled := s0.handled + [Clear(t)],
              arrivals := s0.arrivals + [(t, Clear(t))],
              threads := s0.threads[t :=
                s0.threads[t].(posted := s0.threads[t].posted + [Clear(t)], taken := s0.threads[t].taken + 1)])
  {
    hide After, Possible;
    run, now := ClearIsEnqueued(s, before, s0, t);
    var th := now.threads[t];
    var next := now.(threads := now.threads[t := th.(pc := StartCleared, taken := th.taken + 1)],
                     tracker := EMPTY, handled := s0.handled + [Clear(t)]);
    assert Head(th) == Clear(t);
    Then(s, run, now, Take(t), next);
    run, now := FlagGoesOn(s, run + [Take(t)], next, t);
    FoldSnoc(EMPTY, s0.handled, Clear(t));
  }

  lemma FlagGoesOn(s: System, run: seq<Action>, now: System, t: nat) returns (longer: seq<Action>, next: System)
    requires Reaches(s, run, now) && t < |now.threads| && now.threads[t].pc.StartCleared?
    ensures Reaches(s, longer, next)
    ensures next == now.(
              watching := true,
              mutex := Unlocked,
              threads := now.threads[t := now.threads[t].(pc := Idle)])
  {
    var th := now.threads[t];
    var s1 := now.(threads := now.threads[t := th.(pc := Unlocking)], watching := true);
    Then(s, run, now, Proceed(t), s1);
    next := s1.(threads := now.threads[t := th.(pc := Idle)], mutex := Unlocked);
    assert s1.threads[t := th.(pc := Idle)] == next.threads;
    Then(s, run + [Proceed(t)], s1, Proceed(t), next);
    longer := run + [Proceed(t)] + [Proceed(t)];
  }

  /** A watched session in which nothing has happened yet. */
  function Watched(threads: seq<Thread>): System {
    System({}, {}, true, Unlocked, [], threads, EMPTY, [], [], [])
  }

  const FRESH := Thread(true, Idle, [], 0)

  lemma WatchedBeginsASession(threads: seq<Thread>)
    requires forall th :: th in threads ==> th == FRESH
    ensures SessionBegins(Watched(threads)) && Quiet(Watched(threads))
  {
    assert forall t :: 0 <= t < |threads| ==> threads[t] in threads;
  }

  /** A block allocated while watched and freed while its thread is paused is reported for good
      (src/HeapWatcher.cpp:298; README.md:136). */
  lemma PausedFreeIsReported(r: AllocationRecord) returns (run: seq<Action>, now: System)
    ensures SessionBegins(Watched([FRESH])) && Quiet(Watched([FRESH])) && Reaches(Watched([FRESH]), run, now)
    ensures Quiet(now) && r.address in ReportedNow(now) && r.address !in now.live
  {
    WatchedBeginsASession([FRESH]);
    hide *;
    run, now := MallocIsHandled(r);
    run, now := PausedFree(Watched([FRESH]), run, now, r);
  }

  lemma MallocIsHandled(r: AllocationRecord) returns (run: seq<Action>, now: System)
    ensures Reaches(Watched([FRESH]), run, now)
    ensures now.threads == [Thread(true, Idle, [Malloc(r)], 1)] && r.address in now.live
    ensures r.address in now.tracker.open && r.address !in now.tracker.strays
  {
    var s, m := Watched([FRESH]), Malloc(r);
    NothingYet(s);
    hide After, Possible;
    run, now := CallIsEnqueued(s, [], s, LibcMalloc(0, r), r.stackTail);
    assert [] + [m] == [m];
    assert now.threads == [Thread(true, Idle, [m], 0)];
    run, now := IsTaken(s, run, now, 0);
  }

  lemma PausedFree(s: System, before: seq<Action>, was: System, r: AllocationRecord)
    returns (run: seq<Action>, now: System)
    requires Reaches(s, before, was) && r.address in was.live
    requires was.threads == [Thread(true, Idle, [Malloc(r)], 1)]
    requires r.address in was.tracker.open && r.address !in was.tracker.strays
    ensures Reaches(s, run, now)
    ensures Quiet(now) && r.address in ReportedNow(now) && r.address !in now.live
  {
    hide After, Possible, Step;
    var paused := was.(threads := [Thread(false, Idle, [Malloc(r)], 1)]);
    Then(s, before, was, SetPaused(0, false), paused);
    run, now := CallIsSkipped(s, before + [SetPaused(0, false)], paused, LibcFree(0, r.address));
    assert now.tracker == was.tracker;
  }

  /** With one queue per producer a stop can be answered before requests that were enqueued earlier by
      other threads, so its snapshot is not the result of processing every record (README.md:13). */
  lemma StopCanOvertakeOtherProducers(r: AllocationRecord) returns (run: seq<Action>, now: System)
    ensures Reaches(Watched([FRESH, FRESH]), run, now)
    ensures now.arrivals == [(0, Malloc(r)), (1, Snapshot(1))] && now.handled == [Snapshot(1)]
    ensures r.address in now.live && r.address !in ReportedNow(now)
    ensures now.threads == [Thread(true, Idle, [Malloc(r)], 0), Thread(true, Idle, [Snapshot(1)], 1)]
    ensures !now.watching && now.mutex.Unlocked? && now.tracker == EMPTY
  {
    hide *;
    run, now := MallocThenStop(r);
    HeadIs(now.threads[1], Snapshot(1));
    NothingToReconcile(now.tracker);
    assert [] + [Snapshot(1)] == [Snapshot(1)];
    run, now := StopIsAnswered(Watched([FRESH, FRESH]), run, now, 1);
    NothingReported(now, r.address);
  }

  lemma HeadIs(th: Thread, r: Request)
    requires th.posted == [r] && th.taken == 0
    ensures Head(th) == r
  {
  }

  lemma NothingReported(s: System, a: Address)
    requires s.tracker.open == map[]
    ensures a !in ReportedNow(s)
  {
  }

  lemma MallocThenStop(r: AllocationRecord) returns (run: seq<Action>, now: System)
    ensures Reaches(Watched([FRESH, FRESH]), run, now)
    ensures now.arrivals == [(0, Malloc(r)), (1, Snapshot(1))] && now.handled == []
    ensures r.address in now.live && !now.watching
    ensures now.tracker == EMPTY && now.tracker.open == map[] && now.tracker.strays == {}
    ensures now.threads == [Thread(true, Idle, [Malloc(r)], 0), Thread(true, StopAwaiting, [Snapshot(1)], 0)]
  {
    var s, m, q := Watched([FRESH, FRESH]), Malloc(r), Snapshot(1);
    NothingYet(s);
    hide After, Possible, Step;
    run, now := CallIsEnqueued(s, [], s, LibcMalloc(0, r), r.stackTail);
    assert [] + [m] == [m] && [] + [q] == [q] && [] + [(0, m)] + [(1, q)] == [(0, m), (1, q)];
    assert now.threads == [Thread(true, Idle, [m], 0), FRESH];
    run, now := StopIsEnqueued(s, run, now, 1);
  }

  /** A request that a stop has overtaken is still queued when the next session begins. If its block was
      freed in between, that session reports it for good, although nothing is skipped in it. */
  lemma StaleRequestIsReported(r: AllocationRecord)
    returns (before: seq<Action>, begun: System, run: seq<Action>, now: System)
    ensures Reaches(Watched([FRESH, FRESH]), before, begun) && SessionBegins(begun) && begun.watching
    ensures Reaches(begun, run, now) && now.skipped == begun.skipped
    ensures Quiet(now) && r.address in ReportedNow(now) && r.address !in now.live
  {
    hide *;
    before, begun := StartedBehindTheStop(r);
    run, now := StaleIsTaken(begun, r);
  }

  /** The next session begins with the request still queued. */
  lemma StartedBehindTheStop(r: AllocationRecord) returns (run: seq<Action>, now: System)
    ensures Reaches(Watched([FRESH, FRESH]), run, now) && SessionBegins(now) && now.watching
    ensures now.threads == [Thread(true, Idle, [Malloc(r)], 0), Thread(true, Idle, [Snapshot(1), Clear(1)], 2)]
    ensures now.tracker == EMPTY && r.address !in now.live
  {
    run, now := FreedBehindTheStop(r);
    TrackerFollowsAlong(Watched([FRESH, FRESH]), run, now);
    hide After, Possible, Reconcile, TrackerFollows, Step;
    assert [Snapshot(1)] + [Clear(1)] == [Snapshot(1), Clear(1)];
    run, now := StartIsAnswered(Watched([FRESH, FRESH]), run, now, 1);
  }

  /** Taken in the new session, it opens a record that nothing will release. */
  lemma StaleIsTaken(begun: System, r: AllocationRecord) returns (run: seq<Action>, now: System)
    requires begun.threads == [Thread(true, Idle, [Malloc(r)], 0), Thread(true, Idle, [Snapshot(1), Clear(1)], 2)]
    requires begun.tracker == EMPTY && r.address !in begun.live
    ensures Reaches(begun, run, now) && now.skipped == begun.skipped && now.live == begun.live
    ensures Quiet(now) && r.address in ReportedNow(now)
  {
    NothingYet(begun);
    hide After, Possible;
    run, now := IsTaken(begun, [], begun, 0);
    assert now.threads[0] == Thread(true, Idle, [Malloc(r)], 1) && now.threads[1] == begun.threads[1];
    assert r.address in now.tracker.open && r.address !in now.tracker.strays;
  }

  /** The stop has overtaken the MALLOC, and the block is freed with the flag off. */
  lemma FreedBehindTheStop(r: AllocationRecord) returns (run: seq<Action>, now: System)
    ensures Reaches(Watched([FRESH, FRESH]), run, now)
    ensures now.threads == [Thread(true, Idle, [Malloc(r)], 0), Thread(true, Idle, [Snapshot(1)], 1)]
    ensures !now.watching && now.mutex.Unlocked? && r.address !in now.live
  {
    run, now := StopCanOvertakeOtherProducers(r);
    hide After, Possible, Reconcile, Step, ReportedNow;
    run, now := CallIsSkipped(Watched([FRESH, FRESH]), run, now, LibcFree(0, r.address));
  }

  lemma TrackerFollowsAlong(s: System, run: seq<Action>, now: System)
    requires Reaches(s, run, now) && TrackerFollows(s)
    ensures TrackerFollows(now)
  {
    RunFollows(s, run);
  }

  /** A block from before the session that is reallocated in it brings the worker to a REALLOC that finds
      no record (src/HeapWatcher.cpp:702-709). */
  lemma ReallocOfEarlierBlockMisses(a: Address, newSize: nat)
    returns (s: System, run: seq<Action>, now: System)
    ensures SessionBegins(s) && Quiet(s) && s.live == {a} && Reaches(s, run, now)
    ensures now.threads == [Thread(true, Idle, [Realloc(a, a, newSize)], 0)]
    ensures !Handles(now.tracker, Head(now.threads[0]))
  {
    s := Watched([FRESH]).(live := {a}, used := {a});
    assert SessionBegins(s) && Quiet(s);
    NothingYet(s);
    hide After, Possible;
    run, now := CallIsEnqueued(s, [], s, LibcRealloc(0, a, a, newSize), []);
    assert [] + [Realloc(a, a, newSize)] == [Realloc(a, a, newSize)];
    assert now.threads == [Thread(true, Idle, [Realloc(a, a, newSize)], 0)];
  }

  /** So can two threads that are watched throughout and touch only blocks of their own, when libc hands an
      address from one to the other: thread 1 allocates and frees `p`, thread 0 then obtains `p` and moves
      it to `q`; the worker takes both MALLOCs, then the FREE, then the REALLOC. */
  lemma ReuseMakesReallocMiss(p: AllocationRecord, q: Address, newSize: nat)
    returns (run: seq<Action>, now: System)
    requires q != p.address
    ensures Reaches(Watched([FRESH, FRESH]), run, now) && now.skipped == []
    ensures now.threads == [
              Thread(true, Idle, [Malloc(p), Realloc(p.address, q, newSize)], 1),
              Thread(true, Idle, [Malloc(p), Free(p.address)], 2)]
    ensures now.handled == [Malloc(p), Malloc(p), Free(p.address)]
    ensures !Handles(now.tracker, Head(now.threads[0]))
  {
    run, now := ReusedAddressIsMoved(p, q, newSize);
    hide After, Possible;
    var s := Watched([FRESH, FRESH]);
    run, now := IsTaken(s, run, now, 1);
    run, now := IsTaken(s, run, now, 0);
    run, now := IsTaken(s, run, now, 1);
    assert now.handled == [Malloc(p), Malloc(p), Free(p.address)];
    assert now.threads == [
      Thread(true, Idle, [Malloc(p), Realloc(p.address, q, newSize)], 1),
      Thread(true, Idle, [Malloc(p), Free(p.address)], 2)];
  }

  lemma ReusedAddressIsMoved(p: AllocationRecord, q: Address, newSize: nat)
    returns (run: seq<Action>, now: System)
    requires q != p.address
    ensures Reaches(Watched([FRESH, FRESH]), run, now)
    ensures now.skipped == [] && now.handled == [] && now.tracker == EMPTY
    ensures now.threads == [
              Thread(true, Idle, [Malloc(p), Realloc(p.address, q, newSize)], 0),
              Thread(true, Idle, [Malloc(p), Free(p.address)], 0)]
  {
    var s, m, r := Watched([FRESH, FRESH]), Malloc(p), Realloc(p.address, q, newSize);
    run, now := ReusedAddressIsKept(p);
    hide After, Possible, Step;
    assert [m] + [r] == [m, r];
    run, now := CallIsEnqueued(s, run, now, LibcRealloc(0, p.address, q, newSize), []);
  }

  /** Reuse can also hide a leak: thread 1 allocates and frees `p`, thread 0 then obtains `p` and keeps it; the
      worker takes thread 1's MALLOC, thread 0's, and then the FREE. Nothing is skipped, nothing is on its way,
      the block is live, and no report lists it. */
  lemma ReuseHidesALeak(p: AllocationRecord) returns (run: seq<Action>, now: System)
    ensures Reaches(Watched([FRESH, FRESH]), run, now) && now.skipped == [] && Quiet(now)
    ensures now.threads == [Thread(true, Idle, [Malloc(p)], 1), Thread(true, Idle, [Malloc(p), Free(p.address)], 2)]
    ensures now.handled == [Malloc(p), Malloc(p), Free(p.address)]
    ensures p.address in now.live && p.address !in ReportedNow(now)
  {
    run, now := ReusedAddressIsKept(p);
    hide After, Possible;
    var s := Watched([FRESH, FRESH]);
    run, now := IsTaken(s, run, now, 1);
    run, now := IsTaken(s, run, now, 0);
    run, now := IsTaken(s, run, now, 1);
    assert now.handled == [Malloc(p), Malloc(p), Free(p.address)];
    assert p.address !in now.tracker.open;
  }

  lemma ReusedAddressIsKept(p: AllocationRecord) returns (run: seq<Action>, now: System)
    ensures Reaches(Watched([FRESH, FRESH]), run, now)
    ensures now.skipped == [] && now.handled == [] && now.tracker == EMPTY && now.leaks == [] && now.watching
    ensures p.address in now.live && forall a :: a in now.live ==> a == p.address
    ensures now.threads == [Thread(true, Idle, [Malloc(p)], 0), Thread(true, Idle, [Malloc(p), Free(p.address)], 0)]
  {
    var s, m, f := Watched([FRESH, FRESH]), Malloc(p), Free(p.address);
    NothingYet(s);
    hide After, Possible, Step;
    assert [] + [m] == [m] && [m] + [f] == [m, f];
    run, now := CallIsEnqueued(s, [], s, LibcMalloc(1, p), p.stackTail);
    assert now.threads == [FRESH, Thread(true, Idle, [m], 0)];
    run, now := CallIsEnqueued(s, run, now, LibcFree(1, p.address), []);
    assert now.threads == [FRESH, Thread(true, Idle, [m, f], 0)];
    run, now := CallIsEnqueued(s, run, now, LibcMalloc(0, p), p.stackTail);
  }

  lemma NothingYet(s: System)
    ensures Reaches(s, [], s)
  {
  }

  /** snapshot() or high_level_stats(): the caller's own kind of request is enqueued. */
  lemma AskIsEnqueued(s: System, run: seq<Action>, now: System, t: nat, stats: bool)
    returns (longer: seq<Action>, next: System)
    requires Reaches(s, run, now) && t < |now.threads| && now.threads[t].pc.Idle?
    ensures Reaches(s, longer, next)
    ensures var r := if stats then Stats(t) else Snapshot(t);
            next == now.(
              threads := now.threads[t :=
                now.threads[t].(pc := Awaiting(stats), posted := now.threads[t].posted + [r])],
              arrivals := now.arrivals + [(t, r)])
  {
    hide Step, After, Possible;
    var th, r := now.threads[t], if stats then Stats(t) else Snapshot(t);
    var s1 := now.(threads := now.threads[t := th.(pc := Asking(stats))]);
    Then(s, run, now, Ask(t, stats), s1);
    next := now.(threads := now.threads[t := th.(pc := Awaiting(stats), posted := th.posted + [r])],
                 arrivals := now.arrivals + [(t, r)]);
    assert s1.threads[t := next.threads[t]] == next.threads;
    Then(s, run + [Ask(t, stats)], s1, Proceed(t), next);
    longer := run + [Ask(t, stats)] + [Proceed(t)];
  }

  /** start_watching() and capture_known_leak() while watched change nothing
      (src/HeapWatcher.cpp:153-156, 587-590). */
  lemma RefusedWhileWatching(s: System, run: seq<Action>, now: System, t: nat, command: Command)
    returns (longer: seq<Action>)
    requires Reaches(s, run, now) && t < |now.threads| && now.threads[t].pc.Idle?
    requires now.mutex.Unlocked? && now.watching && !command.Stop?
    ensures Reaches(s, longer, now)
  {
    hide Step, After, Possible;
    var th := now.threads[t];
    var s1 := now.(threads := now.threads[t := th.(pc := if command.Start? then StartLocked else CaptureLocked)],
                   mutex := LockedBy(t));
    Then(s, run, now, Call(t, command), s1);
    var s2 := s1.(threads := now.threads[t := th.(pc := Unlocking)]);
    assert s1.threads[t := th.(pc := Unlocking)] == s2.threads;
    Then(s, run + [Call(t, command)], s1, Proceed(t), s2);
    assert s2.threads[t := th] == now.threads;
    Then(s, run + [Call(t, command)] + [Proceed(t)], s2, Proceed(t), now);
    longer := run + [Call(t, command)] + [Proceed(t)] + [Proceed(t)];
  }

  /** capture_known_leak() while nothing is watched: the leaking function runs with the flag on, which is off
      again before the table is extended; nothing else is changed (src/HeapWatcher.cpp:585-653). */
  lemma CaptureIsRecorded(s: System, run: seq<Action>, now: System, t: nat,
                          captured: seq<KnownLeaks.Captured>, symbols: seq<string>)
    returns (half: seq<Action>, running: System, longer: seq<Action>, next: System)
    requires Reaches(s, run, now) && t < |now.threads| && now.threads[t].pc.Idle?
    requires now.mutex.Unlocked? && !now.watching && forall c :: c in captured ==> c.Valid()
    ensures Reaches(s, half, running) && half <= longer
    ensures running == now.(
              watching := true, mutex := LockedBy(t),
              threads := now.threads[t := now.threads[t].(pc := Capturing)])
    ensures Reaches(s, longer, next) && next == now.(leaks := KnownLeaks.CaptureAll(now.leaks, captured, symbols))
  {
    hide Step, After, Possible, KnownLeaks.CaptureAll;
    var th := now.threads[t];
    var s1 := now.(threads := now.threads[t := th.(pc := CaptureLocked)], mutex := LockedBy(t));
    Then(s, run, now, Call(t, Capture), s1);
    running := s1.(threads := now.threads[t := th.(pc := Capturing)], watching := true);
    assert s1.threads[t := th.(pc := Capturing)] == running.threads;
    half := run + [Call(t, Capture)] + [Proceed(t)];
    Then(s, run + [Call(t, Capture)], s1, Proceed(t), running);
    longer, next := TableIsExtended(s, half, running, t, captured, symbols);
    assert running.threads[t := running.threads[t].(pc := Idle)] == now.threads;
  }

  lemma TableIsExtended(s: System, run: seq<Action>, now: System, t: nat,
                        captured: seq<KnownLeaks.Captured>, symbols: seq<string>)
    returns (longer: seq<Action>, next: System)
    requires Reaches(s, run, now) && t < |now.threads| && now.threads[t].pc.Capturing?
    requires forall c :: c in captured ==> c.Valid()
    ensures Reaches(s, longer, next) && run <= longer
    ensures next == now.(
              watching := false, mutex := Unlocked,
              leaks := KnownLeaks.CaptureAll(now.leaks, captured, symbols),
              threads := now.threads[t := now.threads[t].(pc := Idle)])
  {
    hide Step, After, Possible, KnownLeaks.CaptureAll;
    var th := now.threads[t];
    var s1 := now.(threads := now.threads[t := th.(pc := Recording)], watching := false);
    Then(s, run, now, Proceed(t), s1);
    var s2 := s1.(threads := now.threads[t := th.(pc := Unlocking)],
                  leaks := KnownLeaks.CaptureAll(now.leaks, captured, symbols));
    assert s1.threads[t := th.(pc := Unlocking)] == s2.threads;
    Then(s, run + [Proceed(t)], s1, Record(t, captured, symbols), s2);
    next := s2.(threads := now.threads[t := th.(pc := Idle)], mutex := Unlocked);
    assert s2.threads[t := th.(pc := Idle)] == next.threads;
    Then(s, run + [Proceed(t)] + [Record(t, captured, symbols)], s2, Proceed(t), next);
    longer := run + [Proceed(t)] + [Record(t, captured, symbols)] + [Proceed(t)];
  }

  /** A guard's scope in a watched thread: paused inside, and as before outside. */
  lemma GuardPausesAndResumes(s: System, run: seq<Action>, now: System, t: nat)
    returns (inside: seq<Action>, paused: System, outside: seq<Action>)
    requires Reaches(s, run, now) && t < |now.threads| && now.threads[t].pc.Idle? && now.threads[t].watching
    ensures Reaches(s, inside, paused) && paused == now.(threads := now.threads[t := now.threads[t].(watching := false)])
    ensures inside <= outside && Reaches(s, outside, now)
  {
    hide Step, After, Possible;
    paused := now.(threads := now.threads[t := now.threads[t].(watching := false)]);
    inside := run + [SetPaused(t, false)];
    Then(s, run, now, SetPaused(t, false), paused);
    assert paused.threads[t := paused.threads[t].(watching := true)] == now.threads;
    outside := inside + [SetPaused(t, true)];
    Then(s, inside, paused, SetPaused(t, true), now);
  }
}
