/** Pause guards and re-entrancy: the thread-local flag through any tree of guards and heap calls
    (src/HeapWatcher.cpp:187-196, 226-304, 482-492; README.md:134-150). Guards that are moved and end in
    another order are in `Tokens`. */
module Pausing {
  import opened Requests

  /** What a thread does. A heap call makes further heap calls while it captures its stack and enqueues;
      a guard from pause_watching_this_thread() spans a scope and owns a token on the heap. */
  datatype Act =
    | HeapCall(request: Request, knownLeak: bool, nested: seq<Act>)
    | Guarded(token: AllocationRecord, scope: seq<Act>)

  /** The posts of one act, read off from the outside: nothing nested ever shows, nor anything inside a
      guard; but the guard's token is released after the flag is back. */
  function PostsOf(act: Act, watching: bool): seq<Request> {
    if !watching then []
    else match act
      case HeapCall(r, knownLeak, _) => if knownLeak && r.Malloc? then [] else [r]
      case Guarded(token, _) => [Free(token.address)]
  }

  function Posts(acts: seq<Act>, watching: bool): seq<Request> {
    if acts == [] then [] else PostsOf(acts[0], watching) + Posts(acts[1..], watching)
  }

  /** A top-level act posts at most one request; a paused or unwatched thread posts none. */
  lemma {:induction false} AtMostOnePostEach(acts: seq<Act>, watching: bool)
    ensures |Posts(acts, watching)| <= |acts|
    ensures !watching ==> Posts(acts, watching) == []
  {
    if acts != [] {
      AtMostOnePostEach(acts[1..], watching);
    }
  }

  /** Does the act, at the top level of a watched thread, post at all? */
  predicate IsPosted(act: Act) {
    !(act.HeapCall? && act.knownLeak && act.request.Malloc?)
  }

  function HowManyPost(acts: seq<Act>): nat {
    if acts == [] then 0 else (if IsPosted(acts[0]) then 1 else 0) + HowManyPost(acts[1..])
  }

  /** In a watched thread every top-level call but a known leak posts its own request, every guard the release
      of its token, in order, and nothing else is posted. */
  lemma {:induction false} EachActPosts(acts: seq<Act>, i: nat)
    requires i < |acts| && IsPosted(acts[i])
    ensures |Posts(acts, true)| == HowManyPost(acts)
    ensures HowManyPost(acts[..i]) < HowManyPost(acts)
    ensures Posts(acts, true)[HowManyPost(acts[..i])]
         == if acts[i].HeapCall? then acts[i].request else Free(acts[i].token.address)
  {
    if i > 0 {
      EachActPosts(acts[1..], i - 1);
      assert acts[..i][1..] == acts[1..][..i - 1];
    } else {
      PostsAreCounted(acts[1..]);
    }
  }

  lemma {:induction false} PostsAreCounted(acts: seq<Act>)
    ensures |Posts(acts, true)| == HowManyPost(acts)
  {
    if acts != [] {
      PostsAreCounted(acts[1..]);
    }
  }

  lemma {:induction false} PostsOneMore(acts: seq<Act>, act: Act, watching: bool)
    ensures Posts(acts + [act], watching) == Posts(acts, watching) + PostsOf(act, watching)
  {
    if acts == [] {
      assert [act][1..] == [];
    } else {
      assert (acts + [act])[1..] == acts[1..] + [act];
      PostsOneMore(acts[1..], act, watching);
    }
  }

  class WatchedThread {
    const watchingGlobally: bool
    var watchingThread: bool
    var posted: seq<Request>

    constructor (watchingGlobally: bool, watchingThread: bool)
      ensures this.watchingGlobally == watchingGlobally && this.watchingThread == watchingThread && posted == []
    {
      this.watchingGlobally, this.watchingThread := watchingGlobally, watchingThread;
      posted := [];
    }

    /** Runs the acts in order: the flag is restored, and what is posted is what shows from outside. */
    method Run(acts: seq<Act>)
      modifies this`watchingThread, this`posted
      ensures watchingThread == old(watchingThread)
      ensures posted == old(posted) + Posts(acts, watchingGlobally && old(watchingThread))
      decreases acts
    {
      var i := 0;
      while i < |acts|
        invariant 0 <= i <= |acts|
        invariant watchingThread == old(watchingThread)
        invariant posted == old(posted) + Posts(acts[..i], watchingGlobally && old(watchingThread))
      {
        assert acts[..i + 1] == acts[..i] + [acts[i]];
        PostsOneMore(acts[..i], acts[i], watchingGlobally && old(watchingThread));
        RunOne(acts[i]);
        i := i + 1;
      }
      assert acts[..i] == acts;
    }

    /** An instrumented call that makes no further heap calls. */
    method PostIfWatched(request: Request)
      modifies this`posted
      ensures posted == old(posted) + if watchingGlobally && watchingThread then [request] else []
    {
      if watchingGlobally && watchingThread {
        posted := posted + [request];
      }
    }

    method RunOne(act: Act)
      modifies this`watchingThread, this`posted
      ensures watchingThread == old(watchingThread)
      ensures posted == old(posted) + PostsOf(act, watchingGlobally && old(watchingThread))
      decreases act
    {
      match act {
        case HeapCall(request, knownLeak, nested) =>
          if watchingGlobally && watchingThread {
            var saved := watchingThread;
            watchingThread := false;
            AtMostOnePostEach(nested, false);
            Run(nested);
            if !(knownLeak && request.Malloc?) {
              posted := posted + [request];
            }
            watchingThread := saved;
          }

        case Guarded(token, scope) =>
          var current := watchingThread;
          watchingThread := false;
          // The token is allocated while the flag is off.
          PostIfWatched(Malloc(token));
          AtMostOnePostEach(scope, false);
          Run(scope);
          // ~PauseThreadWatchToken restores the flag before the token's storage is released.
          watchingThread := current;
          PostIfWatched(Free(token.address));
      }
    }
  }
}
