/** Pause tokens that end in any order: a guard can be moved, so it may outlive one taken after it. When
    the thread's flag comes back, and when the thread is paused while a guard lives
    (src/HeapWatcher.cpp:187-196, 482-492; README.md:134-136). */
module Tokens {
  import opened Tracker

  datatype TokenStep = Open(id: nat) | Close(id: nat)

  /** The flag, and what each living token saved. */
  datatype Flag = Flag(watching: bool, saved: map<nat, bool>)

  /** A token saves the flag and turns it off; its end puts the saved value back. */
  function Apply(f: Flag, step: TokenStep): Flag {
    match step
    case Open(id) => Flag(false, f.saved[id := f.watching])
    case Close(id) => if id in f.saved then Flag(f.saved[id], f.saved - {id}) else f
  }

  function After(watching: bool, steps: seq<TokenStep>): Flag {
    if steps == [] then Flag(watching, map[]) else Apply(After(watching, Init(steps)), Last(steps))
  }

  function Living(steps: seq<TokenStep>): set<nat> {
    if steps == [] then {}
    else if Last(steps).Open? then Living(Init(steps)) + {Last(steps).id}
    else Living(Init(steps)) - {Last(steps).id}
  }

  /** Each token is opened once and ends while it lives. */
  predicate WellFormed(steps: seq<TokenStep>) {
    steps == [] || (
      && WellFormed(Init(steps))
      && if Last(steps).Open? then Last(steps) !in Init(steps) else Last(steps).id in Living(Init(steps)))
  }

  lemma {:induction false} SavedAreLiving(watching: bool, steps: seq<TokenStep>)
    requires WellFormed(steps)
    ensures After(watching, steps).saved.Keys == Living(steps)
    ensures forall id :: id in Living(steps) ==> Open(id) in steps
  {
    if steps != [] {
      SavedAreLiving(watching, Init(steps));
      assert steps == Init(steps) + [Last(steps)];
    }
  }

  // ----- the flag after the last end -----

  lemma WellFormedPrefix(steps: seq<TokenStep>, n: nat)
    requires WellFormed(steps) && n <= |steps|
    ensures WellFormed(steps[..n])
    decreases |steps|
  {
    if n < |steps| {
      WellFormedPrefix(Init(steps), n);
      assert Init(steps)[..n] == steps[..n];
    } else {
      assert steps[..n] == steps;
    }
  }

  /** A living token saved the flag as it was when the token was opened. */
  lemma {:induction false} SavedWhenOpened(watching: bool, steps: seq<TokenStep>, id: nat) returns (p: nat)
    requires WellFormed(steps) && id in Living(steps)
    ensures p < |steps| && steps[p] == Open(id)
    ensures id in After(watching, steps).saved
    ensures After(watching, steps).saved[id] == After(watching, steps[..p]).watching
  {
    SavedAreLiving(watching, steps);
    SavedAreLiving(watching, Init(steps));
    if Last(steps) == Open(id) {
      p := |steps| - 1;
    } else {
      p := SavedWhenOpened(watching, Init(steps), id);
      assert Init(steps)[..p] == steps[..p];
    }
  }

  lemma {:induction false} OpenedOnce(steps: seq<TokenStep>, i: nat, j: nat)
    requires WellFormed(steps) && i < j < |steps| && steps[i] == steps[j]
    ensures !steps[i].Open?
  {
    if j == |steps| - 1 {
      assert Init(steps)[i] == steps[i];
    } else {
      OpenedOnce(Init(steps), i, j);
    }
  }

  /** No step yet, or the last step ends a token that was itself opened at such a moment. */
  ghost predicate Outermost(steps: seq<TokenStep>) {
    steps == [] || (
      && Last(steps).Close?
      && exists p :: 0 <= p < |steps| - 1 && steps[p] == Open(Last(steps).id) && Outermost(steps[..p]))
  }

  /** For every order in which tokens end: the thread is watched again exactly when it was at first, and the
      last step ends a token that was opened while the flag had that first value - which goes back, from a
      token's end to its opening and the end just before that, to the beginning. */
  lemma {:induction false} RestoredIff(watching: bool, steps: seq<TokenStep>)
    requires WellFormed(steps)
    ensures After(watching, steps).watching <==> watching && Outermost(steps)
    decreases |steps|
  {
    if steps != [] && Last(steps).Close? {
      var id := Last(steps).id;
      var p := SavedWhenOpened(watching, Init(steps), id);
      assert Init(steps)[..p] == steps[..p];
      WellFormedPrefix(steps, p);
      RestoredIff(watching, steps[..p]);
      assert steps[p] == Open(id);
      forall q | 0 <= q < |steps| - 1 && steps[q] == Open(id)
        ensures q == p
      {
        if q < p {
          OpenedOnce(steps, q, p);
        } else if p < q {
          OpenedOnce(steps, p, q);
        }
      }
    }
  }

  // ----- paused while a token lives -----

  /** The living tokens that were opened when none was. */
  function Firsts(steps: seq<TokenStep>): set<nat> {
    if steps == [] then {}
    else if Last(steps).Close? then Firsts(Init(steps)) - {Last(steps).id}
    else if Living(Init(steps)) == {} then Firsts(Init(steps)) + {Last(steps).id}
    else Firsts(Init(steps))
  }

  /** A token that was opened when none was ends when no other lives. */
  ghost predicate FirstEndsLast(steps: seq<TokenStep>) {
    forall n :: 0 <= n < |steps| && steps[n].Close? && steps[n].id in Firsts(steps[..n]) ==>
      Living(steps[..n]) == {steps[n].id}
  }

  ghost predicate PausedWhileLiving(steps: seq<TokenStep>) {
    forall n :: 0 <= n <= |steps| && Living(steps[..n]) != {} ==> !After(true, steps[..n]).watching
  }

  /** The flag is on exactly when no token lives; and only the first token has it saved. */
  ghost predicate InOrder(steps: seq<TokenStep>) {
    && After(true, steps).saved.Keys == Living(steps)
    && (After(true, steps).watching <==> Living(steps) == {})
    && Firsts(steps) <= Living(steps)
    && forall id :: id in Living(steps) ==> (After(true, steps).saved[id] <==> id in Firsts(steps))
  }

  lemma FirstEndsLastShorter(steps: seq<TokenStep>)
    requires steps != [] && FirstEndsLast(steps)
    ensures FirstEndsLast(Init(steps))
    ensures Last(steps).Close? && Last(steps).id in Firsts(Init(steps)) ==> Living(Init(steps)) == {Last(steps).id}
  {
    assert forall n :: 0 <= n < |steps| ==> Init(steps)[..n] == steps[..n];
    assert steps[|steps| - 1] == Last(steps);
  }

  lemma {:induction false} SomeTokenIsFirst(steps: seq<TokenStep>)
    requires WellFormed(steps) && FirstEndsLast(steps) && Living(steps) != {}
    ensures Firsts(steps) * Living(steps) != {}
  {
    var before, last := Init(steps), Last(steps);
    FirstEndsLastShorter(steps);
    if Living(before) != {} {
      SomeTokenIsFirst(before);
      if last.Close? && last.id !in Firsts(before) {
        assert Firsts(steps) == Firsts(before);
        var x :| x in Firsts(before) * Living(before);
        assert x in Firsts(steps) * Living(steps);
      } else if last.Open? {
        var x :| x in Firsts(before) * Living(before);
        assert x in Firsts(steps) * Living(steps);
      }
    } else {
      assert last.id in Firsts(steps) * Living(steps);
    }
  }

  lemma {:induction false} FirstEndsLastKeepsOrder(steps: seq<TokenStep>)
    requires WellFormed(steps) && FirstEndsLast(steps)
    ensures InOrder(steps)
  {
    if steps != [] {
      var before, last := Init(steps), Last(steps);
      FirstEndsLastShorter(steps);
      FirstEndsLastKeepsOrder(before);
      SavedAreLiving(true, before);
      SavedAreLiving(true, steps);
      if last.Close? {
        if last.id !in Firsts(before) {
          SomeTokenIsFirst(before);
          var x :| x in Firsts(before) * Living(before);
          assert x in Living(steps);
        } else {
          assert Living(before) == {last.id};
        }
      }
    }
  }

  lemma PausedShorter(steps: seq<TokenStep>)
    requires steps != [] && PausedWhileLiving(steps)
    ensures PausedWhileLiving(Init(steps))
    ensures Living(steps) != {} ==> !After(true, steps).watching
  {
    assert forall n :: 0 <= n < |steps| ==> Init(steps)[..n] == steps[..n];
    assert steps[..|steps|] == steps;
  }

  lemma {:induction false} PausedKeepsOrder(steps: seq<TokenStep>)
    requires WellFormed(steps) && PausedWhileLiving(steps)
    ensures FirstEndsLast(steps)
  {
    if steps != [] {
      var before, last := Init(steps), Last(steps);
      PausedShorter(steps);
      PausedKeepsOrder(before);
      FirstEndsLastKeepsOrder(before);
      forall n | 0 <= n < |steps| && steps[n].Close? && steps[n].id in Firsts(steps[..n])
        ensures Living(steps[..n]) == {steps[n].id}
      {
        if n < |before| {
          assert before[..n] == steps[..n] && before[n] == steps[n];
        } else {
          assert steps[..n] == before && steps[n] == last;
          assert After(true, steps).watching;
          assert Living(steps) == Living(before) - {last.id};
        }
      }
    }
  }

  /** For every order in which tokens end: a watched thread is paused whenever a token lives if and only if
      each token opened when none lived is the last of those after it to end. */
  lemma PausedWhileLivingIff(steps: seq<TokenStep>)
    requires WellFormed(steps)
    ensures PausedWhileLiving(steps) <==> FirstEndsLast(steps)
  {
    if PausedWhileLiving(steps) {
      PausedKeepsOrder(steps);
    }
    if FirstEndsLast(steps) {
      forall n | 0 <= n <= |steps| && Living(steps[..n]) != {}
        ensures !After(true, steps[..n]).watching
      {
        WellFormedPrefix(steps, n);
        FirstEndsLastPrefix(steps, n);
        FirstEndsLastKeepsOrder(steps[..n]);
      }
    }
  }

  lemma FirstEndsLastPrefix(steps: seq<TokenStep>, n: nat)
    requires FirstEndsLast(steps) && n <= |steps|
    ensures FirstEndsLast(steps[..n])
  {
    assert forall k :: 0 <= k < n ==> steps[..n][..k] == steps[..k] && steps[..n][k] == steps[k];
  }

  /** Then the thread is also watched again whenever no token lives. */
  lemma PausedMeansRestored(steps: seq<TokenStep>)
    requires WellFormed(steps) && PausedWhileLiving(steps) && Living(steps) == {}
    ensures After(true, steps).watching
  {
    PausedWhileLivingIff(steps);
    FirstEndsLastKeepsOrder(steps);
  }

  /** The thread-local flag with its living tokens, each holding its `saved_value_`. */
  class PausableThread {
    var watching: bool
    var saved: map<nat, bool>

    ghost function Now(): Flag
      reads this
    {
      Flag(watching, saved)
    }

    constructor (watching: bool)
      ensures Now() == Flag(watching, map[])
    {
      this.watching, saved := watching, map[];
    }

    method OpenToken(id: nat)
      modifies this
      ensures Now() == Apply(old(Now()), Open(id))
    {
      var current := watching;
      watching := false;
      saved := saved[id := current];
    }

    method CloseToken(id: nat)
      requires id in saved
      modifies this
      ensures Now() == Apply(old(Now()), Close(id))
    {
      watching := saved[id];
      saved := saved - {id};
    }

    /** Tokens opened and ended in any order: the flag comes back exactly after the orders of `RestoredIff`, and
        in the orders of `PausedWhileLivingIff` it is on exactly when no token lives. */
    method Run(steps: seq<TokenStep>)
      requires WellFormed(steps) && saved == map[]
      modifies this
      ensures saved.Keys == Living(steps)
      ensures watching <==> old(watching) && Outermost(steps)
      ensures old(watching) && FirstEndsLast(steps) ==> (watching <==> Living(steps) == {})
    {
      ghost var start := watching;
      var i := 0;
      while i < |steps|
        invariant 0 <= i <= |steps|
        invariant Now() == After(start, steps[..i])
      {
        assert Init(steps[..i + 1]) == steps[..i] && Last(steps[..i + 1]) == steps[i];
        WellFormedPrefix(steps, i + 1);
        SavedAreLiving(start, steps[..i]);
        match steps[i] {
          case Open(id) => OpenToken(id);
          case Close(id) => CloseToken(id);
        }
        i := i + 1;
      }
      assert steps[..i] == steps;
      SavedAreLiving(start, steps);
      RestoredIff(start, steps);
      if FirstEndsLast(steps) {
        FirstEndsLastKeepsOrder(steps);
      }
    }
  }

  /** The smallest case: the outer of two guards ends first. The thread is watched again while the inner one
      lives, and left paused when both are gone. */
  lemma CrossedTokensLeaveTheThreadPaused(outer: nat, inner: nat)
    requires outer != inner
    ensures var steps := [Open(outer), Open(inner), Close(outer), Close(inner)];
            && WellFormed(steps) && !PausedWhileLiving(steps)
            && After(true, steps[..3]).watching && inner in Living(steps[..3])
            && !After(true, steps).watching && Living(steps) == {}
  {
    var steps := [Open(outer), Open(inner), Close(outer), Close(inner)];
    OneMoreStep([], Open(outer));
    OneMoreStep([Open(outer)], Open(inner));
    OneMoreStep([Open(outer), Open(inner)], Close(outer));
    OneMoreStep([Open(outer), Open(inner), Close(outer)], Close(inner));
    assert [] + [Open(outer)] == [Open(outer)];
    assert [Open(outer)] + [Open(inner)] == [Open(outer), Open(inner)];
    assert [Open(outer), Open(inner)] + [Close(outer)] == [Open(outer), Open(inner), Close(outer)];
    assert [Open(outer), Open(inner), Close(outer)] + [Close(inner)] == steps;
    assert steps[..3] == [Open(outer), Open(inner), Close(outer)];
    hide After, Living, WellFormed;
    assert After(true, [Open(outer), Open(inner), Close(outer)]) == Flag(true, map[inner := false]);
    assert Living(steps[..3]) == {inner};
  }

  lemma OneMoreStep(steps: seq<TokenStep>, step: TokenStep)
    ensures After(true, []) == Flag(true, map[]) && Living([]) == {} && WellFormed([])
    ensures After(true, steps + [step]) == Apply(After(true, steps), step)
    ensures Living(steps + [step]) == if step.Open? then Living(steps) + {step.id} else Living(steps) - {step.id}
    ensures WellFormed(steps + [step]) <==>
              WellFormed(steps) && if step.Open? then step !in steps else step.id in Living(steps)
  {
    assert Init(steps + [step]) == steps && Last(steps + [step]) == step;
  }
}
