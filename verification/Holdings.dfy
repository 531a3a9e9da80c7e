/** What the worker holds after a stream, read off the stream alone, and from it the exact condition
    under which a REALLOC finds its record (src/HeapWatcher.cpp:674-762). */
module Holdings {
  import opened Requests
  import opened Tracker
  import opened Counting

  /** The request at `i` brought a block to `a`; nothing after it released `a` or cleared the map. */
  ghost predicate KeptSince(ms: seq<Request>, i: nat, a: Address) {
    && i < |ms| && Acquires(ms[i], a)
    && forall k :: i < k < |ms| ==> !Releases(ms[k], a) && !ms[k].Clear?
  }

  /** The last request about `a` since the last CLEAR acquires it. */
  ghost predicate Acquired(ms: seq<Request>, a: Address) {
    exists i: nat :: KeptSince(ms, i, a)
  }

  ghost predicate NoClearAfter(ms: seq<Request>, i: nat) {
    forall k :: i < k < |ms| ==> !ms[k].Clear?
  }

  /** ... and no SNAPSHOT since then met `a` among the strays. */
  ghost predicate Holds(ms: seq<Request>, a: Address)
    decreases |ms|, 1
  {
    exists i: nat :: KeptSince(ms, i, a) && forall j :: i < j < |ms| && ms[j].Snapshot? ==> !Strayed(ms[..j], a)
  }

  /** Since the last CLEAR `a` was freed at a moment when it was not held. */
  ghost predicate Strayed(ms: seq<Request>, a: Address)
    decreases |ms|, 0
  {
    exists f: nat :: f < |ms| && ms[f] == Free(a) && NoClearAfter(ms, f) && !Holds(ms[..f], a)
  }

  lemma AcquiredOneMore(ms: seq<Request>, r: Request, a: Address)
    ensures Acquired(ms + [r], a) <==>
              !r.Clear? && (Acquires(r, a) || (!Releases(r, a) && Acquired(ms, a)))
  {
    var longer := ms + [r];
    assert forall k :: 0 <= k < |ms| ==> longer[k] == ms[k];
    if Acquired(longer, a) {
      var i: nat :| KeptSince(longer, i, a);
      assert i < |ms| ==> KeptSince(ms, i, a) && longer[|ms|] == r;
    }
    if Acquires(r, a) {
      assert KeptSince(longer, |ms|, a);
    }
    if Acquired(ms, a) && !Releases(r, a) && !r.Clear? {
      var i: nat :| KeptSince(ms, i, a);
      assert KeptSince(longer, i, a);
    }
  }

  lemma HoldsOneMore(ms: seq<Request>, r: Request, a: Address)
    ensures Holds(ms + [r], a) <==>
              if Acquires(r, a) then true
              else !r.Clear? && !Releases(r, a) && Holds(ms, a) && (r.Snapshot? ==> !Strayed(ms, a))
  {
    var longer := ms + [r];
    assert forall k :: 0 <= k < |ms| ==> longer[k] == ms[k] && longer[..k] == ms[..k];
    assert longer[..|ms|] == ms && longer[|ms|] == r;
    if Holds(longer, a) {
      var i: nat :| KeptSince(longer, i, a) && forall j :: i < j < |longer| && longer[j].Snapshot? ==> !Strayed(longer[..j], a);
      if i < |ms| {
        assert KeptSince(ms, i, a);
      }
    }
    if Acquires(r, a) {
      assert KeptSince(longer, |ms|, a);
    } else if Holds(ms, a) && !r.Clear? && !Releases(r, a) && (r.Snapshot? ==> !Strayed(ms, a)) {
      var i: nat :| KeptSince(ms, i, a) && forall j :: i < j < |ms| && ms[j].Snapshot? ==> !Strayed(ms[..j], a);
      assert KeptSince(longer, i, a);
    }
  }

  lemma StrayedOneMore(ms: seq<Request>, r: Request, a: Address)
    ensures Strayed(ms + [r], a) <==> !r.Clear? && (Strayed(ms, a) || (r == Free(a) && !Holds(ms, a)))
  {
    var longer := ms + [r];
    assert forall k :: 0 <= k < |ms| ==> longer[k] == ms[k] && longer[..k] == ms[..k];
    assert longer[..|ms|] == ms && longer[|ms|] == r;
    if Strayed(longer, a) {
      var f: nat :| f < |longer| && longer[f] == Free(a) && NoClearAfter(longer, f) && !Holds(longer[..f], a);
      assert f < |ms| ==> NoClearAfter(ms, f);
    }
    if Strayed(ms, a) && !r.Clear? {
      var f: nat :| f < |ms| && ms[f] == Free(a) && NoClearAfter(ms, f) && !Holds(ms[..f], a);
      assert NoClearAfter(longer, f) && longer[f] == Free(a);
    }
    if r == Free(a) && !Holds(ms, a) {
      assert NoClearAfter(longer, |ms|) && longer[|ms|] == Free(a);
    }
  }

  /** The map and the stray set are what the stream says. */
  lemma {:induction false} OpenIffHolds(ms: seq<Request>, a: Address)
    requires Defined(EMPTY, ms)
    ensures a in Fold(EMPTY, ms).open <==> Holds(ms, a)
    ensures a in Fold(EMPTY, ms).strays <==> Strayed(ms, a)
  {
    hide Holds, Strayed;
    if ms == [] {
      NothingHeld(a);
    } else {
      OpenIffHolds(Init(ms), a);
      assert ms == Init(ms) + [Last(ms)];
      HoldsOneMore(Init(ms), Last(ms), a);
      StrayedOneMore(Init(ms), Last(ms), a);
    }
  }

  lemma NothingHeld(a: Address)
    ensures !Holds([], a) && !Strayed([], a)
  {
  }

  /** A REALLOC finds its record if and only if the last request about its original address since the last
      CLEAR acquired that address and no SNAPSHOT has since removed it as a stray. */
  lemma ReallocHitsIff(ms: seq<Request>, r: Request)
    requires Defined(EMPTY, ms) && r.Realloc?
    ensures Handles(Fold(EMPTY, ms), r) <==> Holds(ms, r.original)
  {
    OpenIffHolds(ms, r.original);
  }

  /** Exactly the streams that stay clear of the undefined branch. */
  ghost predicate ReallocsHold(ms: seq<Request>) {
    forall k :: 0 <= k < |ms| && ms[k].Realloc? ==> Holds(ms[..k], ms[k].original)
  }

  lemma {:induction false} DefinedIff(ms: seq<Request>)
    ensures Defined(EMPTY, ms) <==> ReallocsHold(ms)
  {
    hide Holds;
    if ms != [] {
      var zs, r := Init(ms), Last(ms);
      DefinedIff(zs);
      assert forall k :: 0 <= k < |zs| ==> zs[k] == ms[k] && zs[..k] == ms[..k];
      assert ms[..|zs|] == zs && ms[|zs|] == r;
      if ReallocsHold(ms) {
        assert ReallocsHold(zs);
      }
      if Defined(EMPTY, zs) && r.Realloc? {
        ReallocHitsIff(zs, r);
      }
    }
  }

  /** Without snapshots only the last request about the address counts. */
  lemma HoldsWithoutSnapshots(ms: seq<Request>, a: Address)
    requires forall m :: m in ms ==> !m.Snapshot?
    ensures Holds(ms, a) <==> Acquired(ms, a)
  {
    assert forall j :: 0 <= j < |ms| ==> ms[j] in ms;
    if Acquired(ms, a) {
      var i: nat :| KeptSince(ms, i, a);
      assert forall j :: i < j < |ms| && ms[j].Snapshot? ==> !Strayed(ms[..j], a);
    }
  }
}
