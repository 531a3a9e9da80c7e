/** What intermediate snapshots do to the free counters (src/HeapWatcher.cpp:752-762): the exact
    difference, and the streams in which there is none. */
module FreeCounts {
  import opened Requests
  import opened Tracker
  import opened Counting
  import opened Ledger
  import opened Confluence
  import opened Holdings

  /** The MALLOC `r` follows another acquisition of its address, whose record a SNAPSHOT has removed. */
  ghost predicate Revives(before: seq<Request>, r: Request) {
    r.Malloc? && Acquired(before, r.record.address) && !Holds(before, r.record.address)
  }

  /** A stray FREE of `a` at `f`, the last acquisition of `a` at `i`, and a SNAPSHOT at `j` since then. */
  ghost predicate SnapshotBetween(ms: seq<Request>, a: Address, f: nat, i: nat, j: nat) {
    && f < i < j < |ms| && ms[f] == Free(a) && ms[j].Snapshot? && NoClearAfter(ms, f)
    && !Holds(ms[..f], a)
    && KeptSince(ms, i, a) && forall k :: i < k < |ms| ==> !Acquires(ms[k], a)
  }

  lemma {:induction false} LastAcquisition(ms: seq<Request>, a: Address, from: nat) returns (i: nat)
    requires KeptSince(ms, from, a)
    ensures KeptSince(ms, i, a) && forall k :: i < k < |ms| ==> !Acquires(ms[k], a)
    decreases |ms| - from
  {
    i := from;
    if k :| i < k < |ms| && Acquires(ms[k], a) {
      i := LastAcquisition(ms, a, k);
    }
  }

  /** A MALLOC revives a removed record exactly when a SNAPSHOT stands between it and the acquisition of its
      address that it follows, and that address had a stray FREE before both. */
  lemma RevivesIffSnapshotBetween(before: seq<Request>, r: Request)
    requires r.Malloc?
    ensures Revives(before, r) <==> exists f: nat, i: nat, j: nat :: SnapshotBetween(before, r.record.address, f, i, j)
  {
    var a := r.record.address;
    if Revives(before, r) {
      var from: nat :| KeptSince(before, from, a);
      var i := LastAcquisition(before, a, from);
      var j: nat :| i < j < |before| && before[j].Snapshot? && Strayed(before[..j], a);
      var f: nat :| f < j && before[..j][f] == Free(a) && NoClearAfter(before[..j], f) && !Holds(before[..j][..f], a);
      assert before[..j][..f] == before[..f];
      assert Releases(before[f], a);
      forall k | f < k < |before|
        ensures !before[k].Clear?
      {
        assert k < j ==> before[..j][k] == before[k];
      }
      assert SnapshotBetween(before, a, f, i, j);
    }
    if f: nat, i: nat, j: nat :| SnapshotBetween(before, a, f, i, j) {
      assert before[..j][..f] == before[..f] && before[..j][f] == Free(a);
      assert NoClearAfter(before[..j], f);
      assert Strayed(before[..j], a);
      forall i': nat | KeptSince(before, i', a)
        ensures i' < j
      {
      }
    }
  }

  ghost function Revived(ms: seq<Request>): nat {
    if ms == [] || Last(ms).Clear? then 0
    else Revived(Init(ms)) + (if Revives(Init(ms), Last(ms)) then 1 else 0)
  }

  ghost function RevivedBytes(ms: seq<Request>): nat {
    if ms == [] || Last(ms).Clear? then 0
    else RevivedBytes(Init(ms)) + (if Revives(Init(ms), Last(ms)) then SizeOf(Last(ms)) else 0)
  }

  lemma RevivesIsAboutMallocs(before: seq<Request>, r: Request)
    ensures Revives(before, r) ==> r.Malloc? && !Holds(before, r.record.address)
  {
  }

  /** No MALLOC since the last CLEAR revives a record. */
  ghost predicate NoneRevives(ms: seq<Request>) {
    forall k :: 0 <= k < |ms| && NoClearAfter(ms, k) ==> !Revives(ms[..k], ms[k])
  }

  lemma NoneRevivesOneMore(ms: seq<Request>, r: Request)
    ensures r.Clear? ==> NoneRevives(ms + [r])
    ensures !r.Clear? ==> (NoneRevives(ms + [r]) <==> NoneRevives(ms) && !Revives(ms, r))
  {
    RevivesIsAboutMallocs(ms, r);
    hide Revives;
    var longer := ms + [r];
    assert longer[|ms|] == r && longer[..|ms|] == ms && NoClearAfter(longer, |ms|);
    forall k: nat | k < |ms|
      ensures longer[k] == ms[k] && longer[..k] == ms[..k]
      ensures NoClearAfter(longer, k) <==> NoClearAfter(ms, k) && !r.Clear?
    {
    }
  }

  lemma {:induction false} NothingRevivedIff(ms: seq<Request>)
    ensures Revived(ms) == 0 <==> NoneRevives(ms)
  {
    if ms != [] {
      var zs, r := Init(ms), Last(ms);
      assert ms == zs + [r];
      assert Revived(ms) == if r.Clear? then 0 else Revived(zs) + (if Revives(zs, r) then 1 else 0);
      hide *;
      NothingRevivedIff(zs);
      NoneRevivesOneMore(zs, r);
    }
  }

  lemma {:induction false} UpdatesHoldNoQueries(ms: seq<Request>)
    ensures forall m :: m in Updates(ms) ==> !IsQuery(m)
    ensures Updates(Updates(ms)) == Updates(ms)
  {
    if ms != [] {
      UpdatesHoldNoQueries(Init(ms));
      if !IsQuery(Last(ms)) {
        assert Init(Updates(ms)) == Updates(Init(ms));
      }
    }
  }

  lemma {:induction false} UpdatesAcquireTheSame(ms: seq<Request>, a: Address)
    ensures Acquired(Updates(ms), a) <==> Acquired(ms, a)
  {
    if ms != [] {
      hide Acquired;
      UpdatesAcquireTheSame(Init(ms), a);
      AcquiredOneMore(Init(ms), Last(ms), a);
      AcquiredOneMore(Updates(Init(ms)), Last(ms), a);
      assert ms == Init(ms) + [Last(ms)];
    }
  }

  /** Whether `emplace` drops a MALLOC, with the snapshots and without them. */
  lemma DropsAre(ms: seq<Request>, r: Request)
    requires forall m :: m in ms ==> !m.Realloc?
    requires r.Malloc?
    ensures Defined(EMPTY, ms) && Defined(EMPTY, Updates(ms))
    ensures Drops(Fold(EMPTY, ms), r) <==> Holds(ms, r.record.address)
    ensures Drops(Fold(EMPTY, Updates(ms)), r) <==> Holds(ms, r.record.address) || Revives(ms, r)
  {
    var a := r.record.address;
    UpdatesAreReallocFree(ms);
    ReallocFreeIsDefined(EMPTY, ms);
    ReallocFreeIsDefined(EMPTY, Updates(ms));
    OpenIffHolds(ms, a);
    OpenIffHolds(Updates(ms), a);
    UpdatesHoldNoQueries(ms);
    HoldsWithoutSnapshots(Updates(ms), a);
    UpdatesAcquireTheSame(ms, a);
  }

  lemma {:induction false} SnapshotsSpareDrops(ms: seq<Request>)
    requires forall m :: m in ms ==> !m.Realloc?
    ensures Defined(EMPTY, ms) && Defined(EMPTY, Updates(ms))
    ensures Dropped(Updates(ms)) == Dropped(ms) + Revived(ms)
    ensures DroppedBytes(Updates(ms)) == DroppedBytes(ms) + RevivedBytes(ms)
  {
    UpdatesAreReallocFree(ms);
    ReallocFreeIsDefined(EMPTY, ms);
    ReallocFreeIsDefined(EMPTY, Updates(ms));
    if ms != [] {
      hide Fold, Step, Revives, SizeOf;
      var zs, r := Init(ms), Last(ms);
      assert r in ms;
      SnapshotsSpareDrops(zs);
      if !IsQuery(r) {
        assert Init(Updates(ms)) == Updates(zs) && Last(Updates(ms)) == r;
        if r.Malloc? {
          DropsAre(zs, r);
        }
      }
      RevivesIsAboutMallocs(zs, r);
    }
  }

  lemma ReportIsBalanced(ms: seq<Request>)
    requires Defined(EMPTY, ms)
    ensures Balanced(Reconcile(Fold(EMPTY, ms)), Dropped(ms), DroppedBytes(ms))
  {
    hide *;
    LedgerBalances(ms);
    BalancedReport(Fold(EMPTY, ms), Dropped(ms), DroppedBytes(ms));
  }

  /** Snapshots taken on the way raise the final free counters by exactly the MALLOCs they revive. */
  lemma SnapshotsRaiseFreeCounts(ms: seq<Request>)
    requires forall m :: m in ms ==> !m.Realloc?
    ensures Defined(EMPTY, ms) && Defined(EMPTY, Updates(ms))
    ensures var x, y := Reconcile(Fold(EMPTY, ms)), Reconcile(Fold(EMPTY, Updates(ms)));
            x.frees == y.frees + Revived(ms) && x.bytesFreed == y.bytesFreed + RevivedBytes(ms)
  {
    UpdatesAreReallocFree(ms);
    UpdatesHoldNoQueries(ms);
    ExtraSnapshotsDoNotChangeTheReport(ms, Updates(ms));
    ReportIsBalanced(ms);
    ReportIsBalanced(Updates(ms));
    SnapshotsSpareDrops(ms);
  }

  /** A stream's report counts as many frees as it would without its queries if and only if no MALLOC
      since the last CLEAR revives a record. */
  lemma FreeCountUnaffectedIff(ms: seq<Request>)
    requires forall m :: m in ms ==> !m.Realloc?
    ensures Defined(EMPTY, ms) && Defined(EMPTY, Updates(ms))
    ensures Reconcile(Fold(EMPTY, ms)).frees == Reconcile(Fold(EMPTY, Updates(ms))).frees <==> NoneRevives(ms)
  {
    SnapshotsRaiseFreeCounts(ms);
    NothingRevivedIff(ms);
  }

  /** Two streams that differ only in their queries count equally many frees if and only if they revive
      equally many MALLOCs. */
  lemma FreeCountsAgreeIff(ms: seq<Request>, ns: seq<Request>)
    requires forall m :: m in ms ==> !m.Realloc?
    requires forall n :: n in ns ==> !n.Realloc?
    requires Updates(ms) == Updates(ns)
    ensures Defined(EMPTY, ms) && Defined(EMPTY, ns)
    ensures Reconcile(Fold(EMPTY, ms)).frees == Reconcile(Fold(EMPTY, ns)).frees <==> Revived(ms) == Revived(ns)
  {
    hide *;
    SnapshotsRaiseFreeCounts(ms);
    SnapshotsRaiseFreeCounts(ns);
  }

  lemma SmallestRevival(r: AllocationRecord)
    ensures Revived([Free(r.address), Malloc(r), Snapshot(0), Malloc(r)]) > 0
  {
    var before, m := [Free(r.address), Malloc(r), Snapshot(0)], Malloc(r);
    hide Revives;
    assert Init(before + [m]) == before && Last(before + [m]) == m;
    assert before + [m] == [Free(r.address), Malloc(r), Snapshot(0), Malloc(r)];
    assert before[..0] == [];
    NothingHeld(r.address);
    assert SnapshotBetween(before, r.address, 0, 1, 2);
    RevivesIffSnapshotBetween(before, m);
  }

  /** The smallest case: FREE, MALLOC, (SNAPSHOT), MALLOC on one address. */
  lemma ExtraSnapshotCanChangeFreeCount(r: AllocationRecord)
    ensures var f, m := Free(r.address), Malloc(r);
            && Updates([f, m, Snapshot(0), m]) == [f, m, m]
            && Defined(EMPTY, [f, m, Snapshot(0), m]) && Defined(EMPTY, [f, m, m])
            && Reconcile(Fold(EMPTY, [f, m, Snapshot(0), m])).frees > Reconcile(Fold(EMPTY, [f, m, m])).frees
  {
    hide Fold, Defined, Updates, Revived, Reconcile, Step;
    var f, m, q := Free(r.address), Malloc(r), Snapshot(0);
    UpdatesOneMore([], f);
    UpdatesOneMore([f], m);
    UpdatesOneMore([f, m], q);
    UpdatesOneMore([f, m, q], m);
    assert [] + [f] == [f] && [f] + [m] == [f, m] && [f, m] + [q] == [f, m, q];
    assert [f, m, q] + [m] == [f, m, q, m] && [f, m] + [m] == [f, m, m];
    SmallestRevival(r);
    SnapshotsRaiseFreeCounts([f, m, q, m]);
  }
}
