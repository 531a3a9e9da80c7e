/** A plain heap as the specification of the tracker when one producer's requests arrive in order
    and address reuse is allowed (src/HeapWatcher.cpp:226-304, 674-728). */
module ReferenceHeap {
  import opened Requests
  import opened Tracker
  import Ledger

  /** The live blocks and their sizes. */
  type Heap = map<Address, nat>

  /** A malloc returns a block that is not live, a realloc stays or moves to such a block, and only
      live blocks are released. */
  predicate Legal(h: Heap, r: Request) {
    match r
    case Malloc(record) => record.address !in h
    case Realloc(original, moved, _) => original in h && (moved == original || moved !in h)
    case Free(block) => block in h
    case Clear(_) => false
    case _ => true
  }

  function Apply(h: Heap, r: Request): Heap {
    match r
    case Malloc(record) => h[record.address := record.size]
    case Realloc(original, moved, newSize) => (h - {original})[moved := newSize]
    case Free(block) => h - {block}
    case _ => h
  }

  predicate LegalRun(h: Heap, ms: seq<Request>) {
    ms == [] || (LegalRun(h, Init(ms)) && Legal(Run(h, Init(ms)), Last(ms)))
  }

  function Run(h: Heap, ms: seq<Request>): Heap {
    if ms == [] then h else Apply(Run(h, Init(ms)), Last(ms))
  }

  function FreesIn(ms: seq<Request>): nat {
    if ms == [] then 0 else FreesIn(Init(ms)) + (if Last(ms).Free? then 1 else 0)
  }

  ghost predicate Mirrors(s: State, h: Heap) {
    && s.strays == {}
    && (forall a :: a in s.open <==> a in h)
    && (forall a :: a in s.open ==> s.open[a].size == h[a] && s.open[a].address == a)
  }

  lemma StepMirrors(s: State, h: Heap, r: Request)
    requires Mirrors(s, h) && Legal(h, r)
    ensures Handles(s, r) && !Ledger.Drops(s, r)
    ensures Mirrors(Step(s, r), Apply(h, r))
    ensures Step(s, r).frees == s.frees + if r.Free? then 1 else 0
  {
    if r.Snapshot? {
      assert Without(s.open, s.strays) == s.open;
    }
  }

  /** Step for step the tracker's map is the live heap, sizes included; no stray ever appears and
      every REALLOC finds its record. */
  lemma {:induction false} TrackerRefinesHeap(s: State, h: Heap, ms: seq<Request>)
    requires Mirrors(s, h) && LegalRun(h, ms)
    ensures Defined(s, ms)
    ensures Mirrors(Fold(s, ms), Run(h, ms))
    ensures Fold(s, ms).frees == s.frees + FreesIn(ms)
  {
    if ms != [] {
      TrackerRefinesHeap(s, h, Init(ms));
      StepMirrors(Fold(s, Init(ms)), Run(h, Init(ms)), Last(ms));
    }
  }

  lemma {:induction false} NothingIsDropped(ms: seq<Request>)
    requires LegalRun(map[], ms)
    ensures Defined(EMPTY, ms) && Ledger.Dropped(ms) == 0
  {
    if ms != [] {
      NothingIsDropped(Init(ms));
      TrackerRefinesHeap(EMPTY, map[], Init(ms));
      StepMirrors(Fold(EMPTY, Init(ms)), Run(map[], Init(ms)), Last(ms));
    }
  }

  lemma NothingToReconcileIn(s: State, h: Heap)
    requires Mirrors(s, h)
    ensures Mirrors(Reconcile(s), h) && Reconcile(s) == s
  {
    NothingToReconcile(s);
  }

  /** In one watched session the report lists exactly the blocks still live, with their sizes. */
  lemma SessionReportIsTheHeap(ms: seq<Request>)
    requires LegalRun(map[], ms)
    ensures Defined(EMPTY, ms)
    ensures Mirrors(Reconcile(Fold(EMPTY, ms)), Run(map[], ms))
    ensures Reconcile(Fold(EMPTY, ms)).frees == FreesIn(ms)
  {
    TrackerRefinesHeap(EMPTY, map[], ms);
    NothingToReconcileIn(Fold(EMPTY, ms), Run(map[], ms));
  }

  ghost predicate LeakFree(report: State) {
    && report.open == map[]
    && report.mallocs == report.frees
    && report.bytesAllocated == report.bytesFreed
  }

  lemma EmptyMirror(s: State)
    requires Mirrors(s, map[]) && Ledger.CountsAgreeIffLeakFree(s)
    ensures LeakFree(s)
  {
  }

  /** When no block is left live, every malloc counted is matched by a free and every byte allocated by
      a byte freed. */
  lemma SessionWithoutLeaks(ms: seq<Request>)
    requires LegalRun(map[], ms) && Run(map[], ms) == map[]
    ensures Defined(EMPTY, ms)
    ensures LeakFree(Reconcile(Fold(EMPTY, ms)))
    ensures Reconcile(Fold(EMPTY, ms)).frees == FreesIn(ms)
  {
    SessionReportIsTheHeap(ms);
    NothingIsDropped(ms);
    Ledger.LeakFreeIffCountsAgree(ms);
    EmptyMirror(Reconcile(Fold(EMPTY, ms)));
  }
}
