/** Arrival order does not matter beyond the order of the requests about each single address, and
    taking extra snapshots does not change what is finally reported (src/HeapWatcher.cpp:674-785).
    The comment at src/HeapWatcher.cpp:747-750 and unit_tests/BasicTests.cpp:308-324 are about this. */
module Confluence {
  import opened Requests
  import opened Tracker

  predicate IsHeapEvent(r: Request) {
    r.Malloc? || r.Free?
  }

  function AddressOf(r: Request): Address
    requires IsHeapEvent(r)
  {
    if r.Malloc? then r.record.address else r.block
  }

  ghost predicate HeapEvents(ms: seq<Request>) {
    forall m :: m in ms ==> IsHeapEvent(m)
  }

  /** The requests about one address, in order. */
  function Projection(ms: seq<Request>, a: Address): seq<Request>
    requires HeapEvents(ms)
  {
    if ms == [] then []
    else
      var before := Projection(Init(ms), a);
      if AddressOf(Last(ms)) == a then before + [Last(ms)] else before
  }

  ghost predicate SameProjections(ms: seq<Request>, ns: seq<Request>)
    requires HeapEvents(ms) && HeapEvents(ns)
  {
    forall a :: Projection(ms, a) == Projection(ns, a)
  }

  // ----- confluence -----

  lemma EmplacesCommute(m: OpenMap, x: AllocationRecord, y: AllocationRecord)
    requires x.address != y.address
    ensures Emplace(Emplace(m, x.address, x), y.address, y) == Emplace(Emplace(m, y.address, y), x.address, x)
  {
  }

  lemma EmplaceAndEraseCommute(m: OpenMap, x: AllocationRecord, block: Address)
    requires x.address != block
    ensures Emplace(m, x.address, x) - {block} == Emplace(m - {block}, x.address, x)
    ensures block in Emplace(m, x.address, x) <==> block in m
    ensures block in m ==> Emplace(m, x.address, x)[block] == m[block]
  {
  }

  lemma MallocAndFreeCommute(s: State, x: AllocationRecord, block: Address)
    requires x.address != block
    ensures Step(Step(s, Malloc(x)), Free(block)) == Step(Step(s, Free(block)), Malloc(x))
  {
    EmplaceAndEraseCommute(s.open, x, block);
    hide TotalSize, Without, Emplace, Reconcile;
  }

  lemma FreesCommute(s: State, x: Address, y: Address)
    requires x != y
    ensures Step(Step(s, Free(x)), Free(y)) == Step(Step(s, Free(y)), Free(x))
  {
    hide TotalSize, Without, Emplace, Reconcile;
    assert s.open - {x} - {y} == s.open - {y} - {x};
    assert s.strays + {x} + {y} == s.strays + {y} + {x};
  }

  lemma StepsCommute(s: State, m: Request, n: Request)
    requires IsHeapEvent(m) && IsHeapEvent(n) && AddressOf(m) != AddressOf(n)
    ensures Step(Step(s, m), n) == Step(Step(s, n), m)
  {
    if m.Malloc? && n.Malloc? {
      EmplacesCommute(s.open, m.record, n.record);
      hide TotalSize, Without, Emplace, Reconcile;
    } else if m.Malloc? {
      MallocAndFreeCommute(s, m.record, n.block);
    } else if n.Malloc? {
      MallocAndFreeCommute(s, n.record, m.block);
    } else {
      FreesCommute(s, m.block, n.block);
    }
  }

  lemma {:induction false} EventSlidesToTheEnd(s: State, x: seq<Request>, m: Request, y: seq<Request>)
    requires HeapEvents(x + [m] + y)
    requires forall n :: n in y ==> IsHeapEvent(n) && AddressOf(n) != AddressOf(m)
    requires Defined(s, x + [m] + y) && Defined(s, x + y) && Handles(Fold(s, x + y), m)
    ensures Fold(s, x + [m] + y) == Step(Fold(s, x + y), m)
    decreases |y|
  {
    if y == [] {
      assert x + [m] + y == x + [m] && x + y == x;
      assert Init(x + [m]) == x && Last(x + [m]) == m;
    } else {
      var n := Last(y);
      assert n in y;
      assert Init(x + [m] + y) == x + [m] + Init(y) && Last(x + [m] + y) == n;
      assert Init(x + y) == x + Init(y) && Last(x + y) == n;
      assert IsHeapEvent(m) by {
        assert (x + [m] + y)[|x|] == m;
      }
      EventSlidesToTheEnd(s, x, m, Init(y));
      StepsCommute(Fold(s, x + Init(y)), m, n);
    }
  }

  lemma ProjectionSnoc(ms: seq<Request>, r: Request, a: Address)
    requires HeapEvents(ms) && IsHeapEvent(r)
    ensures HeapEvents(ms + [r])
    ensures Projection(ms + [r], a) == Projection(ms, a) + (if AddressOf(r) == a then [r] else [])
  {
    assert Init(ms + [r]) == ms && Last(ms + [r]) == r;
  }

  /** `ms` is `ns` without one event, the last one about `a`. */
  ghost predicate DropsLastAbout(ms: seq<Request>, ns: seq<Request>, a: Address)
    requires HeapEvents(ns)
  {
    && HeapEvents(ms)
    && Projection(ns, a) != [] && Projection(ms, a) == Init(Projection(ns, a))
    && forall b :: b != a ==> Projection(ms, b) == Projection(ns, b)
  }

  lemma DropsLastSnoc(ms: seq<Request>, ns: seq<Request>, a: Address, r: Request)
    requires HeapEvents(ns) && DropsLastAbout(ms, ns, a) && IsHeapEvent(r) && AddressOf(r) != a
    ensures HeapEvents(ns + [r]) && DropsLastAbout(ms + [r], ns + [r], a)
    ensures Projection(ns + [r], a) == Projection(ns, a)
  {
    hide Projection;
    forall b {
      ProjectionSnoc(ms, r, b);
    }
    forall b {
      ProjectionSnoc(ns, r, b);
    }
  }

  lemma {:induction false} SplitAtLastEvent(ns: seq<Request>, a: Address)
    returns (x: seq<Request>, m: Request, y: seq<Request>)
    requires HeapEvents(ns) && Projection(ns, a) != []
    ensures ns == x + [m] + y
    ensures IsHeapEvent(m) && AddressOf(m) == a && m == Last(Projection(ns, a))
    ensures forall n :: n in y ==> IsHeapEvent(n) && AddressOf(n) != a
    ensures DropsLastAbout(x + y, ns, a)
  {
    assert ns != [];
    hide Projection;
    var before, last := Init(ns), Last(ns);
    assert last in ns;
    assert ns == before + [last];
    forall b {
      ProjectionSnoc(before, last, b);
    }
    if AddressOf(last) == a {
      x, m, y := before, last, [];
      assert x + y == before;
    } else {
      x, m, y := SplitAtLastEvent(before, a);
      DropsLastSnoc(x + y, before, a, last);
      assert x + y + [last] == x + (y + [last]);
      y := y + [last];
    }
  }

  lemma LastEventIsProjected(ms: seq<Request>)
    requires HeapEvents(ms) && ms != []
    ensures IsHeapEvent(Last(ms)) && Projection(ms, AddressOf(Last(ms))) != []
  {
    assert Last(ms) in ms;
  }

  /** Any two arrival orders that agree on each address leave the worker in the same state:
      map, strays and every counter. */
  lemma {:induction false} ArrivalOrderIsIrrelevant(s: State, ms: seq<Request>, ns: seq<Request>)
    requires HeapEvents(ms) && HeapEvents(ns) && SameProjections(ms, ns)
    ensures Defined(s, ms) && Defined(s, ns)
    ensures Fold(s, ms) == Fold(s, ns)
    decreases |ms|
  {
    ReallocFreeIsDefined(s, ms);
    ReallocFreeIsDefined(s, ns);
    if ms == [] {
      if ns != [] {
        LastEventIsProjected(ns);
        assert Projection(ms, AddressOf(Last(ns))) == [];
      }
    } else {
      var last := Last(ms);
      assert last in ms;
      var a := AddressOf(last);
      assert Projection(ns, a) == Projection(ms, a);
      var x, m, y := SplitAtLastEvent(ns, a);
      assert m == last;
      forall b
        ensures Projection(Init(ms), b) == Projection(x + y, b)
      {
        assert Projection(ms, b) == Projection(ns, b);
      }
      ArrivalOrderIsIrrelevant(s, Init(ms), x + y);
      EventSlidesToTheEnd(s, x, m, y);
    }
  }

  // ----- which addresses survive -----

  /** Starts with MALLOC, ends with MALLOC, and no FREE directly follows another. */
  ghost predicate Survives(p: seq<Request>) {
    && p != [] && p[0].Malloc? && Last(p).Malloc?
    && forall i :: 0 < i < |p| ==> !(p[i - 1].Free? && p[i].Free?)
  }

  /** A FREE that comes first, or directly after another FREE. */
  ghost predicate HasStrayFree(p: seq<Request>) {
    exists i :: 0 <= i < |p| && p[i].Free? && (i == 0 || p[i - 1].Free?)
  }

  /** The MALLOC that opens the last unbroken run of MALLOCs: `emplace` keeps it and drops the rest. */
  function Survivor(p: seq<Request>): Request
    requires p != []
  {
    if |p| == 1 || p[|p| - 2].Free? then Last(p) else Survivor(Init(p))
  }

  lemma ProjectionGrows(before: seq<Request>, last: Request)
    ensures HasStrayFree(before + [last])
       <==> HasStrayFree(before) || (last.Free? && (before == [] || Last(before).Free?))
    ensures Survivor(before + [last]) == if before == [] || Last(before).Free? then last else Survivor(before)
    ensures Last(before + [last]) == last
  {
    var p := before + [last];
    assert Init(p) == before;
    assert forall i :: 0 <= i < |before| ==> p[i] == before[i];
    if HasStrayFree(p) {
      var i :| 0 <= i < |p| && p[i].Free? && (i == 0 || p[i - 1].Free?);
      assert i < |before| ==> before[i].Free? && (i == 0 || before[i - 1].Free?);
    }
    if HasStrayFree(before) {
      var i :| 0 <= i < |before| && before[i].Free? && (i == 0 || before[i - 1].Free?);
      assert p[i].Free? && (i == 0 || p[i - 1].Free?);
    }
    if last.Free? && (before == [] || Last(before).Free?) {
      assert p[|before|].Free? && (|before| == 0 || p[|before| - 1].Free?);
    }
  }

  lemma {:induction false} AddressFollowsProjection(ms: seq<Request>, a: Address)
    requires HeapEvents(ms)
    ensures Defined(EMPTY, ms)
    ensures forall p :: p in Projection(ms, a) ==> IsHeapEvent(p) && AddressOf(p) == a
    ensures var s, p := Fold(EMPTY, ms), Projection(ms, a);
            && (a in s.strays <==> HasStrayFree(p))
            && (a in s.open <==> p != [] && Last(p).Malloc?)
            && (a in s.open ==> Survivor(p) == Malloc(s.open[a]))
  {
    ReallocFreeIsDefined(EMPTY, ms);
    if ms != [] {
      AddressFollowsProjection(Init(ms), a);
      assert Fold(EMPTY, ms) == Step(Fold(EMPTY, Init(ms)), Last(ms));
      var before, last := Projection(Init(ms), a), Last(ms);
      assert last in ms;
      if AddressOf(last) == a {
        ProjectionGrows(before, last);
        assert before != [] ==> Last(before) in before;
      }
    }
  }

  /** An address is in the final report exactly when its own requests start with MALLOC, end with
      MALLOC and never show two FREEs in a row; the record reported is the survivor's. */
  lemma ReportedIffSurvives(ms: seq<Request>, a: Address)
    requires HeapEvents(ms)
    ensures Defined(EMPTY, ms)
    ensures a in Reconcile(Fold(EMPTY, ms)).open <==> Survives(Projection(ms, a))
    ensures Survives(Projection(ms, a)) ==>
              Malloc(Reconcile(Fold(EMPTY, ms)).open[a]) == Survivor(Projection(ms, a))
  {
    AddressFollowsProjection(ms, a);
    var p := Projection(ms, a);
    assert forall i :: 0 <= i < |p| ==> p[i] in p;
    if p != [] && p[0].Malloc? && !HasStrayFree(p) {
      assert forall i :: 0 < i < |p| ==> !(p[i - 1].Free? && p[i].Free?);
    }
    if p != [] && p[0].Free? {
      assert HasStrayFree(p);
    }
  }

  // ----- intermediate snapshots -----

  predicate IsQuery(r: Request) {
    r.Snapshot? || r.Stats?
  }

  /** The stream with every SNAPSHOT and STATS deleted. */
  function Updates(ms: seq<Request>): seq<Request> {
    if ms == [] then []
    else if IsQuery(Last(ms)) then Updates(Init(ms))
    else Updates(Init(ms)) + [Last(ms)]
  }

  lemma UpdatesOneMore(ms: seq<Request>, r: Request)
    ensures Updates(ms + [r]) == Updates(ms) + (if IsQuery(r) then [] else [r])
    ensures Updates([]) == []
  {
    assert Init(ms + [r]) == ms && Last(ms + [r]) == r;
  }

  lemma {:induction false} UpdatesAreReallocFree(ms: seq<Request>)
    requires forall m :: m in ms ==> !m.Realloc?
    ensures forall m :: m in Updates(ms) ==> !m.Realloc?
  {
    if ms != [] {
      assert Last(ms) in ms;
      UpdatesAreReallocFree(Init(ms));
    }
  }

  /** The same except for map entries that are strays, and for the free counters. */
  ghost predicate Agree(s: State, t: State) {
    && s.strays == t.strays && s.mallocs == t.mallocs && s.reallocs == t.reallocs
    && s.bytesAllocated == t.bytesAllocated
    && Without(s.open, s.strays) == Without(t.open, t.strays)
  }

  lemma AgreementAt(s: State, t: State, a: Address)
    requires Agree(s, t) && a !in s.strays
    ensures a in s.open <==> a in t.open
    ensures a in s.open ==> s.open[a] == t.open[a]
  {
    assert a in Without(s.open, s.strays) <==> a in Without(t.open, t.strays);
  }

  lemma QueryKeepsAgreement(s: State, t: State, r: Request)
    requires Agree(s, t) && IsQuery(r)
    ensures Agree(Step(s, r), t)
  {
    hide TotalSize;
    assert Without(Without(s.open, s.strays), s.strays) == Without(s.open, s.strays);
  }

  /** Agreement from what `AgreementAt` gives for every address that is not a stray. */
  lemma AgreementFrom(s: State, t: State)
    requires s.strays == t.strays && s.mallocs == t.mallocs && s.reallocs == t.reallocs
    requires s.bytesAllocated == t.bytesAllocated
    requires forall a :: a !in s.strays ==> (a in s.open <==> a in t.open)
    requires forall a :: a !in s.strays && a in s.open ==> s.open[a] == t.open[a]
    ensures Agree(s, t)
  {
  }

  lemma EventKeepsAgreement(s: State, t: State, r: Request)
    requires Agree(s, t) && IsHeapEvent(r)
    ensures Agree(Step(s, r), Step(t, r))
  {
    forall a | a !in s.strays {
      AgreementAt(s, t, a);
    }
    hide TotalSize, Without, Agree;
    if r.Malloc? {
      AgreementFrom(Step(s, r), Step(t, r));
    } else {
      FreeKeepsStrays(s, t, r.block);
      AgreementFrom(Step(s, r), Step(t, r));
    }
  }

  lemma FreeKeepsStrays(s: State, t: State, block: Address)
    requires s.strays == t.strays && (block !in s.strays ==> (block in s.open <==> block in t.open))
    ensures Step(s, Free(block)).strays == Step(t, Free(block)).strays
  {
    hide TotalSize, Without;
  }

  /** A REALLOC away from an address that has not strayed. */
  lemma ReallocKeepsAgreement(s: State, t: State, r: Request)
    requires Agree(s, t) && r.Realloc? && r.original !in s.strays && Handles(t, r)
    ensures Handles(s, r) && Agree(Step(s, r), Step(t, r))
  {
    forall a | a !in s.strays {
      AgreementAt(s, t, a);
    }
    var prior := t.open[r.original];
    var record := AllocationRecord(r.newSize, r.moved, prior.txnId, prior.stackTail);
    assert s.open[r.original] == prior;
    hide TotalSize, Without, Agree, Emplace;
    EmplaceAt(s.open - {r.original}, r.moved, record);
    EmplaceAt(t.open - {r.original}, r.moved, record);
    AgreementFrom(Step(s, r), Step(t, r));
  }

  lemma EmplaceAt(m: OpenMap, key: Address, value: AllocationRecord)
    ensures forall a :: a in Emplace(m, key, value) <==> a == key || a in m
    ensures forall a :: a in m ==> Emplace(m, key, value)[a] == m[a]
    ensures key !in m ==> Emplace(m, key, value)[key] == value
  {
  }

  lemma StepKeepsAgreement(s: State, t: State, r: Request)
    requires Agree(s, t)
    requires r.Realloc? ==> r.original !in s.strays && Handles(t, r)
    ensures IsQuery(r) ==> Agree(Step(s, r), t)
    ensures !IsQuery(r) ==> Handles(s, r) && Agree(Step(s, r), Step(t, r))
  {
    if IsQuery(r) {
      QueryKeepsAgreement(s, t, r);
    } else if IsHeapEvent(r) {
      EventKeepsAgreement(s, t, r);
    } else if r.Realloc? {
      ReallocKeepsAgreement(s, t, r);
    }
  }

  /** No REALLOC of the stream is about an address that has strayed by then. */
  ghost predicate SparesStrays(s: State, ms: seq<Request>)
    requires Defined(s, ms)
  {
    ms == [] || (
      && SparesStrays(s, Init(ms))
      && (Last(ms).Realloc? ==> Last(ms).original !in Fold(s, Init(ms)).strays))
  }

  lemma {:induction false} ReallocFreeSpares(s: State, ms: seq<Request>)
    requires forall m :: m in ms ==> !m.Realloc?
    ensures Defined(s, ms) && SparesStrays(s, ms)
  {
    ReallocFreeIsDefined(s, ms);
    if ms != [] {
      assert Last(ms) in ms;
      ReallocFreeSpares(s, Init(ms));
    }
  }

  lemma {:induction false} QueriesAreTransparent(s: State, ms: seq<Request>)
    requires Defined(s, Updates(ms)) && SparesStrays(s, Updates(ms))
    ensures Defined(s, ms) && Agree(Fold(s, ms), Fold(s, Updates(ms)))
  {
    if ms != [] {
      var zs, r := Init(ms), Last(ms);
      if !IsQuery(r) {
        assert Init(Updates(ms)) == Updates(zs) && Last(Updates(ms)) == r;
      }
      QueriesAreTransparent(s, zs);
      StepKeepsAgreement(Fold(s, zs), Fold(s, Updates(zs)), r);
    }
  }

  /** What a report shows but for the free counters. */
  ghost predicate SameReport(x: State, y: State) {
    && x.open == y.open && x.strays == y.strays && x.mallocs == y.mallocs && x.reallocs == y.reallocs
    && x.bytesAllocated == y.bytesAllocated
  }

  /** Two streams that differ only in where SNAPSHOT and STATS requests were put end in the same report, the
      same open allocations and allocation totals, when no REALLOC is about a stray. */
  lemma SnapshotsDoNotChangeTheReport(ms: seq<Request>, ns: seq<Request>)
    requires Updates(ms) == Updates(ns)
    requires Defined(EMPTY, Updates(ms)) && SparesStrays(EMPTY, Updates(ms))
    ensures Defined(EMPTY, ms) && Defined(EMPTY, ns)
    ensures SameReport(Reconcile(Fold(EMPTY, ms)), Reconcile(Fold(EMPTY, ns)))
  {
    QueriesAreTransparent(EMPTY, ms);
    QueriesAreTransparent(EMPTY, ns);
    hide Fold, Defined, SparesStrays, Updates, TotalSize;
  }

  /** ... so always for streams without REALLOC. */
  lemma ExtraSnapshotsDoNotChangeTheReport(ms: seq<Request>, ns: seq<Request>)
    requires forall m :: m in ms ==> !m.Realloc?
    requires forall n :: n in ns ==> !n.Realloc?
    requires Updates(ms) == Updates(ns)
    ensures Defined(EMPTY, ms) && Defined(EMPTY, ns)
    ensures SameReport(Reconcile(Fold(EMPTY, ms)), Reconcile(Fold(EMPTY, ns)))
  {
    UpdatesAreReallocFree(ms);
    ReallocFreeSpares(EMPTY, Updates(ms));
    SnapshotsDoNotChangeTheReport(ms, ns);
  }

  // ----- exactly when snapshots are harmless -----

  lemma {:induction false} UpdatesConcat(xs: seq<Request>, ys: seq<Request>)
    ensures Updates(xs + ys) == Updates(xs) + Updates(ys)
    decreases |ys|
  {
    if ys == [] {
      assert xs + ys == xs;
    } else {
      assert Init(xs + ys) == xs + Init(ys) && Last(xs + ys) == Last(ys);
      UpdatesConcat(xs, Init(ys));
    }
  }

  lemma {:induction false} UpdatesOfUpdates(us: seq<Request>)
    requires forall i :: 0 <= i < |us| ==> !IsQuery(us[i])
    ensures Updates(us) == us
  {
    hide Updates, IsQuery;
    if us == [] {
      UpdatesOneMore([], Snapshot(0));
    } else {
      UpdatesOfUpdates(Init(us));
      UpdatesOneMore(Init(us), us[|us| - 1]);
      assert us == Init(us) + [us[|us| - 1]];
    }
  }

  /** A stray's REALLOC, and the requests before and after it. */
  lemma {:induction false} StrayRealloc(us: seq<Request>) returns (before: seq<Request>, r: Request, rest: seq<Request>)
    requires Defined(EMPTY, us) && !SparesStrays(EMPTY, us)
    ensures us == before + [r] + rest && Defined(EMPTY, before)
    ensures r.Realloc? && r.original in Fold(EMPTY, before).strays
  {
    if SparesStrays(EMPTY, Init(us)) {
      before, r, rest := Init(us), Last(us), [];
    } else {
      before, r, rest := StrayRealloc(Init(us));
      rest := rest + [Last(us)];
    }
  }

  /** A SNAPSHOT right before it removes the record that it needs. */
  lemma SnapshotBreaksRealloc(before: seq<Request>, r: Request, rest: seq<Request>)
    requires Defined(EMPTY, before) && r.Realloc? && r.original in Fold(EMPTY, before).strays
    ensures !Defined(EMPTY, before + [Snapshot(0)] + [r] + rest)
  {
    var ms := before + [Snapshot(0)];
    FoldSnoc(EMPTY, before, Snapshot(0));
    assert !Handles(Fold(EMPTY, ms), r);
    assert Init(ms + [r]) == ms && Last(ms + [r]) == r;
    if Defined(EMPTY, ms + [r] + rest) {
      DefinedPrefix(EMPTY, ms + [r], rest);
    }
  }

  /** However SNAPSHOT and STATS requests are put between them, the heap requests `us` can be handled and end
      in one and the same report. */
  ghost predicate SnapshotsAreHarmless(us: seq<Request>) {
    forall ms :: Updates(ms) == us ==>
      && Defined(EMPTY, ms) && Defined(EMPTY, us)
      && SameReport(Reconcile(Fold(EMPTY, ms)), Reconcile(Fold(EMPTY, us)))
  }

  lemma HarmlessWhenSpared(us: seq<Request>)
    requires Updates(us) == us && Defined(EMPTY, us) && SparesStrays(EMPTY, us)
    ensures SnapshotsAreHarmless(us)
  {
    hide Defined, Fold, Updates, SparesStrays, SameReport, Reconcile;
    forall ms | Updates(ms) == us
      ensures Defined(EMPTY, ms) && SameReport(Reconcile(Fold(EMPTY, ms)), Reconcile(Fold(EMPTY, us)))
    {
      SnapshotsDoNotChangeTheReport(ms, us);
    }
  }

  lemma HarmlessIsDefined(us: seq<Request>, ms: seq<Request>)
    requires SnapshotsAreHarmless(us) && Updates(ms) == us
    ensures Defined(EMPTY, ms)
  {
    hide Defined, Fold, Updates, SameReport, Reconcile;
  }

  lemma SparedWhenHarmless(us: seq<Request>)
    requires Updates(us) == us && SnapshotsAreHarmless(us)
    ensures Defined(EMPTY, us) && SparesStrays(EMPTY, us)
  {
    hide *;
    HarmlessIsDefined(us, us);
    if !SparesStrays(EMPTY, us) {
      var before, r, rest := StrayRealloc(us);
      SnapshotBreaksRealloc(before, r, rest);
      SnapshotIsNoUpdate(before, r, rest);
      HarmlessIsDefined(us, before + [Snapshot(0)] + [r] + rest);
    }
  }

  /** That is so if and only if the requests can be handled by themselves and no REALLOC among them is about an
      address that has strayed by then. */
  lemma SnapshotsAreHarmlessIff(us: seq<Request>)
    requires forall i :: 0 <= i < |us| ==> !IsQuery(us[i])
    ensures SnapshotsAreHarmless(us) <==> Defined(EMPTY, us) && SparesStrays(EMPTY, us)
  {
    hide *;
    UpdatesOfUpdates(us);
    if SnapshotsAreHarmless(us) {
      SparedWhenHarmless(us);
    } else if Defined(EMPTY, us) && SparesStrays(EMPTY, us) {
      HarmlessWhenSpared(us);
    }
  }

  lemma SnapshotIsNoUpdate(before: seq<Request>, r: Request, rest: seq<Request>)
    ensures Updates(before + [Snapshot(0)] + [r] + rest) == Updates(before + [r] + rest)
  {
    var q := Snapshot(0);
    UpdatesConcat(before + [q] + [r], rest);
    UpdatesConcat(before + [q], [r]);
    UpdatesConcat(before, [q]);
    UpdatesConcat(before + [r], rest);
    UpdatesConcat(before, [r]);
    assert Init([q]) == [] && Last([q]) == q;
    assert Updates([q]) == Updates([]) == [];
  }
}
