/** The bookkeeping of `HeapWatcherImpl::worker_main` (src/HeapWatcher.cpp:656-789) as a
    transition function on values, and its fold over a stream of requests. Counters are
    mathematical integers here; `Worker` shows how the `uint64_t` fields follow them. */
module Tracker {
  import opened Requests

  type OpenMap = map<Address, AllocationRecord>

  datatype State = State(
    open: OpenMap,
    strays: set<Address>,
    mallocs: nat,
    reallocs: nat,
    frees: int,
    bytesAllocated: int,
    bytesFreed: int)

  const EMPTY := State(map[], {}, 0, 0, 0, 0, 0)

  /** `std::map::emplace`: an occupied key keeps its old value. */
  function Emplace(m: OpenMap, key: Address, value: AllocationRecord): OpenMap {
    if key in m then m else m[key := value]
  }

  // ----- sizes and order of a map's entries -----

  ghost function TotalSize(m: OpenMap): nat
    decreases |m|
  {
    if m == map[] then 0
    else
      var k :| k in m;
      m[k].size + TotalSize(m - {k})
  }

  lemma {:induction false} TotalSizeRemove(m: OpenMap, k: Address)
    requires k in m
    ensures TotalSize(m) == m[k].size + TotalSize(m - {k}) && |m| == |m - {k}| + 1
    decreases |m|
  {
    var j :| j in m && TotalSize(m) == m[j].size + TotalSize(m - {j});
    if j != k {
      TotalSizeRemove(m - {j}, k);
      TotalSizeRemove(m - {k}, j);
      assert m - {j} - {k} == m - {k} - {j};
    }
  }

  lemma TotalSizeAdd(m: OpenMap, k: Address, v: AllocationRecord)
    requires k !in m
    ensures TotalSize(m[k := v]) == TotalSize(m) + v.size
    ensures |m[k := v]| == |m| + 1
  {
    TotalSizeRemove(m[k := v], k);
    assert m[k := v] - {k} == m;
  }

  lemma {:induction false} SmallestExists(s: set<Address>) returns (least: Address)
    requires s != {}
    ensures least in s && forall x :: x in s ==> least <= x
    decreases |s|
  {
    var first :| first in s;
    least := first;
    if s - {first} != {} {
      var other := SmallestExists(s - {first});
      least := if other < first then other else first;
      assert forall x :: x in s ==> x == first || x in s - {first};
    } else {
      assert s == {first};
    }
  }

  ghost function Smallest(m: OpenMap): (k: Address)
    requires m != map[]
    ensures k in m && forall x :: x in m ==> k <= x
  {
    assert exists k :: k in m && forall x :: x in m ==> k <= x by {
      assert m.Keys != {};
      var k := SmallestExists(m.Keys);
    }
    var k :| k in m && forall x :: x in m ==> k <= x;
    k
  }

  /** The records in the order `std::map` iterates them. */
  ghost function Listing(m: OpenMap): seq<AllocationRecord>
    decreases |m|
  {
    if m == map[] then [] else [m[Smallest(m)]] + Listing(m - {Smallest(m)})
  }

  ghost predicate KeyedByAddress(m: OpenMap) {
    forall a :: a in m ==> m[a].address == a
  }

  ghost predicate Ascending(rs: seq<AllocationRecord>) {
    forall i, j :: 0 <= i < j < |rs| ==> rs[i].address < rs[j].address
  }

  lemma {:induction false} ListingHoldsTheEntries(m: OpenMap)
    requires KeyedByAddress(m)
    ensures |Listing(m)| == |m|
    ensures forall r :: r in Listing(m) <==> r.address in m && m[r.address] == r
    decreases |m|
  {
    if m != map[] {
      var k := Smallest(m);
      var rest := Listing(m - {k});
      assert Listing(m) == [m[k]] + rest;
      hide Listing, Smallest;
      ListingHoldsTheEntries(m - {k});
    }
  }

  lemma AscendingCons(r: AllocationRecord, rest: seq<AllocationRecord>)
    requires Ascending(rest) && forall s :: s in rest ==> r.address < s.address
    ensures Ascending([r] + rest)
  {
  }

  lemma {:induction false} ListingAscends(m: OpenMap)
    requires KeyedByAddress(m)
    ensures Ascending(Listing(m))
    decreases |m|
  {
    if m != map[] {
      var k := Smallest(m);
      var rest := Listing(m - {k});
      assert Listing(m) == [m[k]] + rest;
      assert forall x :: x in m - {k} ==> k < x;
      hide Listing, Smallest, Ascending;
      ListingAscends(m - {k});
      ListingHoldsTheEntries(m - {k});
      AscendingCons(m[k], rest);
    }
  }

  /** The vector handed to the caller is strictly ascending by address and holds exactly the map's entries. */
  lemma ListingIsExact(m: OpenMap)
    requires KeyedByAddress(m)
    ensures Ascending(Listing(m)) && |Listing(m)| == |m|
    ensures forall r :: r in Listing(m) <==> r.address in m && m[r.address] == r
  {
    hide *;
    ListingAscends(m);
    ListingHoldsTheEntries(m);
  }

  // ----- one request -----

  /** A REALLOC that finds no record dereferences `end()` (src/HeapWatcher.cpp:704-706), which is
      undefined; every other request is handled in every state. */
  predicate Handles(s: State, r: Request) {
    r.Realloc? ==> r.original in s.open
  }

  ghost function EntriesAt(m: OpenMap, keys: set<Address>): (r: OpenMap)
    ensures forall a :: a in r <==> a in m && a in keys
    ensures forall a :: a in r ==> r[a] == m[a]
  {
    map a | a in m && a in keys :: m[a]
  }

  ghost function Without(m: OpenMap, keys: set<Address>): (r: OpenMap)
    ensures forall a :: a in r <==> a in m && a !in keys
    ensures forall a :: a in r ==> r[a] == m[a]
  {
    map a | a in m && a !in keys :: m[a]
  }

  /** SNAPSHOT: entries that were already freed leave the map and count as freed; the stray set is kept. */
  ghost function Reconcile(s: State): State {
    var kept := Without(s.open, s.strays);
    s.(open := kept,
       frees := s.frees + |s.open| - |kept|,
       bytesFreed := s.bytesFreed + TotalSize(s.open) - TotalSize(kept))
  }

  lemma PartsGrow(m: OpenMap, keys: set<Address>, k: Address)
    requires k in m
    ensures k in keys ==> EntriesAt(m, keys) == EntriesAt(m - {k}, keys)[k := m[k]]
    ensures k in keys ==> Without(m, keys) == Without(m - {k}, keys)
    ensures k !in keys ==> EntriesAt(m, keys) == EntriesAt(m - {k}, keys)
    ensures k !in keys ==> Without(m, keys) == Without(m - {k}, keys)[k := m[k]]
  {
  }

  lemma {:induction false} PartsAddUp(m: OpenMap, keys: set<Address>)
    ensures |m| == |EntriesAt(m, keys)| + |Without(m, keys)|
    ensures TotalSize(m) == TotalSize(EntriesAt(m, keys)) + TotalSize(Without(m, keys))
    decreases |m|
  {
    if m == map[] {
      assert EntriesAt(m, keys) == map[] && Without(m, keys) == map[];
    } else {
      hide TotalSize, EntriesAt, Without;
      var k :| k in m;
      PartsAddUp(m - {k}, keys);
      TotalSizeRemove(m, k);
      PartsGrow(m, keys, k);
      if k in keys {
        TotalSizeAdd(EntriesAt(m - {k}, keys), k, m[k]);
      } else {
        TotalSizeAdd(Without(m - {k}, keys), k, m[k]);
      }
    }
  }

  /** The free counters rise by exactly the entries removed, and a second reconciliation is a no-op. */
  lemma ReconcileCountsWhatItRemoves(s: State)
    ensures Reconcile(s).frees == s.frees + |EntriesAt(s.open, s.strays)|
    ensures Reconcile(s).bytesFreed == s.bytesFreed + TotalSize(EntriesAt(s.open, s.strays))
    ensures Reconcile(Reconcile(s)) == Reconcile(s)
  {
    PartsAddUp(s.open, s.strays);
    assert Without(Without(s.open, s.strays), s.strays) == Without(s.open, s.strays);
  }

  lemma NothingToReconcile(s: State)
    requires s.strays == {}
    ensures Reconcile(s) == s
  {
    assert Without(s.open, s.strays) == s.open;
  }

  ghost function Step(s: State, r: Request): State
    requires Handles(s, r)
  {
    match r
    case Malloc(record) =>
      s.(mallocs := s.mallocs + 1,
         bytesAllocated := s.bytesAllocated + record.size,
         open := Emplace(s.open, record.address, record))
    case Realloc(original, moved, newSize) =>
      var prior := s.open[original];
      s.(reallocs := s.reallocs + 1,
         bytesAllocated := s.bytesAllocated - prior.size + newSize,
         open := Emplace(s.open - {original}, moved,
                         AllocationRecord(newSize, moved, prior.txnId, prior.stackTail)))
    case Free(block) =>
      if block in s.open then
        s.(frees := s.frees + 1, bytesFreed := s.bytesFreed + s.open[block].size, open := s.open - {block})
      else
        s.(strays := s.strays + {block})
    case Clear(_) => EMPTY
    case Snapshot(_) => Reconcile(s)
    case Stats(_) => s
    case Uninitialized => s
  }

  function StatisticsOf(s: State): Statistics {
    Statistics(Wrap(s.mallocs), Wrap(s.reallocs), Wrap(s.frees), Wrap(s.bytesAllocated), Wrap(s.bytesFreed))
  }

  /** The promises one request settles. */
  ghost function RepliesTo(s: State, r: Request): seq<Reply> {
    match r
    case Clear(c) => [Cleared(c)]
    case Snapshot(c) => [Reported(c, StatisticsOf(Reconcile(s)), Listing(Reconcile(s).open))]
    case Stats(c) => [Counted(c, StatisticsOf(s))]
    case _ => []
  }

  // ----- a stream of requests -----

  function Init<T>(ms: seq<T>): seq<T>
    requires ms != []
  {
    ms[..|ms| - 1]
  }

  function Last<T>(ms: seq<T>): T
    requires ms != []
  {
    ms[|ms| - 1]
  }

  /** Every REALLOC of the stream finds its original address. */
  ghost predicate Defined(s: State, ms: seq<Request>)
    decreases |ms|, 0
  {
    ms == [] || (Defined(s, Init(ms)) && Handles(Fold(s, Init(ms)), Last(ms)))
  }

  ghost function Fold(s: State, ms: seq<Request>): State
    requires Defined(s, ms)
    decreases |ms|, 1
  {
    if ms == [] then s else Step(Fold(s, Init(ms)), Last(ms))
  }

  ghost function Replies(s: State, ms: seq<Request>): seq<Reply>
    requires Defined(s, ms)
  {
    if ms == [] then [] else Replies(s, Init(ms)) + RepliesTo(Fold(s, Init(ms)), Last(ms))
  }

  lemma FoldSnoc(s: State, ms: seq<Request>, r: Request)
    requires Defined(s, ms) && Handles(Fold(s, ms), r)
    ensures Defined(s, ms + [r])
    ensures Fold(s, ms + [r]) == Step(Fold(s, ms), r)
    ensures Replies(s, ms + [r]) == Replies(s, ms) + RepliesTo(Fold(s, ms), r)
  {
    assert Init(ms + [r]) == ms && Last(ms + [r]) == r;
  }

  /** Splitting the stream anywhere does not change what is computed. */
  lemma {:induction false} FoldConcat(s: State, xs: seq<Request>, ys: seq<Request>)
    requires Defined(s, xs) && Defined(Fold(s, xs), ys)
    ensures Defined(s, xs + ys) && Fold(s, xs + ys) == Fold(Fold(s, xs), ys)
    decreases |ys|
  {
    hide Step;
    if ys == [] {
      assert xs + ys == xs;
    } else {
      FoldConcat(s, xs, Init(ys));
      assert Init(xs + ys) == xs + Init(ys) && Last(xs + ys) == Last(ys);
    }
  }

  lemma {:induction false} RepliesConcat(s: State, xs: seq<Request>, ys: seq<Request>)
    requires Defined(s, xs) && Defined(Fold(s, xs), ys)
    ensures Defined(s, xs + ys)
    ensures Replies(s, xs + ys) == Replies(s, xs) + Replies(Fold(s, xs), ys)
    decreases |ys|
  {
    hide Step, RepliesTo;
    FoldConcat(s, xs, ys);
    if ys == [] {
      assert xs + ys == xs;
    } else {
      var zs, r := Init(ys), Last(ys);
      RepliesConcat(s, xs, zs);
      FoldConcat(s, xs, zs);
      FoldSnoc(s, xs + zs, r);
      FoldSnoc(Fold(s, xs), zs, r);
      assert zs + [r] == ys && xs + zs + [r] == xs + ys;
    }
  }

  /** The callers of a stream's commands, in order, and the callers whose promises were settled. */
  function CallersOf(ms: seq<Request>): seq<nat> {
    if ms == [] then []
    else CallersOf(Init(ms)) + (if Last(ms).IsCommand() then [Last(ms).caller] else [])
  }

  function Answered(replies: seq<Reply>): seq<nat> {
    if replies == [] then [] else Answered(Init(replies)) + [Last(replies).caller]
  }

  /** Each command is answered exactly once, in order, and nobody else is. */
  lemma {:induction false} EachCommandIsAnsweredOnce(s: State, ms: seq<Request>)
    requires Defined(s, ms)
    ensures Answered(Replies(s, ms)) == CallersOf(ms)
  {
    if ms != [] {
      var before, now := Replies(s, Init(ms)), RepliesTo(Fold(s, Init(ms)), Last(ms));
      EachCommandIsAnsweredOnce(s, Init(ms));
      assert Replies(s, ms) == before + now;
      assert |now| == if Last(ms).IsCommand() then 1 else 0;
      hide Replies, RepliesTo, Fold, Defined, Step;
      if Last(ms).IsCommand() {
        assert now[0].caller == Last(ms).caller;
        assert Init(before + now) == before;
      } else {
        assert before + now == before;
      }
    }
  }

  lemma {:induction false} DefinedPrefix(s: State, xs: seq<Request>, ys: seq<Request>)
    requires Defined(s, xs + ys)
    ensures Defined(s, xs) && Defined(Fold(s, xs), ys)
    ensures Fold(s, xs + ys) == Fold(Fold(s, xs), ys)
    decreases |ys|
  {
    hide Step;
    if ys == [] {
      assert xs + ys == xs;
    } else {
      assert Init(xs + ys) == xs + Init(ys) && Last(xs + ys) == Last(ys);
      DefinedPrefix(s, xs, Init(ys));
    }
  }

  lemma {:induction false} ReallocFreeIsDefined(s: State, ms: seq<Request>)
    requires forall m :: m in ms ==> !m.Realloc?
    ensures Defined(s, ms)
    decreases |ms|
  {
    if ms != [] {
      ReallocFreeIsDefined(s, Init(ms));
      assert Last(ms) in ms;
    }
  }
}
