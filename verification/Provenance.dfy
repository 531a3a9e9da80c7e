/** Where a reported record comes from: every entry of the map traces back through REALLOCs to one
    MALLOC (src/HeapWatcher.cpp:674-700, include/HeapWatcher.hpp:108-121, src/WorkerRequest.hpp:10-14). */
module Provenance {
  import opened Requests
  import opened Tracker
  import opened Counting
  import opened Holdings
  import Ledger

  // ----- transaction ids -----

  /** The constructors of `AllocationRecord` take the id as a `uint32_t`. */
  function Narrow(id: nat): nat {
    id % UINT32_RANGE
  }

  /** The id handed out by call number `k`, counted from 0: the counter starts at 1 and wraps. */
  function IdAt(k: nat): uint64 {
    Wrap(1 + k)
  }

  /** `get_txn_id` and the factory of MALLOC requests, with the ids handed out so far. */
  class TxnCounter {
    var next: uint64
    ghost var issued: seq<uint64>

    ghost predicate Valid()
      reads this
    {
      next == IdAt(|issued|) && forall k :: 0 <= k < |issued| ==> issued[k] == IdAt(k)
    }

    constructor ()
      ensures Valid() && issued == []
    {
      next, issued := 1, [];
    }

    method FetchAdd() returns (id: uint64)
      requires Valid()
      modifies this
      ensures Valid() && issued == old(issued) + [id]
    {
      id := next;
      WrapAbsorbs(1 + |issued|, 1);
      next := Wrap(next + 1);
      issued := issued + [id];
    }

    method MallocRequest(size: nat, address: Address, stackTail: seq<Address>) returns (r: Request)
      requires Valid()
      modifies this
      ensures Valid() && |issued| == |old(issued)| + 1
      ensures r == Malloc(AllocationRecord(size, address, Narrow(IdAt(|old(issued)|)), stackTail))
    {
      var id := FetchAdd();
      assert issued[|old(issued)|] == id;
      r := Malloc(AllocationRecord(size, address, Narrow(id), stackTail));
    }
  }

  lemma NarrowedIdIs(k: nat)
    ensures Narrow(IdAt(k)) == (1 + k) % UINT32_RANGE
  {
    WrapIsRemainder(1 + k);
    var q := (1 + k) / UINT64_RANGE;
    assert 1 + k == q * UINT64_RANGE + (1 + k) % UINT64_RANGE;
    RemainderOfRemainder((1 + k) % UINT64_RANGE, q * UINT32_RANGE);
    assert q * UINT64_RANGE == (q * UINT32_RANGE) * UINT32_RANGE;
  }

  lemma {:induction false} RemainderOfRemainder(x: nat, turns: nat)
    ensures (turns * UINT32_RANGE + x) % UINT32_RANGE == x % UINT32_RANGE
  {
    if turns > 0 {
      RemainderOfRemainder(x, turns - 1);
      assert turns * UINT32_RANGE + x == ((turns - 1) * UINT32_RANGE + x) + UINT32_RANGE;
    }
  }

  ghost predicate ApartAfterNarrowing(first: nat, n: nat) {
    forall i, j :: first <= i < j < first + n ==> Narrow(IdAt(i)) != Narrow(IdAt(j))
  }

  lemma CloseIdsStayApart(i: nat, j: nat)
    requires i < j < i + UINT32_RANGE
    ensures Narrow(IdAt(i)) != Narrow(IdAt(j))
  {
    NarrowedIdIs(i);
    NarrowedIdIs(j);
    hide Narrow, IdAt;
  }

  lemma IdsComeBack(i: nat)
    ensures Narrow(IdAt(i)) == Narrow(IdAt(i + UINT32_RANGE))
  {
    NarrowedIdIs(i);
    NarrowedIdIs(i + UINT32_RANGE);
    RemainderOfRemainder(1 + i, 1);
    hide Narrow, IdAt;
    assert 1 + (i + UINT32_RANGE) == 1 * UINT32_RANGE + (1 + i);
  }

  /** `n` calls in a row hand out ids that stay apart in their records if and only if n is at most 2^32. */
  lemma IssuedIdsStayApartIff(first: nat, n: nat)
    ensures ApartAfterNarrowing(first, n) <==> n <= UINT32_RANGE
  {
    hide Narrow, IdAt;
    if n <= UINT32_RANGE {
      forall i, j | first <= i < j < first + n
        ensures Narrow(IdAt(i)) != Narrow(IdAt(j))
      {
        CloseIdsStayApart(i, j);
      }
    } else {
      IdsComeBack(first);
      assert first <= first < first + UINT32_RANGE < first + n;
    }
  }

  ghost predicate DistinctTxns(ms: seq<Request>) {
    forall i, j :: 0 <= i < j < |ms| && ms[i].Malloc? && ms[j].Malloc? ==> ms[i].record.txnId != ms[j].record.txnId
  }

  /** Each MALLOC of the stream was made by its own call of the factory, among `n` calls in a row. */
  ghost predicate MadeByCalls(ms: seq<Request>, calls: seq<nat>, first: nat, n: nat) {
    && |calls| == |ms|
    && (forall i :: 0 <= i < |ms| && ms[i].Malloc? ==>
          first <= calls[i] < first + n && ms[i].record.txnId == Narrow(IdAt(calls[i])))
    && (forall i, j :: 0 <= i < j < |ms| && ms[i].Malloc? && ms[j].Malloc? ==> calls[i] != calls[j])
  }

  lemma MadeTxnsAreDistinct(ms: seq<Request>, calls: seq<nat>, first: nat, n: nat)
    requires MadeByCalls(ms, calls, first, n) && n <= UINT32_RANGE
    ensures DistinctTxns(ms)
  {
    IssuedIdsStayApartIff(first, n);
    forall i, j | 0 <= i < j < |ms| && ms[i].Malloc? && ms[j].Malloc?
      ensures ms[i].record.txnId != ms[j].record.txnId
    {
      assert if calls[i] < calls[j] then Narrow(IdAt(calls[i])) != Narrow(IdAt(calls[j]))
             else Narrow(IdAt(calls[j])) != Narrow(IdAt(calls[i]));
    }
  }

  // ----- chains -----

  /** Where a MALLOC or REALLOC puts its block. */
  function Target(r: Request): Address
    requires r.Malloc? || r.Realloc?
  {
    if r.Malloc? then r.record.address else r.moved
  }

  /** The positions of a MALLOC and of the REALLOCs that moved its block on, ending at `a`. */
  ghost predicate IsChain(ms: seq<Request>, chain: seq<nat>, a: Address) {
    && chain != []
    && (forall i :: 0 <= i < |chain| ==> chain[i] < |ms| && (ms[chain[i]].Malloc? || ms[chain[i]].Realloc?))
    && ms[chain[0]].Malloc?
    && (forall i :: 0 < i < |chain| ==> chain[i - 1] < chain[i])
    && (forall i :: 0 < i < |chain| ==>
          ms[chain[i]].Realloc? && ms[chain[i]].original == Target(ms[chain[i - 1]]))
    && Target(ms[Last(chain)]) == a
  }

  /** `emplace` does not drop the record of the request at `i`: its new address was free. */
  ghost predicate Lands(ms: seq<Request>, i: nat)
    requires i < |ms| && (ms[i].Malloc? || ms[i].Realloc?)
  {
    (ms[i].Realloc? && ms[i].original == ms[i].moved) || !Holds(ms[..i], Target(ms[i]))
  }

  /** From after the request at `from` up to position `to` the block at `a` is held throughout, and no
      request releases it or clears the map. */
  ghost predicate Stays(ms: seq<Request>, from: nat, to: nat, a: Address) {
    && to <= |ms|
    && (forall k :: from < k < to ==> !Releases(ms[k], a) && !ms[k].Clear?)
    && (forall k :: from < k <= to ==> Holds(ms[..k], a))
  }

  /** Every link takes effect, and each block stays until the next link takes it on. */
  ghost predicate LinksHold(ms: seq<Request>, chain: seq<nat>) {
    && (forall i :: 0 <= i < |chain| ==> chain[i] < |ms| && (ms[chain[i]].Malloc? || ms[chain[i]].Realloc?))
    && (forall i :: 0 <= i < |chain| ==> Lands(ms, chain[i]))
    && (forall i :: 0 < i < |chain| ==> Stays(ms, chain[i - 1], chain[i], Target(ms[chain[i - 1]])))
  }

  /** An unbroken chain, the last block of which stays until the end. */
  ghost predicate Kept(ms: seq<Request>, chain: seq<nat>, a: Address) {
    IsChain(ms, chain, a) && LinksHold(ms, chain) && Stays(ms, Last(chain), |ms|, a)
  }

  /** The MALLOC's record, but for the address and size, which are the newest. */
  function RecordOf(ms: seq<Request>, chain: seq<nat>, a: Address): AllocationRecord
    requires chain != [] && chain[0] < |ms| && ms[chain[0]].Malloc? && Last(chain) < |ms|
  {
    var first := ms[chain[0]].record;
    AllocationRecord(Ledger.SizeOf(ms[Last(chain)]), a, first.txnId, first.stackTail)
  }

  /** What lies before a position does not depend on what follows it. */
  lemma PrefixesAgree(ms: seq<Request>, r: Request)
    ensures forall k :: 0 <= k <= |ms| ==> (ms + [r])[..k] == ms[..k]
    ensures forall k :: 0 <= k < |ms| ==> (ms + [r])[k] == ms[k]
  {
  }

  lemma LinksStay(ms: seq<Request>, r: Request, chain: seq<nat>, a: Address)
    requires Kept(ms, chain, a)
    ensures IsChain(ms + [r], chain, a) && LinksHold(ms + [r], chain)
    ensures Stays(ms + [r], Last(chain), |ms|, a)
    ensures RecordOf(ms + [r], chain, a) == RecordOf(ms, chain, a)
  {
    hide Holds;
    PrefixesAgree(ms, r);
  }

  lemma KeptLonger(ms: seq<Request>, chain: seq<nat>, a: Address, r: Request)
    requires Kept(ms, chain, a) && !Releases(r, a) && !r.Clear? && Holds(ms + [r], a)
    ensures Kept(ms + [r], chain, a) && RecordOf(ms + [r], chain, a) == RecordOf(ms, chain, a)
  {
    hide Holds, IsChain, LinksHold, Releases;
    LinksStay(ms, r, chain, a);
    var longer := ms + [r];
    assert longer[..|longer|] == longer && longer[|ms|] == r;
  }

  lemma ChainMoves(ms: seq<Request>, chain: seq<nat>, a: Address, r: Request)
    requires IsChain(ms, chain, a) && r.Realloc? && r.original == a
    ensures IsChain(ms + [r], chain + [|ms|], r.moved)
  {
    var longer, more := ms + [r], chain + [|ms|];
    PrefixesAgree(ms, r);
    assert longer[|ms|] == r && Last(more) == |ms|;
    assert forall i :: 0 <= i < |chain| ==> more[i] == chain[i];
  }

  lemma LinksHoldOneMore(ms: seq<Request>, chain: seq<nat>, n: nat)
    requires LinksHold(ms, chain) && chain != [] && n < |ms| && ms[n].Realloc? && Lands(ms, n)
    requires Stays(ms, Last(chain), n, Target(ms[Last(chain)]))
    ensures LinksHold(ms, chain + [n])
  {
    hide Stays, Lands;
    var more := chain + [n];
    assert forall i :: 0 <= i < |chain| ==> more[i] == chain[i];
    forall i | 0 < i < |more|
      ensures Stays(ms, more[i - 1], more[i], Target(ms[more[i - 1]]))
    {
      if i == |chain| {
        assert more[i - 1] == Last(chain) && more[i] == n;
      }
    }
  }

  lemma RecordMoved(ms: seq<Request>, chain: seq<nat>, a: Address, r: Request)
    requires IsChain(ms, chain, a) && r.Realloc?
    ensures IsChain(ms + [r], chain + [|ms|], r.moved) ==>
              RecordOf(ms + [r], chain + [|ms|], r.moved)
              == AllocationRecord(r.newSize, r.moved, RecordOf(ms, chain, a).txnId, RecordOf(ms, chain, a).stackTail)
  {
    assert (chain + [|ms|])[0] == chain[0] && (ms + [r])[chain[0]] == ms[chain[0]];
    assert Last(chain + [|ms|]) == |ms| && (ms + [r])[|ms|] == r;
  }

  lemma KeptMoved(ms: seq<Request>, chain: seq<nat>, a: Address, r: Request)
    requires Kept(ms, chain, a) && r.Realloc? && r.original == a
    requires r.moved != a ==> !Holds(ms, r.moved)
    requires Holds(ms + [r], r.moved)
    ensures Kept(ms + [r], chain + [|ms|], r.moved)
    ensures RecordOf(ms + [r], chain + [|ms|], r.moved)
         == AllocationRecord(r.newSize, r.moved, RecordOf(ms, chain, a).txnId, RecordOf(ms, chain, a).stackTail)
  {
    var longer := ms + [r];
    ChainMoves(ms, chain, a, r);
    RecordMoved(ms, chain, a, r);
    LinksStay(ms, r, chain, a);
    assert longer[..|ms|] == ms && longer[|ms|] == r && Last(chain + [|ms|]) == |ms|;
    assert Lands(longer, |ms|);
    NewLinkStays(longer, |ms|, r.moved);
    hide Holds, Releases, Stays, Lands, RecordOf, LinksHold;
    LinksHoldOneMore(longer, chain, |ms|);
  }

  lemma NewLinkStays(ms: seq<Request>, i: nat, a: Address)
    requires |ms| == i + 1 && Holds(ms, a)
    ensures Stays(ms, i, |ms|, a)
  {
    assert ms[..|ms|] == ms;
  }

  lemma NewChainIsKept(ms: seq<Request>, r: Request)
    requires r.Malloc? && !Holds(ms, r.record.address) && Holds(ms + [r], r.record.address)
    ensures Kept(ms + [r], [|ms|], r.record.address)
    ensures RecordOf(ms + [r], [|ms|], r.record.address) == r.record
  {
    hide Holds;
    assert (ms + [r])[..|ms|] == ms && (ms + [r])[|ms|] == r;
    NewLinkStays(ms + [r], |ms|, r.record.address);
  }

  /** Does the step put a record at `a` that was not there? */
  ghost predicate MovesTo(s: State, r: Request, a: Address) {
    r.Realloc? && a == r.moved && a !in s.open - {r.original}
  }

  ghost predicate BringsTo(s: State, r: Request, a: Address) {
    r.Malloc? && a == r.record.address && a !in s.open
  }

  lemma RecordAfterStep(s: State, r: Request, a: Address)
    requires Handles(s, r) && a in Step(s, r).open
    ensures MovesTo(s, r, a) ==>
              && r.original in s.open && (r.moved != r.original ==> r.moved !in s.open)
              && Step(s, r).open[a]
              == AllocationRecord(r.newSize, r.moved, s.open[r.original].txnId, s.open[r.original].stackTail)
    ensures BringsTo(s, r, a) ==> Step(s, r).open[a] == r.record
    ensures !MovesTo(s, r, a) && !BringsTo(s, r, a) ==>
              a in s.open && Step(s, r).open[a] == s.open[a] && !Releases(r, a) && !r.Clear?
  {
    hide TotalSize;
  }

  /** Every record in the map, after any stream, is the one of an unbroken chain. */
  lemma {:induction false} EveryRecordHasAChain(ms: seq<Request>, a: Address) returns (chain: seq<nat>)
    requires Defined(EMPTY, ms) && a in Fold(EMPTY, ms).open
    ensures Kept(ms, chain, a) && Fold(EMPTY, ms).open[a] == RecordOf(ms, chain, a)
  {
    var zs, r := Init(ms), Last(ms);
    var s := Fold(EMPTY, zs);
    assert ms == zs + [r] && Fold(EMPTY, ms) == Step(s, r) && Handles(s, r);
    OpenIffHolds(ms, a);
    OpenIffHolds(zs, a);
    hide Fold, Defined, Holds, Kept, RecordOf, Step, Handles, Releases;
    RecordAfterStep(s, r, a);
    if MovesTo(s, r, a) {
      chain := EveryRecordHasAChain(zs, r.original);
      KeptMoved(zs, chain, r.original, r);
      chain := chain + [|zs|];
    } else if BringsTo(s, r, a) {
      NewChainIsKept(zs, r);
      chain := [|zs|];
    } else {
      chain := EveryRecordHasAChain(zs, a);
      KeptLonger(zs, chain, a, r);
    }
  }

  // ----- only one chain -----

  /** No request can take effect at an address that is held without releasing it. */
  lemma NothingLandsOnKept(ms: seq<Request>, i: nat, j: nat, a: Address)
    requires i < j < |ms| && Stays(ms, i, |ms|, a)
    requires (ms[j].Malloc? || ms[j].Realloc?) && Target(ms[j]) == a
    ensures !Lands(ms, j)
  {
    hide Holds;
    assert Holds(ms[..j], a) && !Releases(ms[j], a);
  }

  lemma {:induction false} ChainAscends(chain: seq<nat>, i: nat, j: nat)
    requires i < j < |chain| && forall k :: 0 < k < |chain| ==> chain[k - 1] < chain[k]
    ensures chain[i] < chain[j]
  {
    if i < j - 1 {
      ChainAscends(chain, i, j - 1);
    }
  }

  /** What holds of a link holds of it in any prefix that reaches it. */
  lemma LinkInPrefix(ms: seq<Request>, n: nat, i: nat, to: nat, a: Address)
    requires i < to <= n <= |ms| && (ms[i].Malloc? || ms[i].Realloc?)
    ensures ms[..n][i] == ms[i]
    ensures Lands(ms, i) ==> Lands(ms[..n], i)
    ensures Stays(ms, i, to, a) ==> Stays(ms[..n], i, to, a)
  {
    hide Holds, Releases;
    assert forall k :: 0 <= k <= n ==> ms[..n][..k] == ms[..k];
  }

  /** A link but the last, seen from where the last takes over. */
  ghost predicate EarlierLink(ms: seq<Request>, chain: seq<nat>, i: nat) {
    && i + 1 < |chain| && chain[i] < Last(chain) < |ms|
    && ms[..Last(chain)][chain[i]] == ms[chain[i]] && (ms[chain[i]].Malloc? || ms[chain[i]].Realloc?)
    && Lands(ms[..Last(chain)], chain[i])
    && Stays(ms[..Last(chain)], chain[i], chain[i + 1], Target(ms[chain[i]]))
  }

  lemma LinkBeforeLast(ms: seq<Request>, chain: seq<nat>, a: Address, i: nat)
    requires Kept(ms, chain, a) && i + 1 < |chain|
    ensures EarlierLink(ms, chain, i)
  {
    hide Stays, Lands;
    ChainAscends(chain, i, |chain| - 1);
    if i + 1 < |chain| - 1 {
      ChainAscends(chain, i + 1, |chain| - 1);
    }
    assert chain[i + 1 - 1] < chain[i + 1];
    assert Stays(ms, chain[i + 1 - 1], chain[i + 1], Target(ms[chain[i + 1 - 1]]));
    LinkInPrefix(ms, Last(chain), chain[i], chain[i + 1], Target(ms[chain[i]]));
  }

  lemma ChainBeforeLast(ms: seq<Request>, chain: seq<nat>, a: Address)
    requires IsChain(ms, chain, a) && |chain| > 1
    requires forall i :: 0 <= i < |chain| - 1 ==> chain[i] < Last(chain)
    ensures ms[Last(chain)].Realloc?
    ensures IsChain(ms[..Last(chain)], Init(chain), ms[Last(chain)].original)
  {
    var before := Init(chain);
    assert forall i :: 0 <= i < |before| ==> before[i] == chain[i] && ms[..Last(chain)][chain[i]] == ms[chain[i]];
    assert Last(before) == chain[|chain| - 2];
  }

  lemma LinksBeforeLast(ms: seq<Request>, chain: seq<nat>)
    requires |chain| > 1 && Last(chain) < |ms| && forall i: nat :: i < |chain| - 1 ==> EarlierLink(ms, chain, i)
    ensures LinksHold(ms[..Last(chain)], Init(chain))
  {
    var zs, before := ms[..Last(chain)], Init(chain);
    assert forall i: nat :: i < |before| ==> before[i] == chain[i];
    hide Stays, Lands, EarlierLink;
    forall i: nat | i < |before|
      ensures before[i] < |zs| && (zs[before[i]].Malloc? || zs[before[i]].Realloc?) && Lands(zs, before[i])
    {
      LinkHolds(ms, chain, i);
    }
    forall i: nat | 0 < i < |before|
      ensures Stays(zs, before[i - 1], before[i], Target(zs[before[i - 1]]))
    {
      LinkHolds(ms, chain, i - 1);
    }
  }

  lemma LinkHolds(ms: seq<Request>, chain: seq<nat>, i: nat)
    requires EarlierLink(ms, chain, i)
    ensures var zs := ms[..Last(chain)];
            && chain[i] < |zs| && (zs[chain[i]].Malloc? || zs[chain[i]].Realloc?)
            && Lands(zs, chain[i]) && Stays(zs, chain[i], chain[i + 1], Target(zs[chain[i]]))
  {
    hide Stays, Lands;
  }

  /** Without its last link a kept chain is kept up to there. */
  lemma KeptBeforeLast(ms: seq<Request>, chain: seq<nat>, a: Address)
    requires Kept(ms, chain, a) && |chain| > 1
    ensures Last(chain) < |ms| && ms[Last(chain)].Realloc?
    ensures Kept(ms[..Last(chain)], Init(chain), ms[Last(chain)].original)
  {
    assert IsChain(ms, chain, a);
    hide Kept, LinksHold, EarlierLink, Stays;
    var n, before := Last(chain), Init(chain);
    forall i: nat | i < |chain| - 1
      ensures EarlierLink(ms, chain, i) && chain[i] < n < |ms|
    {
      LinkBeforeLast(ms, chain, a, i);
      LinkHolds(ms, chain, i);
    }
    ChainBeforeLast(ms, chain, a);
    LinksBeforeLast(ms, chain);
    LinkHolds(ms, chain, |before| - 1);
    hide IsChain;
    assert Last(before) == chain[|before| - 1] && n == chain[|before|] == |ms[..n]|;
    LastTarget(ms[..n], before, ms[n].original);
    KeptFrom(ms[..n], before, ms[n].original);
  }

  lemma LastTarget(ms: seq<Request>, chain: seq<nat>, a: Address)
    requires IsChain(ms, chain, a)
    ensures Last(chain) < |ms| && (ms[Last(chain)].Malloc? || ms[Last(chain)].Realloc?) && Target(ms[Last(chain)]) == a
  {
  }

  lemma KeptFrom(ms: seq<Request>, chain: seq<nat>, a: Address)
    requires IsChain(ms, chain, a) && LinksHold(ms, chain) && Stays(ms, Last(chain), |ms|, a)
    ensures Kept(ms, chain, a)
  {
  }

  lemma LengthOneIff(ms: seq<Request>, c: seq<nat>, a: Address)
    requires IsChain(ms, c, a)
    ensures Last(c) < |ms| && (|c| == 1 <==> ms[Last(c)].Malloc?)
    ensures c == Init(c) + [Last(c)]
  {
  }

  lemma SameLastLink(ms: seq<Request>, c: seq<nat>, d: seq<nat>, a: Address)
    requires Kept(ms, c, a) && Kept(ms, d, a)
    ensures Last(c) == Last(d)
  {
    hide Stays, Lands;
    if Last(c) < Last(d) {
      NothingLandsOnKept(ms, Last(c), Last(d), a);
    } else if Last(d) < Last(c) {
      NothingLandsOnKept(ms, Last(d), Last(c), a);
    }
  }

  /** Two unbroken chains for one address are the same, link by link. */
  lemma {:induction false} KeptChainIsUnique(ms: seq<Request>, c: seq<nat>, d: seq<nat>, a: Address)
    requires Kept(ms, c, a) && Kept(ms, d, a)
    ensures c == d
    decreases |c|
  {
    SameLastLink(ms, c, d, a);
    LengthOneIff(ms, c, a);
    LengthOneIff(ms, d, a);
    hide Kept, IsChain;
    if |c| > 1 {
      KeptBeforeLast(ms, c, a);
      KeptBeforeLast(ms, d, a);
      KeptChainIsUnique(ms[..Last(c)], Init(c), Init(d), ms[Last(c)].original);
    } else {
      assert Init(c) == [] && Init(d) == [];
    }
  }

  /** So a record is what the stream says it is: the map holds `record` at `a` if and only if `a` has an
      unbroken chain, and then the txn id and stack are those of the chain's own MALLOC. */
  lemma RecordIsThatOfTheChain(ms: seq<Request>, a: Address, record: AllocationRecord)
    requires Defined(EMPTY, ms)
    ensures a in Fold(EMPTY, ms).open && Fold(EMPTY, ms).open[a] == record <==>
              exists chain :: Kept(ms, chain, a) && record == RecordOf(ms, chain, a)
  {
    if a in Fold(EMPTY, ms).open {
      var chain := EveryRecordHasAChain(ms, a);
    }
    if chain :| Kept(ms, chain, a) && record == RecordOf(ms, chain, a) {
      KeptIsOpen(ms, chain, a);
      var other := EveryRecordHasAChain(ms, a);
      KeptChainIsUnique(ms, chain, other, a);
    }
  }

  lemma KeptIsOpen(ms: seq<Request>, chain: seq<nat>, a: Address)
    requires Defined(EMPTY, ms) && Kept(ms, chain, a)
    ensures a in Fold(EMPTY, ms).open
  {
    OpenIffHolds(ms, a);
    hide Holds, Fold, Defined;
    assert ms[..|ms|] == ms;
  }

  /** A report lists each record as the map had it. */
  lemma ReportedRecordHasAChain(ms: seq<Request>, a: Address) returns (chain: seq<nat>)
    requires Defined(EMPTY, ms) && a in Reconcile(Fold(EMPTY, ms)).open
    ensures Kept(ms, chain, a) && Reconcile(Fold(EMPTY, ms)).open[a] == RecordOf(ms, chain, a)
  {
    chain := EveryRecordHasAChain(ms, a);
  }

  /** So keys are the addresses of their records, and a report is listed in strictly ascending order,
      each open block once. */
  lemma ReportIsListedInOrder(ms: seq<Request>)
    requires Defined(EMPTY, ms)
    ensures var report := Reconcile(Fold(EMPTY, ms)).open;
            && KeyedByAddress(report)
            && Ascending(Listing(report)) && |Listing(report)| == |report|
            && forall r :: r in Listing(report) <==> r.address in report && report[r.address] == r
  {
    RecordsAreKeyed(ms);
    ListingIsExact(Reconcile(Fold(EMPTY, ms)).open);
  }

  lemma RecordsAreKeyed(ms: seq<Request>)
    requires Defined(EMPTY, ms)
    ensures KeyedByAddress(Fold(EMPTY, ms).open)
  {
    forall a | a in Fold(EMPTY, ms).open
      ensures Fold(EMPTY, ms).open[a].address == a
    {
      var chain := EveryRecordHasAChain(ms, a);
    }
  }

  /** A new record's id differs from those of the records open before. */
  lemma NewTxnDiffers(zs: seq<Request>, r: Request, b: Address)
    requires Defined(EMPTY, zs) && DistinctTxns(zs + [r]) && r.Malloc? && b in Fold(EMPTY, zs).open
    ensures Fold(EMPTY, zs).open[b].txnId != r.record.txnId
  {
    var chain := EveryRecordHasAChain(zs, b);
    hide Fold, Defined;
    assert (zs + [r])[chain[0]] == zs[chain[0]] && (zs + [r])[|zs|] == r;
  }

  lemma DistinctBefore(zs: seq<Request>, r: Request)
    requires DistinctTxns(zs + [r])
    ensures DistinctTxns(zs)
  {
    assert forall i :: 0 <= i < |zs| ==> (zs + [r])[i] == zs[i];
  }

  /** A map in which no two records share an id. */
  ghost predicate ToldApart(m: OpenMap) {
    forall a, b :: a in m && b in m && a != b ==> m[a].txnId != m[b].txnId
  }

  lemma EmplaceKeepsApart(m: OpenMap, key: Address, value: AllocationRecord)
    requires ToldApart(m) && forall b :: b in m ==> m[b].txnId != value.txnId
    ensures ToldApart(Emplace(m, key, value))
  {
  }

  lemma StepKeepsApart(s: State, r: Request)
    requires ToldApart(s.open) && Handles(s, r)
    requires r.Malloc? ==> forall b :: b in s.open ==> s.open[b].txnId != r.record.txnId
    ensures ToldApart(Step(s, r).open)
  {
    hide TotalSize, Emplace;
    match r
    case Malloc(record) => EmplaceKeepsApart(s.open, record.address, record);
    case Realloc(original, moved, newSize) =>
      var prior := s.open[original];
      EmplaceKeepsApart(s.open - {original}, moved, AllocationRecord(newSize, moved, prior.txnId, prior.stackTail));
    case _ =>
  }

  /** While MALLOCs carry distinct ids no two open records share one. */
  lemma {:induction false} OpenTxnsAreDistinct(ms: seq<Request>)
    requires Defined(EMPTY, ms) && DistinctTxns(ms)
    ensures ToldApart(Fold(EMPTY, ms).open)
  {
    if ms != [] {
      var zs, r := Init(ms), Last(ms);
      assert ms == zs + [r] && Fold(EMPTY, ms) == Step(Fold(EMPTY, zs), r) && Handles(Fold(EMPTY, zs), r);
      hide Fold, Defined, Step, Handles, DistinctTxns, ToldApart;
      DistinctBefore(zs, r);
      OpenTxnsAreDistinct(zs);
      if r.Malloc? {
        forall b | b in Fold(EMPTY, zs).open {
          NewTxnDiffers(zs, r, b);
        }
      }
      StepKeepsApart(Fold(EMPTY, zs), r);
    }
  }

  /** So while the MALLOCs of a stream come from at most 2^32 calls of the factory in a row, in whatever
      order they are handled, the ids of open records tell them apart. */
  lemma MadeRecordsAreToldApart(ms: seq<Request>, calls: seq<nat>, first: nat, n: nat)
    requires Defined(EMPTY, ms) && MadeByCalls(ms, calls, first, n) && n <= UINT32_RANGE
    ensures ToldApart(Fold(EMPTY, ms).open)
  {
    MadeTxnsAreDistinct(ms, calls, first, n);
    OpenTxnsAreDistinct(ms);
  }
}
