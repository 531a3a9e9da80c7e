/** Capturing known leaks and filtering allocations by them (src/HeapWatcher.cpp:116-130, 226-278,
    579-654). */
module KnownLeaks {
  import opened Requests
  import opened Tracker

  const MAX_MALLOC_DEPTH_IN_CALL_STACK := 3
  const CAPTURE_REFUSED: uint64 := UINT64_RANGE - 1

  datatype Leak = Leak(address: Address, offset: nat)

  /** An allocation still open after the leaking function ran: its retained frames, and the function
      names of those before the first null. */
  datatype Captured = Captured(frames: seq<Address>, functions: seq<string>) {
    predicate Valid() {
      |functions| <= |frames|
    }
  }

  /** Some known address stands at some known offset of the trace. */
  ghost predicate IsKnown(leaks: seq<Leak>, trace: seq<Address>) {
    exists i, j :: Matches(leaks, trace, i, j)
  }

  ghost predicate Matches(leaks: seq<Leak>, trace: seq<Address>, i: int, j: int) {
    0 <= i < |leaks| && 0 <= j < |leaks| && leaks[i].offset < |trace| && trace[leaks[i].offset] == leaks[j].address
  }

  /** No table address stands in the trace at a table offset. */
  ghost predicate Misses(leaks: seq<Leak>, trace: seq<Address>) {
    forall i, j :: 0 <= i < |leaks| && 0 <= j < |leaks| && leaks[i].offset < |trace| ==>
      trace[leaks[i].offset] != leaks[j].address
  }

  lemma MissesIff(leaks: seq<Leak>, trace: seq<Address>)
    ensures Misses(leaks, trace) <==> !IsKnown(leaks, trace)
  {
    if !IsKnown(leaks, trace) {
      forall i, j | 0 <= i < |leaks| && 0 <= j < |leaks| && leaks[i].offset < |trace|
        ensures trace[leaks[i].offset] != leaks[j].address
      {
        assert !Matches(leaks, trace, i, j);
      }
    }
  }

  /** The frame of the allocation that has the first leaking symbol of its trace, where it stands. */
  ghost predicate IsLeakOf(leak: Leak, c: Captured, symbols: seq<string>) {
    && leak.offset < |c.functions| && leak.offset < |c.frames| && leak.address == c.frames[leak.offset]
    && c.functions[leak.offset] in symbols
    && forall i :: 0 <= i < leak.offset ==> c.functions[i] !in symbols
  }

  ghost predicate IsLeakOfSome(leak: Leak, cs: seq<Captured>, symbols: seq<string>) {
    exists c :: c in cs && IsLeakOf(leak, c, symbols)
  }

  /** The first frame with a leaking symbol, or the number of frames when there is none. */
  function FirstLeaking(functions: seq<string>, symbols: seq<string>): (k: nat)
    ensures k <= |functions|
    ensures forall i :: 0 <= i < k ==> functions[i] !in symbols
    ensures k < |functions| ==> functions[k] in symbols
  {
    if functions == [] || functions[0] in symbols then 0 else 1 + FirstLeaking(functions[1..], symbols)
  }

  ghost function CaptureOne(leaks: seq<Leak>, c: Captured, symbols: seq<string>): seq<Leak>
    requires c.Valid()
  {
    var k := FirstLeaking(c.functions, symbols);
    if IsKnown(leaks, c.frames) || k == |c.functions| then leaks else leaks + [Leak(c.frames[k], k)]
  }

  ghost function CaptureAll(leaks: seq<Leak>, cs: seq<Captured>, symbols: seq<string>): seq<Leak>
    requires forall c :: c in cs ==> c.Valid()
  {
    if cs == [] then leaks else CaptureOne(CaptureAll(leaks, Init(cs), symbols), Last(cs), symbols)
  }

  class LeakTable {
    var leaks: seq<Leak>

    constructor ()
      ensures leaks == []
    {
      leaks := [];
    }

    /** `std::find` over the table by address. */
    method FindAddress(address: Address) returns (found: bool)
      ensures found <==> exists j :: 0 <= j < |leaks| && leaks[j].address == address
    {
      found := false;
      var j := 0;
      while j < |leaks| && !found
        invariant 0 <= j <= |leaks|
        invariant found <==> exists i :: 0 <= i < j && leaks[i].address == address
      {
        found := leaks[j].address == address;
        j := j + 1;
      }
    }

    method IsKnownLeak(trace: seq<Address>) returns (known: bool)
      ensures known <==> IsKnown(leaks, trace)
    {
      var i := 0;
      while i < |leaks|
        invariant 0 <= i <= |leaks|
        invariant forall k, j :: 0 <= k < i ==> !Matches(leaks, trace, k, j)
      {
        if leaks[i].offset < |trace| {
          var found := FindAddress(trace[leaks[i].offset]);
          if found {
            ghost var j :| 0 <= j < |leaks| && leaks[j].address == trace[leaks[i].offset];
            assert Matches(leaks, trace, i, j);
            return true;
          }
        }
        i := i + 1;
      }
      return false;
    }

    /** `capture_known_leak`, given the allocations that the leaking function left open. */
    method CaptureKnownLeak(watching: bool, captured: seq<Captured>, symbols: seq<string>) returns (found: nat)
      requires forall c :: c in captured ==> c.Valid()
      modifies this
      ensures watching ==> found == CAPTURE_REFUSED && leaks == old(leaks)
      ensures !watching ==> leaks == CaptureAll(old(leaks), captured, symbols)
      ensures !watching ==> found == |leaks| - |old(leaks)|
      ensures old(leaks) <= leaks
      ensures forall n :: |old(leaks)| <= n < |leaks| ==> IsLeakOfSome(leaks[n], captured, symbols)
    {
      if watching {
        return CAPTURE_REFUSED;
      }
      found := 0;
      var n := 0;
      while n < |captured|
        invariant 0 <= n <= |captured|
        invariant leaks == CaptureAll(old(leaks), captured[..n], symbols)
        invariant found == |leaks| - |old(leaks)|
      {
        assert Init(captured[..n + 1]) == captured[..n] && Last(captured[..n + 1]) == captured[n];
        var c := captured[n];
        assert c in captured;
        var known := IsKnownLeak(c.frames);
        if !known {
          var offset := 0;
          while offset < |c.functions| && c.functions[offset] !in symbols
            invariant 0 <= offset <= |c.functions|
            invariant forall i :: 0 <= i < offset ==> c.functions[i] !in symbols
          {
            offset := offset + 1;
          }
          assert offset == FirstLeaking(c.functions, symbols);
          if offset < |c.functions| {
            leaks := leaks + [Leak(c.frames[offset], offset)];
            found := found + 1;
          }
        }
        n := n + 1;
      }
      assert captured[..n] == captured;
      NewEntriesAreLeaks(old(leaks), captured, symbols);
    }
  }

  // ----- which entries a capture adds -----

  /** The n-th new entry is the leaking frame of an allocation that the table before it does not recognise. */
  ghost predicate Comes(leaks: seq<Leak>, start: nat, cs: seq<Captured>, symbols: seq<string>, from: seq<nat>, n: nat) {
    && n < |from| && from[n] < |cs| && start + n < |leaks|
    && IsLeakOf(leaks[start + n], cs[from[n]], symbols)
    && Misses(leaks[..start + n], cs[from[n]].frames)
  }

  /** Recognised already, or without a leaking symbol. */
  ghost predicate Needless(leaks: seq<Leak>, c: Captured, symbols: seq<string>) {
    !Misses(leaks, c.frames) || forall i :: 0 <= i < |c.functions| ==> c.functions[i] !in symbols
  }

  lemma CaptureOneIs(leaks: seq<Leak>, c: Captured, symbols: seq<string>)
    requires c.Valid()
    ensures CaptureOne(leaks, c, symbols) != leaks ==>
              && |CaptureOne(leaks, c, symbols)| == |leaks| + 1 && leaks == CaptureOne(leaks, c, symbols)[..|leaks|]
              && IsLeakOf(Last(CaptureOne(leaks, c, symbols)), c, symbols) && Misses(leaks, c.frames)
    ensures CaptureOne(leaks, c, symbols) == leaks ==> Needless(leaks, c, symbols)
  {
    MissesIff(leaks, c.frames);
  }

  /** The entries of `table` past `start` come from `cs` at the positions `from`; the others need none. */
  ghost predicate Accounts(table: seq<Leak>, start: nat, cs: seq<Captured>, symbols: seq<string>, from: seq<nat>) {
    && |table| == start + |from|
    && (forall n :: 0 <= n < |from| ==> Comes(table, start, cs, symbols, from, n))
    && (forall m, n :: 0 <= m < n < |from| ==> from[m] < from[n])
    && (forall k :: 0 <= k < |cs| && k !in from ==> Needless(table, cs[k], symbols))
  }

  lemma FromBelow(table: seq<Leak>, start: nat, cs: seq<Captured>, symbols: seq<string>, from: seq<nat>)
    requires Accounts(table, start, cs, symbols, from)
    ensures forall n :: 0 <= n < |from| ==> from[n] < |cs|
  {
    forall n | 0 <= n < |from|
      ensures from[n] < |cs|
    {
      assert Comes(table, start, cs, symbols, from, n);
    }
  }

  /** One more allocation that adds an entry. */
  lemma AccountsAdded(before: seq<Leak>, after: seq<Leak>, start: nat, cs: seq<Captured>, symbols: seq<string>,
                      from: seq<nat>)
    requires cs != [] && Accounts(before, start, Init(cs), symbols, from)
    requires |after| == |before| + 1 && after[..|before|] == before
    requires IsLeakOf(Last(after), Last(cs), symbols) && Misses(before, Last(cs).frames)
    ensures Accounts(after, start, cs, symbols, from + [|cs| - 1])
  {
    FromBelow(before, start, Init(cs), symbols, from);
    var longer := from + [|cs| - 1];
    assert Comes(after, start, cs, symbols, longer, |from|);
    hide IsLeakOf, Misses, Comes, Needless;
    forall n | 0 <= n < |from|
      ensures Comes(after, start, cs, symbols, longer, n)
    {
      ComesInLonger(before, after, start, cs, symbols, from, longer, n);
    }
    forall k | 0 <= k < |cs| && k !in longer
      ensures Needless(after, cs[k], symbols)
    {
      assert longer[|from|] == |cs| - 1;
      assert k !in from && Init(cs)[k] == cs[k];
      NeedlessInLonger(before, after, cs[k], symbols);
    }
  }

  /** ... and one that adds none. */
  lemma AccountsSkipped(table: seq<Leak>, start: nat, cs: seq<Captured>, symbols: seq<string>, from: seq<nat>)
    requires cs != [] && Accounts(table, start, Init(cs), symbols, from) && Needless(table, Last(cs), symbols)
    ensures Accounts(table, start, cs, symbols, from)
  {
    hide IsLeakOf, Misses, Comes, Needless;
    forall n | 0 <= n < |from|
      ensures Comes(table, start, cs, symbols, from, n)
    {
      ComesInLonger(table, table, start, cs, symbols, from, from, n);
    }
    assert forall k :: 0 <= k < |cs| - 1 ==> cs[k] == Init(cs)[k];
  }

  /** Exactly what a capture adds: in the order of the captured allocations, for each one that the table as it
      then stands does not recognise and that has a leaking symbol, the first frame with such a symbol, at its
      own offset. */
  lemma {:induction false} CaptureIsExact(leaks: seq<Leak>, cs: seq<Captured>, symbols: seq<string>)
    returns (from: seq<nat>)
    requires forall c :: c in cs ==> c.Valid()
    ensures leaks <= CaptureAll(leaks, cs, symbols)
    ensures Accounts(CaptureAll(leaks, cs, symbols), |leaks|, cs, symbols, from)
  {
    from := [];
    if cs != [] {
      var zs, c := Init(cs), Last(cs);
      assert c in cs;
      from := CaptureIsExact(leaks, zs, symbols);
      var before, after := CaptureAll(leaks, zs, symbols), CaptureAll(leaks, cs, symbols);
      assert after == CaptureOne(before, c, symbols);
      CaptureOneIs(before, c, symbols);
      hide CaptureAll, CaptureOne, IsLeakOf, Misses, Accounts, Needless;
      if after != before {
        AccountsAdded(before, after, |leaks|, cs, symbols, from);
        from := from + [|zs|];
      } else {
        AccountsSkipped(after, |leaks|, cs, symbols, from);
      }
    }
  }

  lemma MissesInShorter(before: seq<Leak>, after: seq<Leak>, trace: seq<Address>)
    requires before <= after && Misses(after, trace)
    ensures Misses(before, trace)
  {
  }

  lemma ComesInLonger(before: seq<Leak>, after: seq<Leak>, start: nat, cs: seq<Captured>, symbols: seq<string>,
                      earlier: seq<nat>, from: seq<nat>, n: nat)
    requires cs != [] && before <= after && earlier <= from
    requires Comes(before, start, Init(cs), symbols, earlier, n)
    ensures Comes(after, start, cs, symbols, from, n)
  {
    hide IsLeakOf, Misses;
    assert after[..start + n] == before[..start + n];
  }

  lemma NewEntryIsALeak(table: seq<Leak>, start: nat, cs: seq<Captured>, symbols: seq<string>, from: seq<nat>, k: nat)
    requires Comes(table, start, cs, symbols, from, k)
    ensures IsLeakOfSome(table[start + k], cs, symbols)
  {
    var c := cs[from[k]];
    assert c in cs && IsLeakOf(table[start + k], c, symbols);
  }

  lemma NewEntriesAreLeaks(leaks: seq<Leak>, cs: seq<Captured>, symbols: seq<string>)
    requires forall c :: c in cs ==> c.Valid()
    ensures leaks <= CaptureAll(leaks, cs, symbols)
    ensures forall n :: |leaks| <= n < |CaptureAll(leaks, cs, symbols)| ==>
              IsLeakOfSome(CaptureAll(leaks, cs, symbols)[n], cs, symbols)
  {
    var from := CaptureIsExact(leaks, cs, symbols);
    hide CaptureAll, IsLeakOfSome, Comes;
    forall n | |leaks| <= n < |CaptureAll(leaks, cs, symbols)|
      ensures IsLeakOfSome(CaptureAll(leaks, cs, symbols)[n], cs, symbols)
    {
      NewEntryIsALeak(CaptureAll(leaks, cs, symbols), |leaks|, cs, symbols, from, n - |leaks|);
    }
  }

  lemma NeedlessInLonger(before: seq<Leak>, after: seq<Leak>, c: Captured, symbols: seq<string>)
    requires before <= after && Needless(before, c, symbols)
    ensures Needless(after, c, symbols)
  {
    if Misses(after, c.frames) {
      MissesInShorter(before, after, c.frames);
    }
  }

  // ----- what a sequence of captures keeps -----

  ghost predicate Distinct(leaks: seq<Leak>) {
    forall i, j :: 0 <= i < j < |leaks| ==> leaks[i] != leaks[j]
  }

  ghost predicate HasLeakingSymbol(c: Captured, symbols: seq<string>) {
    exists i :: 0 <= i < |c.functions| && c.functions[i] in symbols
  }

  /** What is recognised stays recognised when the table grows. */
  lemma KnownStaysKnown(leaks: seq<Leak>, more: seq<Leak>, trace: seq<Address>)
    requires IsKnown(leaks, trace)
    ensures IsKnown(leaks + more, trace)
  {
    var i, j :| Matches(leaks, trace, i, j);
    assert Matches(leaks + more, trace, i, j);
  }

  lemma CaptureOneKeeps(leaks: seq<Leak>, c: Captured, symbols: seq<string>)
    requires c.Valid()
    ensures leaks <= CaptureOne(leaks, c, symbols)
    ensures Distinct(leaks) ==> Distinct(CaptureOne(leaks, c, symbols))
    ensures HasLeakingSymbol(c, symbols) ==> IsKnown(CaptureOne(leaks, c, symbols), c.frames)
    ensures CaptureOne(leaks, c, symbols) == leaks <==> IsKnown(leaks, c.frames) || !HasLeakingSymbol(c, symbols)
  {
    var k := FirstLeaking(c.functions, symbols);
    var after := CaptureOne(leaks, c, symbols);
    if k < |c.functions| {
      assert c.functions[k] in symbols;
    }
    if after != leaks {
      assert Matches(after, c.frames, |leaks|, |leaks|);
      forall i | 0 <= i < |leaks|
        ensures leaks[i] != Leak(c.frames[k], k)
      {
        assert !Matches(leaks, c.frames, i, i);
      }
    }
  }

  /** A capture keeps earlier entries, never lists a pair twice, and afterwards recognises every captured
      allocation with a leaking symbol in its trace. */
  lemma {:induction false} CaptureIsComplete(leaks: seq<Leak>, cs: seq<Captured>, symbols: seq<string>)
    requires forall c :: c in cs ==> c.Valid()
    ensures leaks <= CaptureAll(leaks, cs, symbols)
    ensures Distinct(leaks) ==> Distinct(CaptureAll(leaks, cs, symbols))
    ensures forall c :: c in cs && HasLeakingSymbol(c, symbols) ==> IsKnown(CaptureAll(leaks, cs, symbols), c.frames)
  {
    if cs != [] {
      CaptureIsComplete(leaks, Init(cs), symbols);
      var before, after := CaptureAll(leaks, Init(cs), symbols), CaptureAll(leaks, cs, symbols);
      assert Last(cs) in cs;
      CaptureOneKeeps(before, Last(cs), symbols);
      forall c | c in cs && HasLeakingSymbol(c, symbols)
        ensures IsKnown(after, c.frames)
      {
        if c != Last(cs) {
          assert c in Init(cs);
          KnownStaysKnown(before, after[|before|..], c.frames);
          assert after == before + after[|before|..];
        }
      }
    }
  }

  lemma {:induction false} NothingNewToCapture(leaks: seq<Leak>, cs: seq<Captured>, symbols: seq<string>)
    requires forall c :: c in cs ==> c.Valid()
    requires forall c :: c in cs && HasLeakingSymbol(c, symbols) ==> IsKnown(leaks, c.frames)
    ensures CaptureAll(leaks, cs, symbols) == leaks
  {
    if cs != [] {
      NothingNewToCapture(leaks, Init(cs), symbols);
      assert Last(cs) in cs;
      CaptureOneKeeps(leaks, Last(cs), symbols);
    }
  }

  lemma LaterCapturesKeep(leaks: seq<Leak>, others: seq<Captured>, symbols: seq<string>, trace: seq<Address>)
    requires (forall c :: c in others ==> c.Valid()) && IsKnown(leaks, trace)
    ensures IsKnown(CaptureAll(leaks, others, symbols), trace)
  {
    CaptureIsComplete(leaks, others, symbols);
    hide CaptureAll, IsKnown;
    var later := CaptureAll(leaks, others, symbols);
    assert later == leaks + later[|leaks|..];
    KnownStaysKnown(leaks, later[|leaks|..], trace);
  }

  /** Capturing the same allocations again, also after other captures, appends nothing. */
  lemma RecaptureAppendsNothing(leaks: seq<Leak>, cs: seq<Captured>, others: seq<Captured>,
                                symbols: seq<string>, otherSymbols: seq<string>)
    requires forall c :: c in cs ==> c.Valid()
    requires forall c :: c in others ==> c.Valid()
    ensures var later := CaptureAll(CaptureAll(leaks, cs, symbols), others, otherSymbols);
            CaptureAll(later, cs, symbols) == later
  {
    hide CaptureAll, HasLeakingSymbol, Distinct, IsKnown;
    var first := CaptureAll(leaks, cs, symbols);
    CaptureIsComplete(leaks, cs, symbols);
    forall c | c in cs && HasLeakingSymbol(c, symbols)
      ensures IsKnown(CaptureAll(first, others, otherSymbols), c.frames)
    {
      LaterCapturesKeep(first, others, otherSymbols, c.frames);
    }
    NothingNewToCapture(CaptureAll(first, others, otherSymbols), cs, symbols);
  }

  // ----- the filter -----

  /** What an instrumented allocation posts: the filter sees all frames past malloc's own, the record
      keeps the first four of them. */
  ghost function PostedByMalloc(leaks: seq<Leak>, frames: seq<Address>, depth: nat,
                                size: nat, address: Address, txnId: nat): seq<Request>
    requires |frames| == MAX_CALLSTACK_RETAINED + MAX_MALLOC_DEPTH_IN_CALL_STACK
    requires depth <= MAX_MALLOC_DEPTH_IN_CALL_STACK
  {
    if IsKnown(leaks, frames[depth..]) then []
    else [Malloc(AllocationRecord(size, address, txnId, frames[depth..depth + MAX_CALLSTACK_RETAINED]))]
  }

  /** An allocation whose trace the table does not recognise posts one MALLOC: its block and id, and the first
      four frames past malloc's own. */
  lemma UnknownAllocationPosts(leaks: seq<Leak>, frames: seq<Address>, depth: nat,
                               size: nat, address: Address, txnId: nat)
    requires |frames| == MAX_CALLSTACK_RETAINED + MAX_MALLOC_DEPTH_IN_CALL_STACK
    requires depth <= MAX_MALLOC_DEPTH_IN_CALL_STACK && Misses(leaks, frames[depth..])
    ensures var posted := PostedByMalloc(leaks, frames, depth, size, address, txnId);
            && |posted| == 1 && posted[0].Malloc?
            && posted[0].record.size == size && posted[0].record.address == address && posted[0].record.txnId == txnId
            && |posted[0].record.stackTail| == 4
            && forall i :: 0 <= i < 4 ==> posted[0].record.stackTail[i] == frames[depth + i]
  {
    MissesIff(leaks, frames[depth..]);
  }

  /** Once captured, an allocation whose retained trace carries the captured frame at the captured offset
      is never reported, whatever was captured since. */
  lemma CapturedLeakNeverPosts(leaks: seq<Leak>, more: seq<Leak>, leak: Leak,
                               frames: seq<Address>, depth: nat, size: nat, address: Address, txnId: nat)
    requires |frames| == MAX_CALLSTACK_RETAINED + MAX_MALLOC_DEPTH_IN_CALL_STACK
    requires depth <= MAX_MALLOC_DEPTH_IN_CALL_STACK
    requires leak in leaks && leak.offset < MAX_CALLSTACK_RETAINED
    requires frames[depth + leak.offset] == leak.address
    ensures PostedByMalloc(leaks + more, frames, depth, size, address, txnId) == []
  {
    var i :| 0 <= i < |leaks| && leaks[i] == leak;
    assert Matches(leaks, frames[depth..], i, i);
    KnownStaysKnown(leaks, more, frames[depth..]);
  }

  /** The filter README.md:129 describes: a known address at its own number of frames. */
  ghost predicate IsKnownPaired(leaks: seq<Leak>, trace: seq<Address>) {
    exists i :: Matches(leaks, trace, i, i)
  }

  ghost predicate FilterIsPaired(leaks: seq<Leak>) {
    forall trace: seq<Address> :: IsKnown(leaks, trace) <==> IsKnownPaired(leaks, trace)
  }

  /** Every captured address is captured at every captured offset. */
  ghost predicate IsFullGrid(leaks: seq<Leak>) {
    forall i, j :: 0 <= i < |leaks| && 0 <= j < |leaks| ==> Leak(leaks[j].address, leaks[i].offset) in leaks
  }

  lemma {:induction false} UnknownAddress(leaks: seq<Leak>) returns (a: Address)
    ensures forall i :: 0 <= i < |leaks| ==> leaks[i].address < a
  {
    if leaks == [] {
      a := 0;
    } else {
      a := UnknownAddress(Init(leaks));
      a := if Last(leaks).address < a then a else Last(leaks).address + 1;
      assert forall i :: 0 <= i < |leaks| - 1 ==> leaks[i] == Init(leaks)[i];
    }
  }

  /** A trace with one frame that can match: address `j` at offset `i`. */
  lemma GridPoint(leaks: seq<Leak>, i: nat, j: nat)
    requires FilterIsPaired(leaks) && i < |leaks| && j < |leaks|
    ensures Leak(leaks[j].address, leaks[i].offset) in leaks
  {
    var other := UnknownAddress(leaks);
    var trace: seq<Address> := seq(leaks[i].offset, _ => other) + [leaks[j].address];
    assert Matches(leaks, trace, i, j);
    assert IsKnown(leaks, trace);
    var k :| Matches(leaks, trace, k, k);
    assert leaks[k] == Leak(leaks[j].address, leaks[i].offset);
  }

  /** The code looks for any known address at any known offset; that is the filter the README describes,
      on all traces, if and only if every captured address was captured at every captured offset. */
  lemma FilterIsPairedIff(leaks: seq<Leak>)
    ensures FilterIsPaired(leaks) <==> IsFullGrid(leaks)
  {
    if FilterIsPaired(leaks) {
      forall i, j | 0 <= i < |leaks| && 0 <= j < |leaks| {
        GridPoint(leaks, i, j);
      }
    }
    if IsFullGrid(leaks) {
      forall trace: seq<Address>
        ensures IsKnown(leaks, trace) <==> IsKnownPaired(leaks, trace)
      {
        if IsKnown(leaks, trace) {
          var i, j :| Matches(leaks, trace, i, j);
          var k :| 0 <= k < |leaks| && leaks[k] == Leak(leaks[j].address, leaks[i].offset);
          assert Matches(leaks, trace, k, k);
        }
      }
    }
  }

  /** Two leaks captured at different depths already show the difference. */
  lemma FilterIsNotPaired(a: Address, b: Address, c: Address)
    requires a != b && b != c
    ensures var leaks := [Leak(a, 0), Leak(b, 1)];
            IsKnown(leaks, [b, c]) && !IsKnownPaired(leaks, [b, c])
  {
    assert Matches([Leak(a, 0), Leak(b, 1)], [b, c], 0, 1);
  }
}
