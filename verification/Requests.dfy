/** The message alphabet of the worker queue: src/WorkerRequest.hpp, and the record and
    statistics types of include/HeapWatcher.hpp. */
module Requests {
  /** A `void*`; 0 is the null pointer. */
  type Address = nat

  const NULLPTR: Address := 0
  const MAX_CALLSTACK_RETAINED := 4
  const UINT32_RANGE := 0x1_0000_0000
  const UINT64_RANGE := 0x1_0000_0000_0000_0000

  /** A value held in a `uint64_t`. */
  type uint64 = x: nat | x < UINT64_RANGE

  /** Unsigned arithmetic wraps: what a `uint64_t` keeps of a mathematical integer, found by taking
      out whole turns of 2^64. (`WrapIsRemainder` gives the closed form, which the solver handles badly.) */
  function Wrap(x: int): (w: uint64)
    decreases x < 0, if x < 0 then -x else x
  {
    if x < 0 then Wrap(x + UINT64_RANGE)
    else if x < UINT64_RANGE then x
    else Wrap(x - UINT64_RANGE)
  }

  lemma TurnKeepsRemainder(x: int)
    ensures (x + UINT64_RANGE) % UINT64_RANGE == x % UINT64_RANGE
  {
  }

  lemma {:induction false} WrapIsRemainder(x: int)
    ensures Wrap(x) == x % UINT64_RANGE
    decreases x < 0, if x < 0 then -x else x
  {
    if x < 0 {
      WrapIsRemainder(x + UINT64_RANGE);
      TurnKeepsRemainder(x);
    } else if x >= UINT64_RANGE {
      WrapIsRemainder(x - UINT64_RANGE);
      TurnKeepsRemainder(x - UINT64_RANGE);
    }
  }

  lemma {:induction false} WrapSkipsTurn(x: int)
    ensures Wrap(x + UINT64_RANGE) == Wrap(x)
  {
  }

  /** Wrapping at every step or only at the end gives the same counter. */
  lemma {:induction false} WrapAbsorbs(x: int, y: int)
    ensures Wrap(Wrap(x) + y) == Wrap(x + y)
    decreases x < 0, if x < 0 then -x else x
  {
    if x < 0 {
      WrapAbsorbs(x + UINT64_RANGE, y);
      WrapSkipsTurn(x + y);
    } else if x >= UINT64_RANGE {
      WrapAbsorbs(x - UINT64_RANGE, y);
      WrapSkipsTurn(x + y - UINT64_RANGE);
    }
  }

  datatype AllocationRecord =
    AllocationRecord(size: nat, address: Address, txnId: nat, stackTail: seq<Address>)

  /** One constructor per `WorkerOperation`. A command carries the caller whose promise it refers to. */
  datatype Request =
    | Uninitialized
    | Malloc(record: AllocationRecord)
    | Realloc(original: Address, moved: Address, newSize: nat)
    | Free(block: Address)
    | Clear(caller: nat)
    | Snapshot(caller: nat)
    | Stats(caller: nat)
  {
    predicate IsCommand() {
      Clear? || Snapshot? || Stats?
    }
  }

  datatype Statistics =
    Statistics(mallocs: uint64, reallocs: uint64, frees: uint64, bytesAllocated: uint64, bytesFreed: uint64)

  /** What the worker stores in a caller's promise. */
  datatype Reply =
    | Cleared(caller: nat)
    | Reported(caller: nat, stats: Statistics, leaks: seq<AllocationRecord>)
    | Counted(caller: nat, stats: Statistics)
}
