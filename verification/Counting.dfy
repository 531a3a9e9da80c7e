/** The signed count of what the worker has been told about one address, and what it says about
    the map whatever order the requests arrive in (src/HeapWatcher.cpp:674-777). */
module Counting {
  import opened Requests
  import opened Tracker

  predicate Acquires(r: Request, a: Address) {
    (r.Malloc? && r.record.address == a) || (r.Realloc? && r.moved == a)
  }

  predicate Releases(r: Request, a: Address) {
    (r.Free? && r.block == a) || (r.Realloc? && r.original == a)
  }

  /** +1 for a block that comes to `a`, -1 for one that leaves it; a REALLOC in place is neither. */
  function Weight(r: Request, a: Address): int {
    (if Acquires(r, a) then 1 else 0) - (if Releases(r, a) then 1 else 0)
  }

  /** Over the whole stream. */
  function Gross(ms: seq<Request>, a: Address): int {
    if ms == [] then 0 else Gross(Init(ms), a) + Weight(Last(ms), a)
  }

  /** Since the stream's last CLEAR. */
  function Net(ms: seq<Request>, a: Address): int {
    if ms == [] || Last(ms).Clear? then 0 else Net(Init(ms), a) + Weight(Last(ms), a)
  }

  /** An address never seen freed early is in the map only if it was acquired more often than released,
      and was never released more often than acquired. */
  ghost predicate Counted(s: State, ms: seq<Request>, a: Address) {
    a !in s.strays ==> Net(ms, a) >= if a in s.open then 1 else 0
  }

  lemma {:induction false} CountingInvariant(ms: seq<Request>, a: Address)
    requires Defined(EMPTY, ms)
    ensures Counted(Fold(EMPTY, ms), ms, a)
  {
    if ms != [] && !Last(ms).Clear? {
      CountingInvariant(Init(ms), a);
    }
  }

  /** Whatever the order, an address released as often as it was acquired is in no report. */
  lemma NeverListed(ms: seq<Request>, a: Address)
    requires Defined(EMPTY, ms) && Net(ms, a) <= 0
    ensures a !in Reconcile(Fold(EMPTY, ms)).open
  {
    CountingInvariant(ms, a);
  }
}
