/** What callers are told, field by field, read off the requests handled before their own
    (src/HeapWatcher.cpp:730-785). */
module Answers {
  import opened Requests
  import opened Tracker
  import opened Holdings
  import opened Provenance
  import opened Totals
  import Ledger

  /** The five numbers are the stream's own totals, modulo 2^64. */
  ghost predicate ShowsTotals(shown: Statistics, ms: seq<Request>) {
    && shown.mallocs == Ledger.MallocsIn(ms) % UINT64_RANGE
    && shown.reallocs == Ledger.ReallocsIn(ms) % UINT64_RANGE
    && shown.frees == FreesIn(ms) % UINT64_RANGE
    && shown.bytesAllocated == BytesAllocatedIn(ms) % UINT64_RANGE
    && shown.bytesFreed == BytesFreedIn(ms) % UINT64_RANGE
  }

  lemma StatisticsShowTotals(ms: seq<Request>)
    requires Defined(EMPTY, ms)
    ensures ShowsTotals(StatisticsOf(Fold(EMPTY, ms)), ms)
  {
    Ledger.LedgerBalances(ms);
    TotalsAreTheStreams(ms);
    hide Fold, Defined, FreesIn, BytesFreedIn, BytesAllocatedIn, Wrap, Ledger.Balanced, Ledger.MallocsIn, Ledger.ReallocsIn;
    var s := Fold(EMPTY, ms);
    WrapIsRemainder(s.mallocs);
    WrapIsRemainder(s.reallocs);
    WrapIsRemainder(s.frees);
    WrapIsRemainder(s.bytesAllocated);
    WrapIsRemainder(s.bytesFreed);
  }

  /** The records of the open blocks in strictly ascending order: those of the unbroken chains of `ms`. */
  ghost predicate ListsTheChains(leaks: seq<AllocationRecord>, ms: seq<Request>) {
    && Ascending(leaks)
    && forall record :: record in leaks <==>
         exists chain :: Kept(ms, chain, record.address) && record == RecordOf(ms, chain, record.address)
  }

  lemma ListingListsTheChains(ms: seq<Request>)
    requires Defined(EMPTY, ms)
    ensures ListsTheChains(Listing(Fold(EMPTY, ms).open), ms)
  {
    RecordsAreKeyed(ms);
    var open := Fold(EMPTY, ms).open;
    ListingIsExact(open);
    hide Fold, Defined, Listing, Kept, RecordOf;
    forall record
      ensures record in Listing(open) <==>
                exists chain :: Kept(ms, chain, record.address) && record == RecordOf(ms, chain, record.address)
    {
      RecordIsThatOfTheChain(ms, record.address, record);
    }
  }

  /** The answer to the last request of a stream comes last, after all answers before it. */
  lemma AnswerComesLast(ms: seq<Request>, r: Request)
    requires Defined(EMPTY, ms) && Handles(Fold(EMPTY, ms), r) && r.IsCommand()
    ensures Defined(EMPTY, ms + [r]) && Fold(EMPTY, ms + [r]) == Step(Fold(EMPTY, ms), r)
    ensures |RepliesTo(Fold(EMPTY, ms), r)| == 1
    ensures Replies(EMPTY, ms + [r]) == Replies(EMPTY, ms) + [RepliesTo(Fold(EMPTY, ms), r)[0]]
  {
    FoldSnoc(EMPTY, ms, r);
    hide Fold, Defined, Step, Replies, StatisticsOf, Reconcile, Listing;
    var now := RepliesTo(Fold(EMPTY, ms), r);
    assert now == [now[0]];
  }

  /** high_level_stats() is told the totals of what was handled before it. */
  lemma StatsAnswer(ms: seq<Request>, caller: nat)
    requires Defined(EMPTY, ms)
    ensures Defined(EMPTY, ms + [Stats(caller)])
    ensures exists shown :: Replies(EMPTY, ms + [Stats(caller)]) == Replies(EMPTY, ms) + [Counted(caller, shown)]
                            && ShowsTotals(shown, ms)
  {
    AnswerComesLast(ms, Stats(caller));
    StatisticsShowTotals(ms);
    hide Fold, Defined, Step, Replies, StatisticsOf, ShowsTotals;
  }

  /** snapshot() and stop_watching() are told the totals once strays are reconciled, and the open records. */
  lemma SnapshotAnswer(ms: seq<Request>, caller: nat)
    requires Defined(EMPTY, ms)
    ensures Defined(EMPTY, ms + [Snapshot(caller)])
    ensures exists shown, leaks ::
              && Replies(EMPTY, ms + [Snapshot(caller)]) == Replies(EMPTY, ms) + [Reported(caller, shown, leaks)]
              && ShowsTotals(shown, ms + [Snapshot(caller)]) && ListsTheChains(leaks, ms + [Snapshot(caller)])
  {
    AnswerComesLast(ms, Snapshot(caller));
    StatisticsShowTotals(ms + [Snapshot(caller)]);
    ListingListsTheChains(ms + [Snapshot(caller)]);
    hide Fold, Defined, Reconcile, Replies, StatisticsOf, ShowsTotals, ListsTheChains, Listing;
  }

  /** start_watching() is told that the map is clear, and it is: all totals begin again. */
  lemma ClearAnswer(ms: seq<Request>, caller: nat)
    requires Defined(EMPTY, ms)
    ensures Defined(EMPTY, ms + [Clear(caller)])
    ensures Replies(EMPTY, ms + [Clear(caller)]) == Replies(EMPTY, ms) + [Cleared(caller)]
    ensures Fold(EMPTY, ms + [Clear(caller)]).open == map[] && Fold(EMPTY, ms + [Clear(caller)]).strays == {}
    ensures ShowsTotals(Statistics(0, 0, 0, 0, 0), ms + [Clear(caller)])
  {
    AnswerComesLast(ms, Clear(caller));
    assert Last(ms + [Clear(caller)]).Clear?;
    hide Fold, Defined, Replies;
  }
}
