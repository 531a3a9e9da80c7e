/** Known-leak filtering over whole runs of the system: a leak is captured once and never reported again
    (src/HeapWatcher.cpp:116-130, 226-278, 579-654, 674-777; README.md:129). */
module Filtering {
  import opened Requests
  import opened Tracker
  import opened Machine
  import opened KnownLeaks

  /** The retained trace is recognised by the table. */
  ghost predicate Recognised(record: AllocationRecord, table: seq<Leak>) {
    IsKnown(table, record.stackTail)
  }

  ghost predicate BringsLeak(r: Request, table: seq<Leak>) {
    r.Malloc? && Recognised(r.record, table)
  }

  /** Nothing the thread has queued or is posting brings a leak. */
  ghost predicate PostsNone(th: Thread, table: seq<Leak>) {
    && th.Valid()
    && (forall k :: th.taken <= k < |th.posted| ==> !BringsLeak(th.posted[k], table))
    && (th.pc.Posting? ==> !BringsLeak(th.pc.request, table))
  }

  /** The table has grown from `table`, and neither the worker's map nor anything on its way to it is
      recognised by what it was. */
  ghost predicate NoneIsKnown(s: System, table: seq<Leak>) {
    && table <= s.leaks
    && (forall a :: a in s.tracker.open ==> !Recognised(s.tracker.open[a], table))
    && (forall t :: 0 <= t < |s.threads| ==> PostsNone(s.threads[t], table))
  }

  /** A longer trace and a longer table recognise what shorter ones do. */
  lemma KnownInLonger(table: seq<Leak>, leaks: seq<Leak>, trace: seq<Address>, frames: seq<Address>)
    requires table <= leaks && trace <= frames && IsKnown(table, trace)
    ensures IsKnown(leaks, frames)
  {
    var i, j :| Matches(table, trace, i, j);
    assert Matches(leaks, frames, i, j);
  }

  /** A REALLOC keeps the trace of the record it moves. */
  lemma TakeKeepsNone(s: System, t: nat, table: seq<Leak>)
    requires NoneIsKnown(s, table) && Enabled(s, Take(t))
    ensures forall a :: a in Apply(s, Take(t)).tracker.open ==> !Recognised(Apply(s, Take(t)).tracker.open[a], table)
  {
    var r, open := Head(s.threads[t]), Apply(s, Take(t)).tracker.open;
    assert PostsNone(s.threads[t], table) && !BringsLeak(r, table);
    forall a | a in open
      ensures !Recognised(open[a], table)
    {
      if r.Realloc? && a == r.moved && a !in s.tracker.open - {r.original} {
        assert open[a].stackTail == s.tracker.open[r.original].stackTail;
      }
    }
  }

  /** The check of an instrumented call: with both flags on its request is posted if and only if it is no MALLOC
      or no known address stands in its trace at a known offset; otherwise nothing is ever posted for it. */
  lemma CheckPostsIff(s: System, t: nat, frames: seq<Address>)
    requires Enabled(s, ReadFlags(t, Instrumented(frames)))
    ensures var r, next := s.threads[t].pc.request, Apply(s, ReadFlags(t, Instrumented(frames)));
            && (next == s.(threads := s.threads[t := s.threads[t].(pc := Posting(r))])
                <==> s.watching && s.threads[t].watching
                     && (r.Malloc? ==>
                           forall i, j :: 0 <= i < |s.leaks| && 0 <= j < |s.leaks| && s.leaks[i].offset < |frames| ==>
                             frames[s.leaks[i].offset] != s.leaks[j].address))
            && (next == s.(threads := s.threads[t := s.threads[t].(pc := Posting(r))])
                || next == s.(threads := s.threads[t := s.threads[t].(pc := Idle)], skipped := s.skipped + [r]))
  {
    MissesIff(s.leaks, frames);
    var r, th := s.threads[t].pc.request, s.threads[t];
    assert s.threads[t := th.(pc := Posting(r))][t] != s.threads[t := th.(pc := Idle)][t];
  }

  /** A call that went to libc directly posts nothing. */
  lemma DirectPostsNothing(s: System, t: nat)
    requires Enabled(s, ReadFlags(t, Direct))
    ensures Apply(s, ReadFlags(t, Direct))
         == s.(threads := s.threads[t := s.threads[t].(pc := Idle)], skipped := s.skipped + [s.threads[t].pc.request])
  {
  }

  lemma PassedIsUnknown(s: System, t: nat, path: CallPath, table: seq<Leak>)
    requires table <= s.leaks && Enabled(s, ReadFlags(t, path)) && Passes(s, t, path)
    ensures !BringsLeak(s.threads[t].pc.request, table)
  {
    var r := s.threads[t].pc.request;
    if BringsLeak(r, table) {
      KnownInLonger(table, s.leaks, r.record.stackTail, path.frames);
    }
  }

  lemma PostedOneMore(th: Thread, r: Request, pc: Pc, table: seq<Leak>)
    requires PostsNone(th, table) && !BringsLeak(r, table) && !pc.Posting?
    ensures PostsNone(th.(posted := th.posted + [r], pc := pc), table)
  {
  }

  lemma AdvanceStaysClean(s: System, t: nat, table: seq<Leak>)
    requires Enabled(s, Proceed(t)) && PostsNone(s.threads[t], table)
    ensures PostsNone(Advance(s, t).threads[t], table)
  {
    hide Step, Handles, Recognised;
    var th := s.threads[t];
    match th.pc
    case Posting(r) => PostedOneMore(th, r, Idle, table);
    case Asking(stats) => PostedOneMore(th, if stats then Stats(t) else Snapshot(t), Awaiting(stats), table);
    case StartClearing => PostedOneMore(th, Clear(t), StartAwaiting, table);
    case StopAsking => PostedOneMore(th, Snapshot(t), StopAwaiting, table);
    case _ =>
  }

  lemma ThreadStaysClean(s: System, action: Action, table: seq<Leak>)
    requires Enabled(s, action) && PostsNone(s.threads[action.t], table)
    requires action.ReadFlags? && Passes(s, action.t, action.path) ==>
               !BringsLeak(s.threads[action.t].pc.request, table)
    ensures Apply(s, action).threads == s.threads[action.t := Apply(s, action).threads[action.t]]
    ensures PostsNone(Apply(s, action).threads[action.t], table)
  {
    hide Step, Handles, BringsLeak, KnownLeaks.CaptureAll;
    if action.Proceed? {
      AdvanceStaysClean(s, action.t, table);
    }
  }

  /** The table only grows, and only the worker touches its map. */
  lemma TableGrows(s: System, action: Action)
    requires Enabled(s, action)
    ensures s.leaks <= Apply(s, action).leaks
    ensures !action.Take? ==> Apply(s, action).tracker == s.tracker
  {
    hide Step, Handles, KnownLeaks.CaptureAll;
    if action.Record? {
      CaptureIsComplete(s.leaks, action.captured, action.symbols);
    }
  }

  lemma StepKeepsNone(s: System, action: Action, table: seq<Leak>)
    requires NoneIsKnown(s, table) && Enabled(s, action)
    ensures NoneIsKnown(Apply(s, action), table)
  {
    if action.ReadFlags? && Passes(s, action.t, action.path) {
      PassedIsUnknown(s, action.t, action.path, table);
    }
    ThreadStaysClean(s, action, table);
    TableGrows(s, action);
    if action.Take? {
      TakeKeepsNone(s, action.t, table);
    }
    hide Step, Handles, Recognised, Apply, PostsNone;
  }

  /** In every run: while nothing open or on its way at the start is recognised by the table, no allocation
      that it recognises is ever posted, held by the worker or reported, whatever is captured on the way. */
  lemma {:induction false} CapturedLeakIsNeverReported(s: System, run: seq<Action>, table: seq<Leak>)
    requires NoneIsKnown(s, table) && Possible(s, run)
    ensures NoneIsKnown(After(s, run), table)
    ensures forall a :: a in Reconcile(After(s, run).tracker).open ==>
              !Recognised(Reconcile(After(s, run).tracker).open[a], table)
  {
    if run != [] {
      hide Step;
      CapturedLeakIsNeverReported(s, Init(run), table);
      StepKeepsNone(After(s, Init(run)), Last(run), table);
    }
  }

  lemma {:induction false} TableOnlyGrows(s: System, run: seq<Action>)
    requires Possible(s, run)
    ensures s.leaks <= After(s, run).leaks
  {
    if run != [] {
      TableOnlyGrows(s, Init(run));
      TableGrows(After(s, Init(run)), Last(run));
    }
  }

  /** The step of capture_known_leak() that extends the table: earlier entries stay, and each captured
      allocation with a leaking symbol is recognised from then on, by its trace. */
  lemma RecordedIsKnown(s: System, t: nat, captured: seq<Captured>, symbols: seq<string>, run: seq<Action>)
    requires Enabled(s, Record(t, captured, symbols)) && Possible(Apply(s, Record(t, captured, symbols)), run)
    ensures var now := After(Apply(s, Record(t, captured, symbols)), run);
            s.leaks <= now.leaks && forall c :: c in captured && HasLeakingSymbol(c, symbols) ==> IsKnown(now.leaks, c.frames)
  {
    var next := Apply(s, Record(t, captured, symbols));
    CaptureIsComplete(s.leaks, captured, symbols);
    TableOnlyGrows(next, run);
    forall c | c in captured && HasLeakingSymbol(c, symbols)
      ensures IsKnown(After(next, run).leaks, c.frames)
    {
      KnownInLonger(next.leaks, After(next, run).leaks, c.frames, c.frames);
    }
  }

  /** Once captured, never reported: in any run from a capture on, through any later session that begins with
      an empty map and no recognised allocation on its way, no report has a record that the table recognised
      when the session began; so none with a captured trace. */
  lemma OnceCapturedNeverReported(s: System, t: nat, captured: seq<Captured>, symbols: seq<string>,
                                  before: seq<Action>, run: seq<Action>, c: Captured)
    requires Enabled(s, Record(t, captured, symbols)) && c in captured && HasLeakingSymbol(c, symbols)
    requires Possible(Apply(s, Record(t, captured, symbols)), before)
    requires var begun := After(Apply(s, Record(t, captured, symbols)), before);
             && begun.tracker.open == map[] && Possible(begun, run)
             && forall u :: 0 <= u < |begun.threads| ==> PostsNone(begun.threads[u], begun.leaks)
    ensures var now := After(After(Apply(s, Record(t, captured, symbols)), before), run);
            forall a :: a in Reconcile(now.tracker).open ==>
              && !IsKnown(After(Apply(s, Record(t, captured, symbols)), before).leaks, Reconcile(now.tracker).open[a].stackTail)
              && Reconcile(now.tracker).open[a].stackTail != c.frames
  {
    var begun := After(Apply(s, Record(t, captured, symbols)), before);
    RecordedIsKnown(s, t, captured, symbols, before);
    CapturedLeakIsNeverReported(begun, run, begun.leaks);
  }
}
