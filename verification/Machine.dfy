/** The concurrent system around the worker: any number of threads calling the heap functions and the
    commands of `HeapWatcherImpl` (src/HeapWatcher.cpp:114-304, 452-480, 579-654), one FIFO queue per
    producer, and the worker taking the head of any producer's queue. One action is one atomic step;
    anything may happen between two steps of a thread. */
module Machine {
  import opened Requests
  import opened Tracker
  import KnownLeaks

  /** Where a thread is. */
  datatype Pc =
    | Idle
    | Returned(request: Request)  // the libc call has returned, the watch flags are not read yet
    | Posting(request: Request)   // both flags were true, the request is not enqueued yet
    | Asking(stats: bool)         // high_level_stats() or snapshot(): before the enqueue
    | Awaiting(stats: bool)       // ... and blocked on the future
    | StartLocked                 // start_watching(): holds the mutex, flag not read yet
    | StartClearing               // flag was false, CLEAR not enqueued yet
    | StartAwaiting
    | StartCleared                // the future is ready
    | StopLocked                  // stop_watching(): holds the mutex
    | StopAsking                  // flag is off, SNAPSHOT not enqueued yet
    | StopAwaiting
    | CaptureLocked               // capture_known_leak(): holds the mutex
    | Capturing                   // the leaking function runs, flag on
    | Recording                   // flag is off, the table not extended yet
    | Unlocking

  /** `watching` is the thread-local flag. The first `taken` requests of `posted` have been handled,
      the others are the thread's queue. */
  datatype Thread = Thread(watching: bool, pc: Pc, posted: seq<Request>, taken: nat) {
    predicate Valid() {
      taken <= |posted|
    }

    function Queue(): seq<Request>
      requires Valid()
    {
      posted[taken..]
    }
  }

  datatype Mutex = Unlocked | LockedBy(thread: nat)

  datatype System = System(
    live: set<Address>,           // the blocks libc has handed out and not taken back
    used: set<Address>,           // ... and those it has ever handed out
    watching: bool,               // watching_globally_
    mutex: Mutex,                 // command_mutex_
    leaks: seq<KnownLeaks.Leak>,  // known_leaks_
    threads: seq<Thread>,
    tracker: Tracker.State,
    handled: seq<Request>,        // history: what the worker has handled, in order
    skipped: seq<Request>,        // history: heap calls that posted nothing
    arrivals: seq<(nat, Request)> // history: every enqueue with its producer, in order
  ) {
    predicate Valid() {
      forall t :: 0 <= t < |threads| ==> threads[t].Valid()
    }
  }

  datatype Command = Start | Stop | Capture

  /** How a heap call goes on after libc. The function pointers are swapped by plain stores
      (src/HeapWatcher.cpp:452-470) that a call may have loaded long before, so a call may always turn out
      to have gone to libc directly. An instrumented allocation looks its trace up in the known-leak table;
      the record retains the first of these frames. */
  datatype CallPath = Direct | Instrumented(frames: seq<Address>)

  datatype Action =
    | LibcMalloc(t: nat, record: AllocationRecord)
    | LibcRealloc(t: nat, original: Address, moved: Address, newSize: nat)
    | LibcFree(t: nat, block: Address)
    | ReadFlags(t: nat, path: CallPath)
    | SetPaused(t: nat, watching: bool)
    | Call(t: nat, command: Command)
    | Record(t: nat, captured: seq<KnownLeaks.Captured>, symbols: seq<string>)
    | Ask(t: nat, stats: bool)
    | Proceed(t: nat)
    | Take(t: nat)

  function Head(th: Thread): Request
    requires th.taken < |th.posted|
  {
    th.posted[th.taken]
  }

  predicate Enabled(s: System, action: Action) {
    && action.t < |s.threads|
    && var th := s.threads[action.t];
       match action
       case LibcMalloc(_, record) => th.pc.Idle? && record.address !in s.live
       case LibcRealloc(_, original, moved, _) =>
         th.pc.Idle? && original in s.live && (moved == original || moved !in s.live)
       case LibcFree(_, block) => th.pc.Idle? && block in s.live
       case ReadFlags(_, path) =>
         th.pc.Returned? && (path.Instrumented? && th.pc.request.Malloc? ==> th.pc.request.record.stackTail <= path.frames)
       case SetPaused(_, _) => th.pc.Idle?
       case Call(_, _) => th.pc.Idle? && s.mutex.Unlocked?
       case Record(_, captured, _) => th.pc.Recording? && forall c :: c in captured ==> c.Valid()
       case Ask(_, _) => th.pc.Idle?
       case Proceed(_) =>
         th.pc.Posting? || th.pc.Asking? || th.pc.StartLocked? || th.pc.StartClearing? || th.pc.StartCleared?
         || th.pc.StopLocked? || th.pc.StopAsking? || th.pc.CaptureLocked? || th.pc.Capturing? || th.pc.Unlocking?
       case Take(_) => th.taken < |th.posted| && Handles(s.tracker, Head(th))
  }

  function SetPc(s: System, t: nat, pc: Pc): System
    requires t < |s.threads|
  {
    s.(threads := s.threads[t := s.threads[t].(pc := pc)])
  }

  function Enqueue(s: System, t: nat, r: Request, pc: Pc): System
    requires t < |s.threads|
  {
    var th := s.threads[t];
    s.(threads := s.threads[t := th.(pc := pc, posted := th.posted + [r])], arrivals := s.arrivals + [(t, r)])
  }

  /** Does the check of a call let its request through (src/HeapWatcher.cpp:230, 239, 257, 266, 284, 298)? */
  ghost predicate Passes(s: System, t: nat, path: CallPath)
    requires t < |s.threads| && s.threads[t].pc.Returned?
  {
    && path.Instrumented? && s.watching && s.threads[t].watching
    && !(s.threads[t].pc.request.Malloc? && KnownLeaks.IsKnown(s.leaks, path.frames))
  }

  function Advance(s: System, t: nat): System
    requires Enabled(s, Proceed(t))
  {
    match s.threads[t].pc
    case Posting(r) => Enqueue(s, t, r, Idle)
    case Asking(stats) => Enqueue(s, t, if stats then Stats(t) else Snapshot(t), Awaiting(stats))
    case StartLocked => SetPc(s, t, if s.watching then Unlocking else StartClearing)
    case StartClearing => Enqueue(s, t, Clear(t), StartAwaiting)
    case StartCleared => SetPc(s, t, Unlocking).(watching := true)
    case StopLocked => SetPc(s, t, StopAsking).(watching := false)
    case StopAsking => Enqueue(s, t, Snapshot(t), StopAwaiting)
    case CaptureLocked =>
      if s.watching then SetPc(s, t, Unlocking) else SetPc(s, t, Capturing).(watching := true)
    case Capturing => SetPc(s, t, Recording).(watching := false)
    case Unlocking => SetPc(s, t, Idle).(mutex := Unlocked)
  }

  /** A settled promise lets its caller go on. */
  function Woken(pc: Pc, r: Request): Pc {
    if r.Clear? && pc.StartAwaiting? then StartCleared
    else if r.Snapshot? && pc.StopAwaiting? then Unlocking
    else if r.IsCommand() && pc.Awaiting? then Idle
    else pc
  }

  ghost function Apply(s: System, action: Action): System
    requires Enabled(s, action)
  {
    match action
    case LibcMalloc(t, record) =>
      SetPc(s, t, Returned(Malloc(record))).(live := s.live + {record.address}, used := s.used + {record.address})
    case LibcRealloc(t, original, moved, newSize) =>
      SetPc(s, t, Returned(Realloc(original, moved, newSize)))
        .(live := s.live - {original} + {moved}, used := s.used + {moved})
    case LibcFree(t, block) => SetPc(s, t, Returned(Free(block))).(live := s.live - {block})
    case ReadFlags(t, path) =>
      var r := s.threads[t].pc.request;
      if Passes(s, t, path) then SetPc(s, t, Posting(r))
      else SetPc(s, t, Idle).(skipped := s.skipped + [r])
    case SetPaused(t, watching) => s.(threads := s.threads[t := s.threads[t].(watching := watching)])
    case Call(t, command) =>
      var pc := match command case Start => StartLocked case Stop => StopLocked case Capture => CaptureLocked;
      SetPc(s, t, pc).(mutex := LockedBy(t))
    case Record(t, captured, symbols) =>
      SetPc(s, t, Unlocking).(leaks := KnownLeaks.CaptureAll(s.leaks, captured, symbols))
    case Ask(t, stats) => SetPc(s, t, Asking(stats))
    case Proceed(t) => Advance(s, t)
    case Take(t) =>
      var th := s.threads[t];
      s.(tracker := Step(s.tracker, Head(th)),
         handled := s.handled + [Head(th)],
         threads := s.threads[t := th.(taken := th.taken + 1, pc := Woken(th.pc, Head(th)))])
  }

  /** The stages of a call whose next step enqueues. */
  predicate Enqueues(pc: Pc) {
    pc.Posting? || pc.Asking? || pc.StartClearing? || pc.StopAsking?
  }

  /** How a step may change a thread's part in the queues. */
  ghost predicate KeepsTaken(s: System, t: nat, s': System)
    requires t < |s.threads|
  {
    && |s'.threads| == |s.threads| && s'.threads == s.threads[t := s'.threads[t]]
    && s'.threads[t].taken == s.threads[t].taken && s.threads[t].posted <= s'.threads[t].posted
    && s'.tracker == s.tracker && s'.handled == s.handled
  }

  ghost predicate KeepsPosted(s: System, t: nat, s': System)
    requires t < |s.threads|
  {
    && |s'.threads| == |s.threads| && s'.threads == s.threads[t := s'.threads[t]]
    && s'.threads[t].posted == s.threads[t].posted && s'.arrivals == s.arrivals
  }

  lemma AdvanceFrame(s: System, t: nat)
    requires Enabled(s, Proceed(t))
    ensures KeepsTaken(s, t, Advance(s, t))
    ensures !Enqueues(s.threads[t].pc) ==> KeepsPosted(s, t, Advance(s, t))
  {
    hide Step, Handles;
  }

  lemma ProceedIsAdvance(s: System, t: nat)
    requires Enabled(s, Proceed(t))
    ensures Apply(s, Proceed(t)) == Advance(s, t)
  {
    hide Step, Handles, Advance;
  }

  lemma CallFrame(s: System, action: Action)
    requires Enabled(s, action) && !action.Take? && !action.Proceed?
    ensures KeepsTaken(s, action.t, Apply(s, action)) && KeepsPosted(s, action.t, Apply(s, action))
  {
    hide Step, Handles, Advance, Passes;
  }

  lemma TakeFrame(s: System, t: nat)
    requires Enabled(s, Take(t))
    ensures KeepsPosted(s, t, Apply(s, Take(t)))
    ensures Apply(s, Take(t)).threads[t].taken == s.threads[t].taken + 1
  {
    hide Step, Handles, Advance;
  }

  /** Only the worker's steps take, and only the enqueueing ones post. */
  lemma StepFrame(s: System, action: Action)
    requires Enabled(s, action)
    ensures !action.Take? ==> KeepsTaken(s, action.t, Apply(s, action))
    ensures action.Take? ==> Apply(s, action).threads[action.t].taken == s.threads[action.t].taken + 1
    ensures !(action.Proceed? && Enqueues(s.threads[action.t].pc)) ==> KeepsPosted(s, action.t, Apply(s, action))
  {
    if action.Take? {
      TakeFrame(s, action.t);
    } else if action.Proceed? {
      AdvanceFrame(s, action.t);
    } else {
      CallFrame(s, action);
    }
    hide Step, Handles, Advance, KeepsTaken, KeepsPosted, Enabled;
  }

  ghost predicate Possible(s: System, run: seq<Action>)
    decreases |run|, 0
  {
    run == [] || (Possible(s, Init(run)) && Enabled(After(s, Init(run)), Last(run)))
  }

  ghost function After(s: System, run: seq<Action>): System
    requires Possible(s, run)
    decreases |run|, 1
  {
    if run == [] then s else Apply(After(s, Init(run)), Last(run))
  }

  /** Before the first session: nothing posted, nobody in a call, every flag as it may be. */
  ghost predicate Initial(s: System) {
    && s.tracker == EMPTY && s.mutex.Unlocked? && !s.watching && s.live <= s.used
    && s.handled == [] && s.skipped == [] && s.arrivals == []
    && forall t :: 0 <= t < |s.threads| ==>
         s.threads[t].pc.Idle? && s.threads[t].posted == [] && s.threads[t].taken == 0
  }

  /** What the next snapshot would list. */
  ghost function ReportedNow(s: System): set<Address> {
    Reconcile(s.tracker).open.Keys
  }

  ghost predicate TrackerFollows(s: System) {
    s.Valid() && Defined(EMPTY, s.handled) && s.tracker == Fold(EMPTY, s.handled)
  }

  lemma StepFollows(s: System, action: Action)
    requires TrackerFollows(s) && Enabled(s, action)
    ensures TrackerFollows(Apply(s, action))
  {
    StepFrame(s, action);
    if action.Take? {
      TakeFollows(s, action.t);
    } else {
      hide Apply, Enabled, Fold, Defined, KeepsPosted;
    }
  }

  lemma TakeFollows(s: System, t: nat)
    requires TrackerFollows(s) && Enabled(s, Take(t))
    ensures TrackerFollows(Apply(s, Take(t)))
  {
    FoldSnoc(EMPTY, s.handled, Head(s.threads[t]));
    hide Fold, Defined, Step, Handles;
  }

  /** In every run the worker's state is the fold of what it has handled. */
  lemma {:induction false} RunFollows(s: System, run: seq<Action>)
    requires TrackerFollows(s) && Possible(s, run)
    ensures TrackerFollows(After(s, run))
  {
    if run != [] {
      RunFollows(s, Init(run));
      StepFollows(After(s, Init(run)), Last(run));
    }
  }

  lemma PossibleOneMore(s: System, run: seq<Action>, action: Action)
    requires Possible(s, run) && Enabled(After(s, run), action)
    ensures Possible(s, run + [action]) && After(s, run + [action]) == Apply(After(s, run), action)
  {
    assert Init(run + [action]) == run && Last(run + [action]) == action;
  }
}
