/** The buffered handler as a step machine: any number of Handle, Flush and
    Shutdown calls and one worker share a bounded queue. Every lock operation,
    state check, channel operation and counter update is a step of its own, so a
    run is any interleaving of them. */
module Buffer {
  import opened Basics
  import opened Errors

  type CallId = nat

  datatype Ctx = NilCtx | Background | Given(id: nat)

  function OrBackground(c: Ctx): Ctx {
    if c.NilCtx? then Background else c
  }

  /** One unit of work. A record travels with the context and the handler view of
      the call that produced it; a barrier is named after its Flush call. */
  datatype Item =
    | Record(call: CallId, ctx: Ctx, view: nat, body: nat)
    | Barrier(flush: CallId)

  datatype Phase = Running | ShuttingDown | Stopped

  datatype HandlePc =
    | HEnter            // before RLock
    | HReading          // read lock held, state not looked at
    | HSending          // read lock held, state was running
    | HSent             // read lock held, record in the queue
    | HFull             // read lock held, default branch taken
    | HRefused          // read lock held, state was not running
    | HCountDropped
    | HCountRejected
    | HReturned(res: Result)

  datatype Handle = Handle(ctx: Ctx, view: nat, body: nat, pc: HandlePc)

  /** How a Flush call ended. */
  datatype Exit = BeforeEnqueue | AfterEnqueue | ThroughBarrier

  datatype FlushPc =
    | FEnter            // top of the loop, before RLock
    | FReading
    | FSending          // read lock held, state was running: the four-way select
    | FSent
    | FGaveUp(err: Err) // read lock held, flush over
    | FTimedOut         // read lock held, slice expired
    | FRecheck          // read lock released, about to retry
    | FAwait
    | FWorkerGone       // workerDone seen while awaiting: the inner select
    | FTakeErr
    | FReturned(res: Result, how: Exit)

  /** mark is a history variable: how many items had been sent when the call began. */
  datatype Flush = Flush(mark: nat, pc: FlushPc)

  datatype ShutdownPc =
    | SEnter            // before Lock
    | SWriting          // write lock held, state not changed
    | SSet              // write lock held, state changed
    | SUnlocked         // before closeOnce
    | SWaiting
    | STakeErr
    | SReturned(res: Result, drained: bool)

  datatype Worker =
    | WSelect
    | WDrain
    | WHold(item: Item, draining: bool)
    | WFailed(err: Err, draining: bool)   // downstream failed, counter not updated
    | WCounted(err: Err, draining: bool)  // counter updated, firstErr not looked at
    | WExit             // drain over, before Lock
    | WStopping         // write lock held, state not changed
    | WStopSet          // write lock held, state changed
    | WClosing          // before close(workerDone)
    | WGone

  datatype State = State(
    cap: nat,
    queue: seq<Item>,
    phase: Phase,
    readers: nat, writer: bool,
    onceRan: bool, shutdownCh: bool, workerDone: bool,
    closed: set<CallId>,          // barriers whose channel is closed
    dropped: nat, rejected: nat, handlerErrors: nat,
    firstErr: Result,
    worker: Worker,
    handles: map<CallId, Handle>,
    flushes: map<CallId, Flush>,
    shutdowns: map<CallId, ShutdownPc>,
    // History.
    sent: seq<Item>,              // everything ever put in the queue, in order
    done: seq<Item>,              // everything the worker has finished with, in order
    noted: seq<Err>,              // errors recorded since firstErr was last taken
    panicked: bool)               // a closed channel was closed again

  function Init(size: int): State {
    State(if size < 1 then 1 else size, [], Running, 0, false, false, false, false, {},
          0, 0, 0, Nil, WSelect, map[], map[], map[], [], [], [], false)
  }

  /** The ready case a select picks; the other steps take Go. */
  datatype Branch = Go | CtxFires | WorkerDoneFires | TimerFires

  datatype WorkerChoice = Take | StopSignal | Proceed | Returned(res: Result)

  datatype Action =
    | EnterHandle(c: CallId, ctx: Ctx, view: nat, body: nat)
    | EnterFlush(c: CallId)
    | EnterShutdown(c: CallId)
    | StepHandle(c: CallId)
    | StepFlush(c: CallId, b: Branch)
    | StepShutdown(c: CallId, b: Branch)
    | StepWorker(w: WorkerChoice)

  function RecordOf(c: CallId, h: Handle): Item {
    Record(c, OrBackground(h.ctx), h.view, h.body)
  }

  function Less(n: nat, release: bool): nat {
    if release && n > 0 then n - 1 else n
  }

  function Plus(n: nat, b: bool): nat {
    if b then n + 1 else n
  }

  // Each kind of thread is given by three things: which steps are enabled, where
  // its program counter goes, and what that step does to each shared field.

  // ---- Handle ----

  predicate HandleCan(s: State, pc: HandlePc) {
    !pc.HReturned? && (pc.HEnter? ==> !s.writer)
  }

  function HandleGoes(s: State, pc: HandlePc): HandlePc {
    match pc
    case HEnter => HReading
    case HReading => if s.phase.Running? then HSending else HRefused
    case HSending => if |s.queue| < s.cap then HSent else HFull
    case HSent => HReturned(Nil)
    case HFull => HCountDropped
    case HRefused => HCountRejected
    case HCountDropped => HReturned(Fail(BufferFull))
    case HCountRejected => HReturned(Fail(HandlerShutdown))
    case HReturned(_) => pc
  }

  function HandleStep(s: State, c: CallId): Option<State> {
    if c !in s.handles || !HandleCan(s, s.handles[c].pc) then None else
    var h := s.handles[c];
    var pc := HandleGoes(s, h.pc);
    var out := if pc.HSent? then [RecordOf(c, h)] else [];
    Some(s.(handles := s.handles[c := h.(pc := pc)],
            readers := Less(Plus(s.readers, pc.HReading?), h.pc.HSent? || h.pc.HFull? || h.pc.HRefused?),
            queue := s.queue + out,
            sent := s.sent + out,
            dropped := Plus(s.dropped, h.pc.HCountDropped?),
            rejected := Plus(s.rejected, h.pc.HCountRejected?)))
  }

  // ---- Flush ----

  predicate FlushCan(s: State, c: CallId, pc: FlushPc, b: Branch) {
    match pc
    case FEnter => b == Go && !s.writer
    case FSending =>
      (match b
       case Go => |s.queue| < s.cap
       case WorkerDoneFires => s.workerDone
       case _ => true)
    case FRecheck =>
      (match b
       case Go => !s.workerDone
       case WorkerDoneFires => s.workerDone
       case CtxFires => true
       case TimerFires => false)
    case FAwait =>
      (match b
       case Go => c in s.closed
       case WorkerDoneFires => s.workerDone
       case CtxFires => true
       case TimerFires => false)
    case FReturned(_, _) => false
    case _ => b == Go
  }

  function FlushGoes(s: State, c: CallId, pc: FlushPc, b: Branch): FlushPc {
    match pc
    case FEnter => FReading
    case FReading => if s.phase.Running? then FSending else FGaveUp(HandlerShutdown)
    case FSending =>
      (match b
       case Go => FSent
       case CtxFires => FGaveUp(CtxDone)
       case WorkerDoneFires => FGaveUp(HandlerShutdown)
       case TimerFires => FTimedOut)
    case FSent => FAwait
    case FGaveUp(e) => FReturned(Fail(e), BeforeEnqueue)
    case FTimedOut => FRecheck
    case FRecheck =>
      (match b
       case CtxFires => FReturned(Fail(CtxDone), BeforeEnqueue)
       case WorkerDoneFires => FReturned(Fail(HandlerShutdown), BeforeEnqueue)
       case _ => FEnter)
    case FAwait =>
      (match b
       case CtxFires => FReturned(Fail(CtxDone), AfterEnqueue)
       case WorkerDoneFires => FWorkerGone
       case _ => FTakeErr)
    case FWorkerGone => if c in s.closed then FTakeErr else FReturned(Fail(HandlerShutdown), AfterEnqueue)
    case FTakeErr => FReturned(s.firstErr, ThroughBarrier)
    case FReturned(_, _) => pc
  }

  function FlushStep(s: State, c: CallId, b: Branch): Option<State> {
    if c !in s.flushes || !FlushCan(s, c, s.flushes[c].pc, b) then None else
    var f := s.flushes[c];
    var pc := FlushGoes(s, c, f.pc, b);
    var out := if pc.FSent? then [Barrier(c)] else [];
    Some(s.(flushes := s.flushes[c := f.(pc := pc)],
            readers := Less(Plus(s.readers, pc.FReading?), f.pc.FSent? || f.pc.FGaveUp? || f.pc.FTimedOut?),
            queue := s.queue + out,
            sent := s.sent + out,
            firstErr := if f.pc.FTakeErr? then Nil else s.firstErr,
            noted := if f.pc.FTakeErr? then [] else s.noted))
  }

  // ---- Shutdown ----

  predicate ShutdownCan(s: State, pc: ShutdownPc, b: Branch) {
    match pc
    case SEnter => b == Go && !s.writer && s.readers == 0
    case SWaiting => b == CtxFires || (b == WorkerDoneFires && s.workerDone)
    case SReturned(_, _) => false
    case _ => b == Go
  }

  function ShutdownGoes(s: State, pc: ShutdownPc, b: Branch): ShutdownPc {
    match pc
    case SEnter => SWriting
    case SWriting => SSet
    case SSet => SUnlocked
    case SUnlocked => SWaiting
    case SWaiting => if b.WorkerDoneFires? then STakeErr else SReturned(Fail(CtxDone), false)
    case STakeErr => SReturned(s.firstErr, true)
    case SReturned(_, _) => pc
  }

  function ShutdownStep(s: State, c: CallId, b: Branch): Option<State> {
    if c !in s.shutdowns || !ShutdownCan(s, s.shutdowns[c], b) then None else
    var pc := s.shutdowns[c];
    var closes := pc.SUnlocked? && !s.onceRan;
    Some(s.(shutdowns := s.shutdowns[c := ShutdownGoes(s, pc, b)],
            writer := if pc.SEnter? then true else if pc.SSet? then false else s.writer,
            phase := if pc.SWriting? && s.phase.Running? then ShuttingDown else s.phase,
            onceRan := s.onceRan || closes,
            shutdownCh := s.shutdownCh || closes,
            panicked := s.panicked || (closes && s.shutdownCh),
            firstErr := if pc.STakeErr? then Nil else s.firstErr,
            noted := if pc.STakeErr? then [] else s.noted))
  }

  // ---- the worker ----

  function Back(draining: bool): Worker {
    if draining then WDrain else WSelect
  }

  predicate WorkerCan(s: State, w: WorkerChoice) {
    match s.worker
    case WSelect => (w == Take && s.queue != []) || (w == StopSignal && s.shutdownCh)
    case WHold(item, _) => if item.Barrier? then w == Proceed else w.Returned?
    case WExit => w == Proceed && !s.writer && s.readers == 0
    case WGone => false
    case _ => w == Proceed
  }

  /** Whether this step takes the head of the queue. */
  predicate Takes(s: State, w: WorkerChoice) {
    s.queue != [] && (s.worker.WDrain? || (s.worker.WSelect? && w == Take))
  }

  function WorkerGoes(s: State, w: WorkerChoice): Worker {
    match s.worker
    case WSelect => if Takes(s, w) then WHold(s.queue[0], false) else WDrain
    case WDrain => if Takes(s, w) then WHold(s.queue[0], true) else WExit
    case WHold(_, d) => if w.Returned? && w.res.Fail? then WFailed(w.res.err, d) else Back(d)
    case WFailed(e, d) => WCounted(e, d)
    case WCounted(_, d) => Back(d)
    case WExit => WStopping
    case WStopping => WStopSet
    case WStopSet => WClosing
    case WClosing => WGone
    case WGone => WGone
  }

  function WorkerStep(s: State, w: WorkerChoice): Option<State> {
    if !WorkerCan(s, w) then None else
    var wk := s.worker;
    var closing := if wk.WHold? && wk.item.Barrier? then {wk.item.flush} else {};
    Some(s.(worker := WorkerGoes(s, w),
            queue := if Takes(s, w) then s.queue[1..] else s.queue,
            done := s.done + (if wk.WHold? then [wk.item] else []),
            closed := s.closed + closing,
            panicked := s.panicked || closing * s.closed != {} || (wk.WClosing? && s.workerDone),
            handlerErrors := Plus(s.handlerErrors, wk.WFailed?),
            noted := if wk.WCounted? then s.noted + [wk.err] else s.noted,
            firstErr := if wk.WCounted? && s.firstErr.Nil? then Fail(wk.err) else s.firstErr,
            writer := if wk.WExit? then true else if wk.WStopSet? then false else s.writer,
            phase := if wk.WStopping? then Stopped else s.phase,
            workerDone := s.workerDone || wk.WClosing?))
  }

  // ---- runs ----

  function Next(s: State, a: Action): Option<State> {
    match a
    case EnterHandle(c, ctx, view, body) =>
      if c in s.handles then None
      else Some(s.(handles := s.handles[c := Handle(ctx, view, body, HEnter)]))
    case EnterFlush(c) =>
      if c in s.flushes then None else Some(s.(flushes := s.flushes[c := Flush(|s.sent|, FEnter)]))
    case EnterShutdown(c) =>
      if c in s.shutdowns then None else Some(s.(shutdowns := s.shutdowns[c := SEnter]))
    case StepHandle(c) => HandleStep(s, c)
    case StepFlush(c, b) => FlushStep(s, c, b)
    case StepShutdown(c, b) => ShutdownStep(s, c, b)
    case StepWorker(w) => WorkerStep(s, w)
  }

  /** The state after a whole run, or None when some step of it was not enabled. */
  function Exec(s: State, run: seq<Action>): Option<State>
    decreases |run|
  {
    if run == [] then Some(s) else
    match Next(s, run[0])
    case None => None
    case Some(t) => Exec(t, run[1..])
  }

  lemma ExecOne(s: State, a: Action, t: State)
    requires Next(s, a) == Some(t)
    ensures Exec(s, [a]) == Some(t)
  {
    assert [a][1..] == [];
  }

  lemma {:induction false} ExecThrough(s: State, one: seq<Action>, t: State, two: seq<Action>)
    requires Exec(s, one) == Some(t)
    ensures Exec(s, one + two) == Exec(t, two)
    decreases |one|
  {
    if one == [] {
      assert one + two == two;
    } else {
      ExecThrough(Next(s, one[0]).value, one[1..], t, two);
      assert (one + two)[1..] == one[1..] + two;
    }
  }
}
