/** No Shutdown of the buffered handler is ever stuck: from every reachable state there is
    a way on, with no new Handle call and with downstream handlers that answer, after which
    it has returned with everything drained. */
module BufferProgress {
  import opened Basics
  import opened Errors
  import opened Buffer
  import opened BufferInvariant
  import opened BufferGuarantees
  import opened BufferRefusal
  import opened BufferReturns

  /** Everyone lets go of the lock. */
  lemma LockFree(s: State, c: CallId) returns (t: State)
    requires Inv(s) && c !in s.handles && !WorkerWrites(s.worker)
    ensures Leads(s, t) && Inv(t) && Beside(s, c, t) && !t.writer && t.readers == 0
  {
    if s.writer {
      var u := WriterLeaves(s, c);
      t := ReadersLeave(u, c);
      GoesBeside(s, u, t, c);
    } else {
      t := ReadersLeave(s, c);
    }
  }

  // ---- the worker ----

  /** How far the worker is from its end. */
  function Left(s: State): nat {
    10 * |s.queue|
    + match s.worker
      case WGone => 0
      case WClosing => 1
      case WStopSet => 2
      case WStopping => 3
      case WExit => 4
      case WDrain => 5
      case WSelect => 6
      case WCounted(_, _) => 7
      case WFailed(_, _) => 8
      case WHold(_, _) => 9
  }

  /** The stop signal as soon as it can be taken, and no failure downstream. */
  function Choice(w: Worker): WorkerChoice {
    if w.WSelect? then StopSignal else if w.WHold? && w.item.Record? then Returned(Nil) else Proceed
  }

  lemma WorkerMovesOn(s: State) returns (t: State)
    requires s.shutdownCh && !s.worker.WGone? && (s.worker.WExit? ==> !s.writer && s.readers == 0)
    ensures Next(s, StepWorker(Choice(s.worker))) == Some(t)
    ensures Left(t) < Left(s) && t.shutdownCh && t.shutdowns == s.shutdowns && t.handles == s.handles
  {
    t := WorkerStep(s, Choice(s.worker)).value;
  }

  lemma {:induction false} WorkerEnds(s: State, c: CallId, d: CallId) returns (t: State)
    requires Inv(s) && s.shutdownCh && c !in s.handles && d in s.shutdowns && s.shutdowns[d].SWaiting?
    ensures Leads(s, t) && Inv(t) && t.workerDone && d in t.shutdowns && t.shutdowns[d].SWaiting?
    decreases Left(s), if s.worker.WExit? && (s.writer || s.readers > 0) then 1 else 0
  {
    if s.worker.WGone? {
      t := s;
      Stays(s);
    } else if s.worker.WExit? && (s.writer || s.readers > 0) {
      var u := LockFree(s, c);
      assert s.queue == [] && u.queue == [];
      t := WorkerEnds(u, c, d);
      Joins(s, u, t);
    } else {
      var u := WorkerMovesOn(s);
      Steps(s, StepWorker(Choice(s.worker)), u);
      NextKeeps(s, StepWorker(Choice(s.worker)), u);
      t := WorkerEnds(u, c, d);
      Joins(s, u, t);
    }
  }

  // ---- the Shutdown call ----

  function StopRank(p: ShutdownPc): nat {
    match p
    case SEnter => 4
    case SWriting => 3
    case SSet => 2
    case SUnlocked => 1
    case _ => 0
  }

  lemma StopMovesOn(s: State, d: CallId) returns (t: State)
    requires d in s.shutdowns && StopRank(s.shutdowns[d]) > 0
    requires s.shutdowns[d].SEnter? ==> !s.writer && s.readers == 0
    ensures Next(s, StepShutdown(d, Go)) == Some(t) && d in t.shutdowns
    ensures StopRank(t.shutdowns[d]) == StopRank(s.shutdowns[d]) - 1 && !t.shutdowns[d].SReturned?
    ensures t.handles == s.handles && (StopRank(t.shutdowns[d]) == 0 ==> t.shutdowns[d].SWaiting?)
  {
    t := ShutdownStep(s, d, Go).value;
  }

  /** The call takes the write lock, leaves running and waits. */
  lemma {:induction false} StopWaits(s: State, c: CallId, d: CallId) returns (t: State)
    requires Inv(s) && c !in s.handles && d in s.shutdowns && StopRank(s.shutdowns[d]) > 0
    requires s.shutdowns[d].SEnter? ==> !s.writer && s.readers == 0
    ensures Leads(s, t) && Inv(t) && c !in t.handles && d in t.shutdowns && t.shutdowns[d].SWaiting?
    decreases StopRank(s.shutdowns[d])
  {
    var u := StopMovesOn(s, d);
    Steps(s, StepShutdown(d, Go), u);
    NextKeeps(s, StepShutdown(d, Go), u);
    if StopRank(u.shutdowns[d]) > 0 {
      t := StopWaits(u, c, d);
      Joins(s, u, t);
    } else {
      t := u;
    }
  }

  lemma TakesError(s: State, d: CallId) returns (t: State)
    requires d in s.shutdowns && s.shutdowns[d].STakeErr?
    ensures Leads(s, t) && d in t.shutdowns && t.shutdowns[d].SReturned? && t.shutdowns[d].drained
  {
    t := ShutdownStep(s, d, Go).value;
    Steps(s, StepShutdown(d, Go), t);
  }

  lemma SeesWorkerGone(s: State, d: CallId) returns (t: State)
    requires d in s.shutdowns && s.shutdowns[d].SWaiting? && s.workerDone
    ensures Leads(s, t) && d in t.shutdowns && t.shutdowns[d].SReturned? && t.shutdowns[d].drained
  {
    var u := ShutdownStep(s, d, WorkerDoneFires).value;
    Steps(s, StepShutdown(d, WorkerDoneFires), u);
    t := TakesError(u, d);
    Joins(s, u, t);
  }

  lemma WaitingEnds(s: State, c: CallId, d: CallId) returns (t: State)
    requires Inv(s) && c !in s.handles && d in s.shutdowns && s.shutdowns[d].SWaiting?
    ensures Leads(s, t) && d in t.shutdowns && t.shutdowns[d].SReturned? && t.shutdowns[d].drained
  {
    var u := WorkerEnds(s, c, d);
    t := SeesWorkerGone(u, d);
    Joins(s, u, t);
  }

  /** The lock is free before a call that still has to take it. */
  lemma ReadyToStop(s: State, c: CallId, d: CallId) returns (t: State)
    requires Inv(s) && c !in s.handles && d in s.shutdowns && s.shutdowns[d].SEnter?
    ensures Leads(s, t) && Inv(t) && c !in t.handles && d in t.shutdowns && t.shutdowns[d].SEnter?
    ensures !t.writer && t.readers == 0
  {
    if WorkerWrites(s.worker) {
      var u := WriterLeaves(s, c);
      t := ReadersLeave(u, c);
      Joins(s, u, t);
    } else {
      t := LockFree(s, c);
    }
  }

  /** Whatever the other calls and the worker are doing, a Shutdown that has not returned
      can return, and with everything delivered. */
  lemma ShutdownCanFinish(size: int, s: State, d: CallId) returns (t: State)
    requires Reachable(size, s) && d in s.shutdowns && !s.shutdowns[d].SReturned?
    ensures Leads(s, t) && d in t.shutdowns && t.shutdowns[d].SReturned? && t.shutdowns[d].drained
    ensures t.workerDone && t.queue == [] && t.done == t.sent
  {
    ReachableInv(size, s);
    t := Finishes(s, d);
    var run :| Exec(s, run) == Some(t) && NoNewHandle(run);
    ExecKeeps(s, run, t);
  }

  lemma Finishes(s: State, d: CallId) returns (t: State)
    requires Inv(s) && d in s.shutdowns && !s.shutdowns[d].SReturned?
    ensures Leads(s, t) && d in t.shutdowns && t.shutdowns[d].SReturned? && t.shutdowns[d].drained
  {
    var c := Unused(s.handles.Keys);
    var u := s;
    Stays(s);
    if s.shutdowns[d].SEnter? {
      u := ReadyToStop(s, c, d);
    }
    if u.shutdowns[d].STakeErr? {
      t := TakesError(u, d);
    } else {
      var v := u;
      Stays(u);
      if !u.shutdowns[d].SWaiting? {
        v := StopWaits(u, c, d);
      }
      t := WaitingEnds(v, c, d);
      Joins(u, v, t);
    }
    Joins(s, u, t);
  }

  // ---- the Flush call ----

  /** How much the worker has in front of it. */
  function Load(s: State): nat {
    10 * |s.queue|
    + match s.worker
      case WHold(_, _) => 3
      case WFailed(_, _) => 2
      case WCounted(_, _) => 1
      case _ => 0
  }

  function Serve(w: Worker): WorkerChoice {
    if w.WSelect? then Take else if w.WHold? && w.item.Record? then Returned(Nil) else Proceed
  }

  lemma WorkerServes(s: State) returns (t: State)
    requires (s.queue != [] && !Drained(s.worker)) || s.worker.WHold?
    ensures Next(s, StepWorker(Serve(s.worker))) == Some(t)
    ensures Load(t) < Load(s) && t.flushes == s.flushes && t.handles == s.handles && t.writer == s.writer
  {
    t := WorkerStep(s, Serve(s.worker)).value;
  }

  /** The worker serves the whole queue, the last barrier included. */
  lemma {:induction false} Served(s: State) returns (t: State)
    requires Inv(s)
    ensures Leads(s, t) && Inv(t) && t.flushes == s.flushes && t.handles == s.handles && t.queue == []
    ensures forall f | f in t.flushes && Enqueued(t.flushes[f]) :: f in t.closed
    decreases Load(s)
  {
    if s.queue == [] && !s.worker.WHold? {
      t := s;
      Stays(s);
      assert s.done + [] + [] == s.done;
      forall f | f in t.flushes && Enqueued(t.flushes[f]) ensures f in t.closed {
        assert Barrier(f) in t.sent;
      }
    } else {
      var u := WorkerServes(s);
      Steps(s, StepWorker(Serve(s.worker)), u);
      NextKeeps(s, StepWorker(Serve(s.worker)), u);
      t := Served(u);
      Joins(s, u, t);
    }
  }

  function ToGo(pc: FlushPc): nat {
    match pc
    case FTimedOut => 8
    case FRecheck => 7
    case FEnter => 6
    case FReading => 5
    case FSending => 4
    case FSent => 3
    case FAwait => 2
    case FWorkerGone => 2
    case FTakeErr => 1
    case FGaveUp(_) => 1
    case FReturned(_, _) => 0
  }

  function OnItsWay(s: State, pc: FlushPc): Branch {
    if pc.FRecheck? && s.workerDone then WorkerDoneFires else Go
  }

  /** The Flush can take its next step without its context and without the timer. */
  predicate MayGo(s: State, f: CallId)
    requires f in s.flushes
  {
    match s.flushes[f].pc
    case FEnter => !s.writer
    case FSending => |s.queue| < s.cap
    case FAwait => f in s.closed
    case FWorkerGone => f in s.closed
    case FReturned(_, _) => false
    case _ => true
  }

  predicate GaveUpWell(pc: FlushPc) {
    pc.FGaveUp? ==> pc.err == CtxDone || pc.err == HandlerShutdown
  }

  /** How a Flush ends without its context. */
  predicate EndsWell(pc: FlushPc, end: FlushPc) {
    && end.FReturned?
    && (end.how == Exit.ThroughBarrier || end.res == Fail(HandlerShutdown) || pc == FGaveUp(CtxDone))
  }

  lemma FlushGoesOn(s: State, f: CallId) returns (t: State)
    requires f in s.flushes && MayGo(s, f) && GaveUpWell(s.flushes[f].pc)
    ensures Next(s, StepFlush(f, OnItsWay(s, s.flushes[f].pc))) == Some(t) && f in t.flushes && t.handles == s.handles
    ensures ToGo(t.flushes[f].pc) < ToGo(s.flushes[f].pc)
    ensures t.flushes[f].pc.FReturned? ==> EndsWell(s.flushes[f].pc, t.flushes[f].pc)
    ensures t.flushes[f].pc.FGaveUp? ==> t.flushes[f].pc.err == HandlerShutdown
  {
    t := FlushStep(s, f, OnItsWay(s, s.flushes[f].pc)).value;
  }

  /** The others make way for the next step of the Flush. */
  lemma MadeWay(s: State, f: CallId) returns (t: State)
    requires Inv(s) && f in s.flushes && !s.flushes[f].pc.FReturned?
    ensures Leads(s, t) && Inv(t) && t.flushes == s.flushes && MayGo(t, f)
  {
    if !s.flushes[f].pc.FEnter? {
      t := Served(s);
    } else if s.writer {
      var c := Unused(s.handles.Keys);
      t := WriterLeaves(s, c);
    } else {
      t := s;
      Stays(s);
    }
  }

  lemma {:induction false} FlushEnds(s: State, f: CallId) returns (t: State)
    requires Inv(s) && f in s.flushes && !s.flushes[f].pc.FReturned? && GaveUpWell(s.flushes[f].pc)
    ensures Leads(s, t) && f in t.flushes && EndsWell(s.flushes[f].pc, t.flushes[f].pc)
    decreases ToGo(s.flushes[f].pc)
  {
    var u := MadeWay(s, f);
    var v := FlushGoesOn(u, f);
    var go := StepFlush(f, OnItsWay(u, u.flushes[f].pc));
    Steps(u, go, v);
    NextKeeps(u, go, v);
    Joins(s, u, v);
    if v.flushes[f].pc.FReturned? {
      t := v;
    } else {
      t := FlushEnds(v, f);
      Joins(s, v, t);
    }
  }

  /** Whatever the other calls and the worker are doing, a Flush that has not returned can
      return without its context: through its barrier, or told that the handler is shutting
      down. */
  lemma FlushCanFinish(size: int, s: State, f: CallId) returns (t: State)
    requires Reachable(size, s) && f in s.flushes && !s.flushes[f].pc.FReturned?
    ensures Leads(s, t) && f in t.flushes && EndsWell(s.flushes[f].pc, t.flushes[f].pc)
  {
    ReachableInv(size, s);
    ReachableTells(size, s);
    assert s.flushes[f].pc.FGaveUp? ==> GivingUp(s.flushes[f].pc);
    t := FlushEnds(s, f);
  }
}
