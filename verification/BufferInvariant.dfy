/** One inductive invariant of the buffered handler's step machine. */
module BufferInvariant {
  import opened Basics
  import opened Counting
  import opened Errors
  import opened Buffer

  ghost predicate HandleReads(h: Handle) {
    h.pc.HReading? || h.pc.HSending? || h.pc.HSent? || h.pc.HFull? || h.pc.HRefused?
  }

  ghost predicate FlushReads(f: Flush) {
    f.pc.FReading? || f.pc.FSending? || f.pc.FSent? || f.pc.FGaveUp? || f.pc.FTimedOut?
  }

  ghost predicate ShutdownWrites(p: ShutdownPc) {
    p.SWriting? || p.SSet?
  }

  ghost predicate WorkerWrites(w: Worker) {
    w.WStopping? || w.WStopSet?
  }

  ghost predicate HandleSent(h: Handle) {
    h.pc.HSent? || h.pc == HReturned(Nil)
  }

  ghost predicate HandleDropped(h: Handle) {
    h.pc == HReturned(Fail(BufferFull))
  }

  ghost predicate HandleRejected(h: Handle) {
    h.pc == HReturned(Fail(HandlerShutdown))
  }

  ghost predicate HandleInProgress(h: Handle) {
    !h.pc.HSent? && !h.pc.HReturned?
  }

  ghost predicate Enqueued(f: Flush) {
    match f.pc
    case FSent => true
    case FAwait => true
    case FWorkerGone => true
    case FTakeErr => true
    case FReturned(_, how) => how != BeforeEnqueue
    case _ => false
  }

  ghost predicate Draining(w: Worker) {
    match w
    case WSelect => false
    case WHold(_, d) => d
    case WFailed(_, d) => d
    case WCounted(_, d) => d
    case _ => true
  }

  ghost predicate Drained(w: Worker) {
    w.WExit? || w.WStopping? || w.WStopSet? || w.WClosing? || w.WGone?
  }

  ghost function Hand(w: Worker): seq<Item> {
    if w.WHold? then [w.item] else []
  }

  ghost function Records(items: seq<Item>): seq<Item> {
    if items == [] then []
    else Records(items[..|items| - 1]) + (if items[|items| - 1].Record? then [items[|items| - 1]] else [])
  }

  /** The read/write lock: the reader count is the number of calls holding it, at
      most one writer holds it, and never both. */
  ghost predicate LockInv(s: State) {
    && s.readers == Count(s.handles, HandleReads) + Count(s.flushes, FlushReads)
    && Count(s.shutdowns, ShutdownWrites) + One(WorkerWrites(s.worker)) == One(s.writer)
    && (s.writer ==> s.readers == 0)
  }

  /** Whoever is about to send has the core in running. */
  ghost predicate WindowInv(s: State) {
    && (forall c | c in s.handles :: s.handles[c].pc.HSending? ==> s.phase.Running?)
    && (forall c | c in s.flushes :: s.flushes[c].pc.FSending? ==> s.phase.Running?)
  }

  ghost predicate PhaseInv(s: State) {
    && (s.shutdownCh <==> s.onceRan)
    && (s.shutdownCh ==> !s.phase.Running?)
    && (Draining(s.worker) ==> s.shutdownCh)
    && (Drained(s.worker) ==> s.queue == [])
    && (s.worker.WStopSet? || s.worker.WClosing? || s.worker.WGone? <==> s.phase.Stopped?)
    && (s.workerDone <==> s.worker.WGone?)
    && (forall c | c in s.shutdowns ::
          && (!s.shutdowns[c].SEnter? && !s.shutdowns[c].SWriting? ==> !s.phase.Running?)
          && (s.shutdowns[c].SWaiting? ==> s.shutdownCh)
          && (s.shutdowns[c].STakeErr? ==> s.workerDone)
          && (s.shutdowns[c].SReturned? && s.shutdowns[c].drained ==> s.workerDone))
  }

  ghost predicate FifoInv(s: State) {
    && s.done + Hand(s.worker) + s.queue == s.sent
    && |s.queue| <= s.cap
    && 1 <= s.cap
  }

  /** The items ever sent are exactly one per call that got past its send. */
  ghost predicate SentInv(s: State) {
    && (forall i, j | 0 <= i < j < |s.sent| :: s.sent[i] != s.sent[j])
    && (forall it | it in s.sent ::
          match it
          case Record(c, _, _, _) => c in s.handles && it == RecordOf(c, s.handles[c]) && HandleSent(s.handles[c])
          case Barrier(f) => f in s.flushes && Enqueued(s.flushes[f]))
    && (forall c | c in s.handles && HandleSent(s.handles[c]) :: RecordOf(c, s.handles[c]) in s.sent)
    && (forall f | f in s.flushes && Enqueued(s.flushes[f]) :: Barrier(f) in s.sent)
  }

  ghost predicate ThroughBarrier(f: Flush) {
    f.pc.FTakeErr? || (f.pc.FReturned? && f.pc.how == Exit.ThroughBarrier)
  }

  /** A barrier is closed exactly when the worker has processed it, and it sits
      behind everything sent before its Flush began. */
  ghost predicate BarrierInv(s: State) {
    && (forall f :: f in s.closed <==> Barrier(f) in s.done)
    && (forall f | f in s.flushes ::
          && s.flushes[f].mark <= |s.sent|
          && (ThroughBarrier(s.flushes[f]) ==> f in s.closed)
          && (s.flushes[f].pc.FReturned? && s.flushes[f].pc.res.Nil? ==> ThroughBarrier(s.flushes[f]))
          && (s.flushes[f].pc.FWorkerGone? ==> s.workerDone))
    && (forall p | 0 <= p < |s.sent| && s.sent[p].Barrier? ::
          s.sent[p].flush in s.flushes && s.flushes[s.sent[p].flush].mark <= p)
    && !s.panicked
  }

  ghost predicate CountInv(s: State) {
    && s.dropped == Count(s.handles, HandleDropped)
    && s.rejected == Count(s.handles, HandleRejected)
    && |Records(s.sent)| == Count(s.handles, HandleSent)
    && (forall c | c in s.handles && s.handles[c].pc.HReturned? ::
          s.handles[c].pc.res in {Nil, Fail(BufferFull), Fail(HandlerShutdown)})
  }

  ghost predicate ErrInv(s: State) {
    s.firstErr == if s.noted == [] then Nil else Fail(s.noted[0])
  }

  ghost predicate Inv(s: State) {
    LockInv(s) && WindowInv(s) && PhaseInv(s) && FifoInv(s) && SentInv(s) && BarrierInv(s) && CountInv(s) && ErrInv(s)
  }

  lemma InitInv(size: int)
    ensures Inv(Init(size))
  {
  }

  // ---- each kind of step keeps each part ----

  lemma HandleCounts(s: State, c: CallId, h: Handle)
    ensures Count(s.handles[c := h], HandleReads)
         == Count(s.handles, HandleReads) - One(c in s.handles && HandleReads(s.handles[c])) + One(HandleReads(h))
    ensures Count(s.handles[c := h], HandleSent)
         == Count(s.handles, HandleSent) - One(c in s.handles && HandleSent(s.handles[c])) + One(HandleSent(h))
    ensures Count(s.handles[c := h], HandleDropped)
         == Count(s.handles, HandleDropped) - One(c in s.handles && HandleDropped(s.handles[c])) + One(HandleDropped(h))
    ensures Count(s.handles[c := h], HandleRejected)
         == (Count(s.handles, HandleRejected)
             - One(c in s.handles && HandleRejected(s.handles[c])) + One(HandleRejected(h)))
  {
    CountUpdate(s.handles, c, h, HandleReads);
    CountUpdate(s.handles, c, h, HandleSent);
    CountUpdate(s.handles, c, h, HandleDropped);
    CountUpdate(s.handles, c, h, HandleRejected);
  }

  lemma RecordsSnoc(items: seq<Item>, it: Item)
    ensures Records(items + [it]) == Records(items) + (if it.Record? then [it] else [])
  {
    assert (items + [it])[..|items|] == items;
  }

  lemma HandleKeepsLock(s: State, c: CallId, t: State)
    requires LockInv(s) && HandleStep(s, c) == Some(t)
    ensures LockInv(t)
  {
    HandleCounts(s, c, t.handles[c]);
  }

  lemma HandleKeepsPhase(s: State, c: CallId, t: State)
    requires WindowInv(s) && PhaseInv(s) && ErrInv(s) && HandleStep(s, c) == Some(t)
    ensures WindowInv(t) && PhaseInv(t) && ErrInv(t)
  {
  }

  lemma HandleKeepsItems(s: State, c: CallId, t: State)
    requires FifoInv(s) && SentInv(s) && BarrierInv(s) && HandleStep(s, c) == Some(t)
    ensures FifoInv(t) && SentInv(t) && BarrierInv(t)
  {
    var h := s.handles[c];
    assert t.handles == s.handles[c := t.handles[c]];
    assert RecordOf(c, t.handles[c]) == RecordOf(c, h);
    if t.handles[c].pc.HSent? {
      assert RecordOf(c, h) !in s.sent;
      assert t.sent == s.sent + [RecordOf(c, h)];
    } else {
      assert t.sent == s.sent;
      assert HandleSent(t.handles[c]) <==> HandleSent(h);
    }
  }

  lemma HandleKeepsCounts(s: State, c: CallId, t: State)
    requires CountInv(s) && HandleStep(s, c) == Some(t)
    ensures CountInv(t)
  {
    HandleCounts(s, c, t.handles[c]);
    RecordsSnoc(s.sent, RecordOf(c, s.handles[c]));
    assert !t.handles[c].pc.HSent? ==> t.sent == s.sent;
  }

  lemma FlushKeepsLock(s: State, c: CallId, b: Branch, t: State)
    requires LockInv(s) && FlushStep(s, c, b) == Some(t)
    ensures LockInv(t)
  {
    CountUpdate(s.flushes, c, t.flushes[c], FlushReads);
  }

  lemma FlushKeepsPhase(s: State, c: CallId, b: Branch, t: State)
    requires WindowInv(s) && PhaseInv(s) && ErrInv(s) && FlushStep(s, c, b) == Some(t)
    ensures WindowInv(t) && PhaseInv(t) && ErrInv(t)
  {
  }

  lemma FlushKeepsItems(s: State, c: CallId, b: Branch, t: State)
    requires FifoInv(s) && SentInv(s) && FlushStep(s, c, b) == Some(t)
    ensures FifoInv(t) && SentInv(t)
  {
    var f := s.flushes[c];
    assert t.flushes == s.flushes[c := t.flushes[c]];
    if t.flushes[c].pc.FSent? {
      assert Barrier(c) !in s.sent;
      assert t.sent == s.sent + [Barrier(c)];
    } else {
      assert t.sent == s.sent;
      assert Enqueued(t.flushes[c]) <==> Enqueued(f);
    }
  }

  lemma FlushKeepsCounts(s: State, c: CallId, b: Branch, t: State)
    requires CountInv(s) && FlushStep(s, c, b) == Some(t)
    ensures CountInv(t)
  {
    RecordsSnoc(s.sent, Barrier(c));
    assert !t.flushes[c].pc.FSent? ==> t.sent == s.sent;
  }

  lemma FlushKeepsBarriers(s: State, c: CallId, b: Branch, t: State)
    requires PhaseInv(s) && BarrierInv(s) && FlushStep(s, c, b) == Some(t)
    ensures BarrierInv(t)
  {
    assert t.flushes == s.flushes[c := t.flushes[c]] && t.flushes[c].mark == s.flushes[c].mark;
    assert t.done == s.done && t.closed == s.closed;
  }

  lemma ShutdownKeepsLock(s: State, c: CallId, b: Branch, t: State)
    requires LockInv(s) && ShutdownStep(s, c, b) == Some(t)
    ensures LockInv(t)
  {
    CountUpdate(s.shutdowns, c, t.shutdowns[c], ShutdownWrites);
  }

  /** Under the write lock nobody is inside a send window. */
  lemma WritersExcludeSenders(s: State)
    requires LockInv(s)
    requires WorkerWrites(s.worker) || exists c :: c in s.shutdowns && ShutdownWrites(s.shutdowns[c])
    ensures forall k | k in s.handles :: !HandleReads(s.handles[k])
    ensures forall k | k in s.flushes :: !FlushReads(s.flushes[k])
  {
    CountZero(s.shutdowns, ShutdownWrites);
    CountZero(s.handles, HandleReads);
    CountZero(s.flushes, FlushReads);
  }

  lemma ShutdownKeepsPhase(s: State, c: CallId, b: Branch, t: State)
    requires LockInv(s) && WindowInv(s) && PhaseInv(s) && ErrInv(s) && ShutdownStep(s, c, b) == Some(t)
    ensures WindowInv(t) && PhaseInv(t) && ErrInv(t)
  {
    if s.shutdowns[c].SWriting? {
      WritersExcludeSenders(s);
    }
  }

  lemma ShutdownKeepsItems(s: State, c: CallId, b: Branch, t: State)
    requires PhaseInv(s) && FifoInv(s) && SentInv(s) && BarrierInv(s) && CountInv(s) && ShutdownStep(s, c, b) == Some(t)
    ensures FifoInv(t) && SentInv(t) && BarrierInv(t) && CountInv(t)
  {
  }

  lemma WorkerKeepsLock(s: State, w: WorkerChoice, t: State)
    requires LockInv(s) && ErrInv(s) && WorkerStep(s, w) == Some(t)
    ensures LockInv(t) && ErrInv(t)
  {
  }

  lemma WorkerKeepsPhase(s: State, w: WorkerChoice, t: State)
    requires LockInv(s) && WindowInv(s) && PhaseInv(s) && WorkerStep(s, w) == Some(t)
    ensures WindowInv(t) && PhaseInv(t)
  {
    if s.worker.WStopping? {
      WritersExcludeSenders(s);
    }
  }

  lemma WorkerKeepsItems(s: State, w: WorkerChoice, t: State)
    requires FifoInv(s) && WorkerStep(s, w) == Some(t)
    ensures FifoInv(t)
  {
    if Takes(s, w) {
      assert s.queue == [s.queue[0]] + s.queue[1..];
    }
  }

  lemma WorkerKeepsSent(s: State, w: WorkerChoice, t: State)
    requires SentInv(s) && CountInv(s) && WorkerStep(s, w) == Some(t)
    ensures SentInv(t) && CountInv(t)
  {
  }

  /** What the worker holds it has not processed before. */
  lemma HeldIsNew(s: State)
    requires FifoInv(s) && SentInv(s) && s.worker.WHold?
    ensures s.worker.item !in s.done
  {
    assert s.sent[|s.done|] == s.worker.item;
    assert forall i | 0 <= i < |s.done| :: s.sent[i] == s.done[i];
  }

  lemma WorkerKeepsBarriers(s: State, w: WorkerChoice, t: State)
    requires FifoInv(s) && SentInv(s) && PhaseInv(s) && BarrierInv(s) && WorkerStep(s, w) == Some(t)
    ensures BarrierInv(t)
  {
    if s.worker.WHold? {
      HeldIsNew(s);
    }
  }

  lemma EnterHandleKeeps(s: State, c: CallId, h: Handle, t: State)
    requires Inv(s) && c !in s.handles && h.pc.HEnter? && t == s.(handles := s.handles[c := h])
    ensures Inv(t)
  {
    HandleCounts(s, c, h);
    EnterHandleItems(s, c, h, t);
    assert LockInv(t) && WindowInv(t) && CountInv(t);
  }

  lemma EnterHandleItems(s: State, c: CallId, h: Handle, t: State)
    requires SentInv(s) && c !in s.handles && h.pc.HEnter? && t == s.(handles := s.handles[c := h])
    ensures SentInv(t)
  {
  }

  lemma EnterFlushKeeps(s: State, c: CallId, t: State)
    requires Inv(s) && c !in s.flushes && t == s.(flushes := s.flushes[c := Flush(|s.sent|, FEnter)])
    ensures Inv(t)
  {
    CountUpdate(s.flushes, c, t.flushes[c], FlushReads);
    EnterFlushItems(s, c, t);
    assert LockInv(t) && WindowInv(t);
  }

  lemma EnterFlushItems(s: State, c: CallId, t: State)
    requires SentInv(s) && BarrierInv(s) && c !in s.flushes
    requires t == s.(flushes := s.flushes[c := Flush(|s.sent|, FEnter)])
    ensures SentInv(t) && BarrierInv(t)
  {
  }

  lemma EnterShutdownKeeps(s: State, c: CallId, t: State)
    requires Inv(s) && c !in s.shutdowns && t == s.(shutdowns := s.shutdowns[c := SEnter])
    ensures Inv(t)
  {
    CountUpdate(s.shutdowns, c, t.shutdowns[c], ShutdownWrites);
  }

  /** Every step of every thread keeps the invariant. */
  lemma NextKeeps(s: State, a: Action, t: State)
    requires Inv(s) && Next(s, a) == Some(t)
    ensures Inv(t)
  {
    match a
    case EnterHandle(c, ctx, view, body) => EnterHandleKeeps(s, c, Handle(ctx, view, body, HEnter), t);
    case EnterFlush(c) => EnterFlushKeeps(s, c, t);
    case EnterShutdown(c) => EnterShutdownKeeps(s, c, t);
    case StepHandle(c) =>
      HandleKeepsLock(s, c, t); HandleKeepsPhase(s, c, t); HandleKeepsItems(s, c, t); HandleKeepsCounts(s, c, t);
    case StepFlush(c, b) =>
      FlushKeepsLock(s, c, b, t); FlushKeepsPhase(s, c, b, t); FlushKeepsItems(s, c, b, t);
      FlushKeepsCounts(s, c, b, t); FlushKeepsBarriers(s, c, b, t);
    case StepShutdown(c, b) =>
      ShutdownKeepsLock(s, c, b, t); ShutdownKeepsPhase(s, c, b, t); ShutdownKeepsItems(s, c, b, t);
    case StepWorker(w) =>
      WorkerKeepsLock(s, w, t); WorkerKeepsPhase(s, w, t); WorkerKeepsItems(s, w, t);
      WorkerKeepsSent(s, w, t); WorkerKeepsBarriers(s, w, t);
  }

  /** ... and so does every run. */
  lemma {:induction false} ExecKeeps(s: State, run: seq<Action>, t: State)
    requires Inv(s) && Exec(s, run) == Some(t)
    ensures Inv(t)
    decreases |run|
  {
    if run != [] {
      var u := Next(s, run[0]).value;
      NextKeeps(s, run[0], u);
      ExecKeeps(u, run[1..], t);
    }
  }
}
