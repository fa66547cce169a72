/** What the buffered handler promises, derived from the invariant for every run. */
module BufferGuarantees {
  import opened Basics
  import opened Counting
  import opened Errors
  import opened Buffer
  import opened BufferInvariant

  // ---- what no step ever undoes ----

  /** Later state t keeps every fact of s that a caller could have relied on. */
  ghost predicate Grows(s: State, t: State) {
    && t.cap == s.cap
    && s.sent <= t.sent
    && s.done <= t.done
    && s.closed <= t.closed
    && (s.workerDone ==> t.workerDone)
    && (!s.phase.Running? ==> !t.phase.Running?)
    && (forall c | c in s.handles ::
          && c in t.handles
          && RecordOf(c, t.handles[c]) == RecordOf(c, s.handles[c])
          && (s.handles[c].pc.HReturned? ==> t.handles[c].pc == s.handles[c].pc))
    && (forall f | f in s.flushes ::
          && f in t.flushes
          && t.flushes[f].mark == s.flushes[f].mark
          && (s.flushes[f].pc.FReturned? ==> t.flushes[f].pc == s.flushes[f].pc))
    && (forall c | c in s.shutdowns ::
          && c in t.shutdowns
          && (s.shutdowns[c].SReturned? ==> t.shutdowns[c] == s.shutdowns[c]))
  }

  lemma NextGrows(s: State, a: Action, t: State)
    requires Next(s, a) == Some(t)
    ensures Grows(s, t)
  {
    match a
    case StepHandle(c) => assert HandleStep(s, c) == Some(t);
    case StepFlush(c, b) => assert FlushStep(s, c, b) == Some(t);
    case StepShutdown(c, b) => assert ShutdownStep(s, c, b) == Some(t);
    case StepWorker(w) => assert WorkerStep(s, w) == Some(t);
    case _ =>
  }

  lemma {:induction false} ExecGrows(s: State, run: seq<Action>, t: State)
    requires Exec(s, run) == Some(t)
    ensures Grows(s, t)
    decreases |run|
  {
    if run != [] {
      NextGrows(s, run[0], Next(s, run[0]).value);
      ExecGrows(Next(s, run[0]).value, run[1..], t);
    }
  }

  ghost predicate Reachable(size: int, s: State) {
    exists run :: Exec(Init(size), run) == Some(s)
  }

  lemma ReachableInv(size: int, s: State)
    requires Reachable(size, s)
    ensures Inv(s)
  {
    var run :| Exec(Init(size), run) == Some(s);
    InitInv(size);
    ExecKeeps(Init(size), run, s);
  }

  // ---- drain finality ----

  /** Once the core has left running nobody is about to send, so the two branches
      that look at workerDone after a successful state check never run: a Flush in
      its select still sees a live worker, and one that sees the worker gone while
      awaiting finds its barrier closed. */
  lemma NoSendAfterRunning(size: int, s: State)
    requires Reachable(size, s)
    ensures !s.phase.Running? ==>
              && (forall c | c in s.handles :: !s.handles[c].pc.HSending?)
              && (forall f | f in s.flushes :: !s.flushes[f].pc.FSending?)
    ensures forall f | f in s.flushes && s.flushes[f].pc.FSending? :: !s.workerDone
    ensures forall f | f in s.flushes && s.flushes[f].pc.FWorkerGone? :: f in s.closed
  {
    ReachableInv(size, s);
    forall f | f in s.flushes && s.flushes[f].pc.FWorkerGone? ensures f in s.closed {
      assert s.done == s.sent;
      assert Barrier(f) in s.sent;
    }
  }

  /** When workerDone is closed the queue is empty and stays empty for good: every
      record and barrier ever accepted has been processed, in order. */
  lemma DrainIsFinal(size: int, s: State, run: seq<Action>, t: State)
    requires Reachable(size, s) && s.workerDone
    requires Exec(s, run) == Some(t)
    ensures t.queue == [] && t.sent == t.done == s.done
    ensures forall f | f in t.flushes && Enqueued(t.flushes[f]) :: f in t.closed
    ensures forall c | c in t.handles && t.handles[c].pc == HReturned(Nil) :: RecordOf(c, t.handles[c]) in s.done
  {
    ReachableInv(size, s);
    DoneStaysDone(s, run, t);
    ExecKeeps(s, run, t);
    forall f | f in t.flushes && Enqueued(t.flushes[f]) ensures f in t.closed {
      assert Barrier(f) in t.done;
    }
  }

  lemma {:induction false} DoneStaysDone(s: State, run: seq<Action>, t: State)
    requires Inv(s) && s.workerDone
    requires Exec(s, run) == Some(t)
    ensures t.workerDone && t.sent == s.sent == t.done && t.queue == []
    decreases |run|
  {
    if run != [] {
      var u := Next(s, run[0]).value;
      NextKeeps(s, run[0], u);
      NextGrows(s, run[0], u);
      NobodySends(s, run[0], u);
      DoneStaysDone(u, run[1..], t);
    }
  }

  lemma NobodySends(s: State, a: Action, t: State)
    requires WindowInv(s) && !s.phase.Running? && Next(s, a) == Some(t)
    ensures t.sent == s.sent
  {
    match a
    case StepHandle(c) => assert HandleStep(s, c) == Some(t);
    case StepFlush(c, b) => assert FlushStep(s, c, b) == Some(t);
    case StepShutdown(c, b) => assert ShutdownStep(s, c, b) == Some(t);
    case StepWorker(w) => assert WorkerStep(s, w) == Some(t);
    case _ =>
  }

  // ---- flush ----

  /** If Flush leaves through its barrier, every record whose Handle had returned
      nil before that Flush began has come back from the downstream Handle. */
  lemma FlushDelivers(size: int, s: State, f: CallId, entered: State, run: seq<Action>, t: State, h: CallId)
    requires Reachable(size, s)
    requires h in s.handles && s.handles[h].pc == HReturned(Nil)
    requires Next(s, EnterFlush(f)) == Some(entered) && Exec(entered, run) == Some(t)
    requires f in t.flushes && t.flushes[f].pc.FReturned? && t.flushes[f].pc.how == Exit.ThroughBarrier
    ensures RecordOf(h, s.handles[h]) in t.done
  {
    ReachableInv(size, s);
    NextKeeps(s, EnterFlush(f), entered);
    ExecKeeps(entered, run, t);
    ExecGrows(entered, run, t);
    var i := AcceptedIndex(s, h);
    MarkIsDone(t, f);
    assert t.done[i] == t.sent[i] == s.sent[i];
  }

  lemma AcceptedIndex(s: State, h: CallId) returns (i: nat)
    requires SentInv(s) && h in s.handles && s.handles[h].pc == HReturned(Nil)
    ensures i < |s.sent| && s.sent[i] == RecordOf(h, s.handles[h])
  {
    assert RecordOf(h, s.handles[h]) in s.sent;
    i :| 0 <= i < |s.sent| && s.sent[i] == RecordOf(h, s.handles[h]);
  }

  /** Behind a closed barrier everything sent before its Flush began is done. */
  lemma MarkIsDone(t: State, f: CallId)
    requires Inv(t) && f in t.flushes && f in t.closed
    ensures t.flushes[f].mark < |t.done|
    ensures forall i | 0 <= i <= t.flushes[f].mark :: t.done[i] == t.sent[i]
  {
    var p :| 0 <= p < |t.done| && t.done[p] == Barrier(f);
    assert forall i | 0 <= i < |t.done| :: t.done[i] == t.sent[i];
    assert t.sent[p] == Barrier(f);
  }

  /** In every run each barrier is queued at most once, closing it never hits a
      closed channel, and no channel is ever closed twice. */
  lemma BarriersOnce(size: int, s: State)
    requires Reachable(size, s)
    ensures forall i, j | 0 <= i < j < |s.sent| :: s.sent[i] != s.sent[j]
    ensures forall f :: f in s.closed <==> Barrier(f) in s.done
    ensures forall f | Barrier(f) in s.sent :: f in s.flushes && Enqueued(s.flushes[f])
    ensures s.worker.WHold? && s.worker.item.Barrier? ==> s.worker.item.flush !in s.closed
    ensures !s.panicked
  {
    ReachableInv(size, s);
    if s.worker.WHold? {
      HeldIsNew(s);
    }
  }

  // ---- FIFO and conservation ----

  lemma {:induction false} RecordsConcat(a: seq<Item>, b: seq<Item>)
    ensures Records(a + b) == Records(a) + Records(b)
    decreases |b|
  {
    if b == [] {
      assert a + b == a;
    } else {
      var n := |b| - 1;
      assert a + b == (a + b[..n]) + [b[n]] && b == b[..n] + [b[n]];
      RecordsSnoc(a + b[..n], b[n]);
      RecordsSnoc(b[..n], b[n]);
      RecordsConcat(a, b[..n]);
    }
  }

  /** Records leave in the order they were accepted, none lost and none twice. */
  lemma Fifo(size: int, s: State)
    requires Reachable(size, s)
    ensures Records(s.done) + Records(Hand(s.worker)) + Records(s.queue) == Records(s.sent)
    ensures |s.queue| <= s.cap == if size < 1 then 1 else size
    ensures s.workerDone ==> Records(s.done) == Records(s.sent)
  {
    ReachableInv(size, s);
    RecordsConcat(s.done, Hand(s.worker));
    RecordsConcat(s.done + Hand(s.worker), s.queue);
    var run :| Exec(Init(size), run) == Some(s);
    ExecGrows(Init(size), run, s);
  }

  /** What the worker hands downstream is what its own call put in: the same
      record, the same view and the same (defaulted) context. */
  lemma DeliveredAsSubmitted(size: int, s: State, it: Item)
    requires Reachable(size, s) && it in s.done && it.Record?
    ensures it.call in s.handles
    ensures var h := s.handles[it.call];
            it == Record(it.call, if h.ctx.NilCtx? then Background else h.ctx, h.view, h.body)
  {
    ReachableInv(size, s);
    assert it in s.sent;
  }

  /** Every Handle call ever made is accepted, dropped, rejected or still running,
      and the public counters count exactly the dropped and the rejected. */
  lemma Conservation(size: int, s: State)
    requires Reachable(size, s)
    ensures |s.handles| == |Records(s.sent)| + s.dropped + s.rejected + Count(s.handles, HandleInProgress)
    ensures forall c | c in s.handles :: HandleSent(s.handles[c]) <==> RecordOf(c, s.handles[c]) in s.sent
  {
    ReachableInv(size, s);
    Partition(s.handles);
  }

  lemma Partition(m: map<CallId, Handle>)
    requires forall c | c in m && m[c].pc.HReturned? ::
               m[c].pc.res in {Nil, Fail(BufferFull), Fail(HandlerShutdown)}
    ensures (|m|
             == Count(m, HandleSent) + Count(m, HandleDropped) + Count(m, HandleRejected) + Count(m, HandleInProgress))
  {
    CountFourWay(m, HandleSent, HandleDropped, HandleRejected, HandleInProgress);
  }

  // ---- shutdown and errors ----

  /** A Shutdown that reports the drained worker is right about it: nothing is
      queued and nothing accepted is missing downstream. */
  lemma ShutdownMeansDrained(size: int, s: State, c: CallId)
    requires Reachable(size, s) && c in s.shutdowns
    requires s.shutdowns[c].SReturned? && s.shutdowns[c].drained
    ensures s.workerDone && s.queue == [] && s.done == s.sent
    ensures forall h | h in s.handles && s.handles[h].pc == HReturned(Nil) :: RecordOf(h, s.handles[h]) in s.done
  {
    ReachableInv(size, s);
  }

  /** takeErr hands out the first error recorded since it was last taken, to one
      caller, and leaves nothing behind for the next. */
  lemma ErrorReportedOnce(size: int, s: State, a: Action, t: State)
    requires Reachable(size, s) && Next(s, a) == Some(t)
    requires (a.StepFlush? && s.flushes[a.c].pc.FTakeErr?) || (a.StepShutdown? && s.shutdowns[a.c].STakeErr?)
    ensures var res := if a.StepFlush? then t.flushes[a.c].pc.res else t.shutdowns[a.c].res;
            res == (if s.noted == [] then Nil else Fail(s.noted[0]))
    ensures t.firstErr == Nil && t.noted == []
  {
    ReachableInv(size, s);
  }
}
