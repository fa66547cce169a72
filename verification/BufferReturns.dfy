/** What Flush and Shutdown of the buffered handler return, over whole runs: nil only
    when everything is delivered, the context's error exactly when the context fired, and
    the shutdown error only once the handler has left running. */
module BufferReturns {
  import opened Basics
  import opened Errors
  import opened Buffer
  import opened BufferInvariant
  import opened BufferGuarantees

  // ---- Shutdown ----

  /** A Shutdown whose worker has not been seen to be gone returns the context's error. */
  ghost predicate StopsTell(s: State) {
    forall c | c in s.shutdowns && s.shutdowns[c].SReturned? && !s.shutdowns[c].drained ::
      s.shutdowns[c].res == Fail(CtxDone)
  }

  /** The way out a Flush that has given up is on. */
  predicate GivingUp(pc: FlushPc) {
    pc.FGaveUp? || (pc.FReturned? && pc.how != Exit.ThroughBarrier)
  }

  function Reason(pc: FlushPc): Result
    requires GivingUp(pc)
  {
    if pc.FGaveUp? then Fail(pc.err) else pc.res
  }

  /** A Flush gives up for one of two reasons, and for the second one only without a
      barrier in the queue. */
  ghost predicate FlushesTell(s: State) {
    forall f | f in s.flushes && GivingUp(s.flushes[f].pc) ::
      || Reason(s.flushes[f].pc) == Fail(CtxDone)
      || (Reason(s.flushes[f].pc) == Fail(HandlerShutdown) && !s.phase.Running? && !Enqueued(s.flushes[f]))
  }

  /** A Flush that has seen the worker gone finds its barrier closed. */
  lemma GoneIsClosed(s: State)
    requires Inv(s)
    ensures forall f | f in s.flushes && s.flushes[f].pc.FWorkerGone? :: f in s.closed
  {
    forall f | f in s.flushes && s.flushes[f].pc.FWorkerGone? ensures f in s.closed {
      assert s.done == s.sent && Barrier(f) in s.sent;
    }
  }

  lemma FlushTells(s: State, f: CallId, b: Branch, t: State)
    requires PhaseInv(s) && FlushesTell(s) && FlushStep(s, f, b) == Some(t)
    requires s.flushes[f].pc.FWorkerGone? ==> f in s.closed
    ensures FlushesTell(t)
  {
  }

  lemma PhaseTells(s: State, t: State)
    requires FlushesTell(s) && t.flushes == s.flushes && (t.phase.Running? ==> s.phase.Running?)
    ensures FlushesTell(t)
  {
  }

  lemma EnterTells(s: State, f: CallId, t: State)
    requires FlushesTell(s) && Next(s, EnterFlush(f)) == Some(t)
    ensures FlushesTell(t)
  {
  }

  lemma StopTells(s: State, c: CallId, b: Branch, t: State)
    requires StopsTell(s) && ShutdownStep(s, c, b) == Some(t)
    ensures StopsTell(t)
  {
  }

  lemma FlushesStay(s: State, a: Action, t: State)
    requires Next(s, a) == Some(t) && !a.EnterFlush? && !a.StepFlush?
    ensures t.flushes == s.flushes && (t.phase.Running? ==> s.phase.Running?)
  {
    match a
    case StepHandle(c) => assert HandleStep(s, c) == Some(t);
    case StepShutdown(c, b) => assert ShutdownStep(s, c, b) == Some(t);
    case StepWorker(w) => assert WorkerStep(s, w) == Some(t);
    case _ =>
  }

  lemma StopsStay(s: State, a: Action, t: State)
    requires StopsTell(s) && Next(s, a) == Some(t) && !a.StepShutdown?
    ensures StopsTell(t)
  {
    match a
    case StepHandle(c) => assert HandleStep(s, c) == Some(t);
    case StepFlush(c, b) => assert FlushStep(s, c, b) == Some(t);
    case StepWorker(w) => assert WorkerStep(s, w) == Some(t);
    case _ =>
  }

  lemma StepTells(s: State, a: Action, t: State)
    requires Inv(s) && StopsTell(s) && FlushesTell(s) && Next(s, a) == Some(t)
    ensures StopsTell(t) && FlushesTell(t)
  {
    if a.StepShutdown? {
      StopTells(s, a.c, a.b, t);
    } else {
      StopsStay(s, a, t);
    }
    if a.EnterFlush? {
      EnterTells(s, a.c, t);
    } else if a.StepFlush? {
      GoneIsClosed(s);
      FlushTells(s, a.c, a.b, t);
    } else {
      FlushesStay(s, a, t);
      PhaseTells(s, t);
    }
  }

  lemma OneStep(s: State, run: seq<Action>, t: State) returns (u: State)
    requires Inv(s) && StopsTell(s) && FlushesTell(s) && Exec(s, run) == Some(t) && run != []
    ensures Next(s, run[0]) == Some(u) && Exec(u, run[1..]) == Some(t)
    ensures Inv(u) && StopsTell(u) && FlushesTell(u)
  {
    u := Next(s, run[0]).value;
    StepTells(s, run[0], u);
    NextKeeps(s, run[0], u);
  }

  lemma {:induction false} RunTells(s: State, run: seq<Action>, t: State)
    requires Inv(s) && StopsTell(s) && FlushesTell(s) && Exec(s, run) == Some(t)
    ensures StopsTell(t) && FlushesTell(t)
    decreases |run|
  {
    if run != [] {
      var u := OneStep(s, run, t);
      RunTells(u, run[1..], t);
    }
  }

  lemma ReachableTells(size: int, s: State)
    requires Reachable(size, s)
    ensures StopsTell(s) && FlushesTell(s)
  {
    var run :| Exec(Init(size), run) == Some(s);
    InitInv(size);
    RunTells(Init(size), run, s);
  }

  /** Shutdown returns nil only when the worker is gone, nothing is queued and everything
      accepted was delivered; if it returns before that, it returns the context's error. */
  lemma ShutdownReturns(size: int, s: State, c: CallId)
    requires Reachable(size, s) && c in s.shutdowns && s.shutdowns[c].SReturned?
    ensures s.shutdowns[c].res == Nil ==>
              && s.shutdowns[c].drained && s.workerDone && s.queue == [] && s.done == s.sent
              && forall h | h in s.handles && s.handles[h].pc == HReturned(Nil) ::
                   RecordOf(h, s.handles[h]) in s.done
    ensures !s.shutdowns[c].drained ==> s.shutdowns[c].res == Fail(CtxDone)
    ensures !s.workerDone ==> s.shutdowns[c].res == Fail(CtxDone)
  {
    ReachableTells(size, s);
    ReachableInv(size, s);
  }

  // ---- Flush ----

  /** A Flush that has returned went through its barrier, or its context ended it, or it
      met a handler that is not running before it had queued anything. In particular it
      returns nil only through its barrier, and while the handler is running an expired
      slice never ends it. */
  lemma FlushReturns(size: int, s: State, f: CallId)
    requires Reachable(size, s) && f in s.flushes && s.flushes[f].pc.FReturned?
    ensures var pc := s.flushes[f].pc;
            match pc.how
            case ThroughBarrier => f in s.closed && Barrier(f) in s.done
            case AfterEnqueue => pc.res == Fail(CtxDone) && Barrier(f) in s.sent
            case BeforeEnqueue =>
              && Barrier(f) !in s.sent
              && (pc.res == Fail(CtxDone) || (pc.res == Fail(HandlerShutdown) && !s.phase.Running?))
  {
    ReachableTells(size, s);
    ReachableInv(size, s);
    assert GivingUp(s.flushes[f].pc) || s.flushes[f].pc.how == Exit.ThroughBarrier;
    assert Barrier(f) in s.sent ==> Enqueued(s.flushes[f]);
  }

  // ---- contexts ----

  /** The context of this Flush, or of this Shutdown, fires in the run. */
  predicate Fires(run: seq<Action>, a: Action) {
    exists i :: 0 <= i < |run| && run[i] == a
  }

  predicate CtxEnded(s: State, f: CallId) {
    f in s.flushes && GivingUp(s.flushes[f].pc) && Reason(s.flushes[f].pc) == Fail(CtxDone)
  }

  lemma CtxStep(s: State, a: Action, t: State, f: CallId)
    requires Next(s, a) == Some(t)
    ensures CtxEnded(t, f) <==> CtxEnded(s, f) || a == StepFlush(f, CtxFires)
  {
    match a
    case StepHandle(c) => assert HandleStep(s, c) == Some(t);
    case StepFlush(c, b) => assert FlushStep(s, c, b) == Some(t);
    case StepShutdown(c, b) => assert ShutdownStep(s, c, b) == Some(t);
    case StepWorker(w) => assert WorkerStep(s, w) == Some(t);
    case _ =>
  }

  lemma FiresCons(a: Action, rest: seq<Action>, b: Action)
    ensures Fires([a] + rest, b) <==> a == b || Fires(rest, b)
  {
    var run := [a] + rest;
    if a == b {
      assert run[0] == b;
    }
    if Fires(rest, b) {
      var i :| 0 <= i < |rest| && rest[i] == b;
      assert run[i + 1] == b;
    }
  }

  lemma {:induction false} CtxRun(s: State, run: seq<Action>, t: State, f: CallId)
    requires Exec(s, run) == Some(t)
    ensures CtxEnded(t, f) <==> CtxEnded(s, f) || Fires(run, StepFlush(f, CtxFires))
    decreases |run|
  {
    if run != [] {
      var u := Next(s, run[0]).value;
      CtxStep(s, run[0], u, f);
      CtxRun(u, run[1..], t, f);
      FiresCons(run[0], run[1..], StepFlush(f, CtxFires));
      assert run == [run[0]] + run[1..];
    }
  }

  /** A Flush that has returned without its barrier returns the context's error exactly
      when its context fired; one whose context fired never returns through the barrier. */
  lemma FlushCtxExactly(size: int, run: seq<Action>, t: State, f: CallId)
    requires Exec(Init(size), run) == Some(t) && f in t.flushes && t.flushes[f].pc.FReturned?
    ensures (Fires(run, StepFlush(f, CtxFires))
             <==> t.flushes[f].pc.how != Exit.ThroughBarrier && t.flushes[f].pc.res == Fail(CtxDone))
  {
    CtxRun(Init(size), run, t, f);
  }

  predicate StopEnded(s: State, c: CallId) {
    c in s.shutdowns && s.shutdowns[c].SReturned? && !s.shutdowns[c].drained
  }

  lemma StopStep(s: State, a: Action, t: State, c: CallId)
    requires Next(s, a) == Some(t)
    ensures StopEnded(t, c) <==> StopEnded(s, c) || a == StepShutdown(c, CtxFires)
  {
    match a
    case StepHandle(d) => assert HandleStep(s, d) == Some(t);
    case StepFlush(d, b) => assert FlushStep(s, d, b) == Some(t);
    case StepShutdown(d, b) => assert ShutdownStep(s, d, b) == Some(t);
    case StepWorker(w) => assert WorkerStep(s, w) == Some(t);
    case _ =>
  }

  lemma {:induction false} StopRun(s: State, run: seq<Action>, t: State, c: CallId)
    requires Exec(s, run) == Some(t)
    ensures StopEnded(t, c) <==> StopEnded(s, c) || Fires(run, StepShutdown(c, CtxFires))
    decreases |run|
  {
    if run != [] {
      var u := Next(s, run[0]).value;
      StopStep(s, run[0], u, c);
      StopRun(u, run[1..], t, c);
      FiresCons(run[0], run[1..], StepShutdown(c, CtxFires));
      assert run == [run[0]] + run[1..];
    }
  }

  /** A Shutdown that has returned did so without the worker exactly when its context
      fired, and then with the context's error. */
  lemma ShutdownCtxExactly(size: int, run: seq<Action>, t: State, c: CallId)
    requires Exec(Init(size), run) == Some(t) && c in t.shutdowns && t.shutdowns[c].SReturned?
    ensures Fires(run, StepShutdown(c, CtxFires)) <==> !t.shutdowns[c].drained
    ensures Fires(run, StepShutdown(c, CtxFires)) ==> t.shutdowns[c].res == Fail(CtxDone)
  {
    StopRun(Init(size), run, t, c);
    assert Reachable(size, t);
    ReachableTells(size, t);
  }

  // ---- the slice ----

  /** A Flush whose slice has expired tries again: with room in the queue, no writer and
      the handler running, its own steps alone put its barrier in the queue. */
  lemma FlushRetries(s: State, f: CallId) returns (t: State)
    requires f in s.flushes && s.flushes[f].pc.FTimedOut?
    requires s.phase.Running? && !s.writer && !s.workerDone && |s.queue| < s.cap
    ensures Exec(s, Again(f, 6)) == Some(t)
    ensures f in t.flushes && t.flushes[f].pc.FAwait? && t.queue == s.queue + [Barrier(f)]
  {
    var s1 := Goes(s, f);
    var s2 := Goes(s1, f);
    var s3 := Goes(s2, f);
    var s4 := Goes(s3, f);
    var s5 := Goes(s4, f);
    t := Goes(s5, f);
    GoesOn(s5, f, t, 0, t);
    GoesOn(s4, f, s5, 1, t);
    GoesOn(s3, f, s4, 2, t);
    GoesOn(s2, f, s3, 3, t);
    GoesOn(s1, f, s2, 4, t);
    GoesOn(s, f, s1, 5, t);
  }

  function Again(f: CallId, n: nat): seq<Action> {
    if n == 0 then [] else [StepFlush(f, Go)] + Again(f, n - 1)
  }

  lemma Goes(s: State, f: CallId) returns (t: State)
    requires f in s.flushes && FlushCan(s, f, s.flushes[f].pc, Go)
    ensures FlushStep(s, f, Go) == Some(t) && f in t.flushes
    ensures t.phase == s.phase && t.writer == s.writer && t.workerDone == s.workerDone && t.cap == s.cap
    ensures t.flushes[f].pc == FlushGoes(s, f, s.flushes[f].pc, Go)
    ensures t.queue == s.queue + (if t.flushes[f].pc.FSent? then [Barrier(f)] else [])
  {
    t := FlushStep(s, f, Go).value;
  }

  lemma GoesOn(s: State, f: CallId, t: State, n: nat, u: State)
    requires FlushStep(s, f, Go) == Some(t) && Exec(t, Again(f, n)) == Some(u)
    ensures Exec(s, Again(f, n + 1)) == Some(u)
  {
    assert Again(f, n + 1)[0] == StepFlush(f, Go) && Again(f, n + 1)[1..] == Again(f, n);
  }
}
