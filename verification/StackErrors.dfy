/** Across two stacked buffers no failure goes uncounted: what the inner buffer drops or
    refuses is what the outer one counts as downstream errors. */
module StackErrors {
  import opened Basics
  import opened Counting
  import opened Errors
  import opened Buffer
  import opened BufferInvariant
  import opened BufferErrors
  import opened Stack
  import opened StackInvariant
  import opened StackGuarantees

  predicate NotTaken(h: Handle) {
    h.pc.HReturned? && h.pc.res.Fail?
  }

  /** The outer worker is about to be told that the inner buffer did not take its record. */
  predicate Unanswered(outer: State, inner: State) {
    && outer.worker.WHold? && outer.worker.item.Record?
    && outer.worker.item.call in inner.handles && NotTaken(inner.handles[outer.worker.item.call])
  }

  ghost predicate Balanced(outer: State, inner: State) {
    outer.handlerErrors + One(outer.worker.WFailed?) + One(Unanswered(outer, inner)) == Count(inner.handles, NotTaken)
  }

  // ---- steps of the outer buffer ----

  /** A record the outer worker takes from its queue has never been handed down. */
  lemma TakenIsNew(outer: State, t: State, inner: State)
    requires Linked(outer, inner) && Inv(outer) && Inv(t)
    requires t.worker.WHold? && t.worker.item.Record? && Hand(outer.worker) == [] && t.done == outer.done
    ensures t.worker.item.call !in inner.handles
  {
    var it := t.worker.item;
    if it.call in inner.handles {
      var r := RecordOf(it.call, inner.handles[it.call]);
      assert r in outer.done;
      SameCallSameItem(t, r, it);
      HeldIsNew(t);
      assert false;
    }
  }

  lemma HandMoves(s: State, a: Action, t: State)
    requires Next(s, a) == Some(t) && !(a.StepWorker? && a.w.Returned?)
    ensures t.worker == s.worker || (s.worker.WHold? && s.worker.item.Barrier? && !t.worker.WHold?)
            || (Hand(s.worker) == [] && t.done == s.done)
  {
    match a
    case StepHandle(c) => assert HandleStep(s, c) == Some(t);
    case StepFlush(c, b) => assert FlushStep(s, c, b) == Some(t);
    case StepShutdown(c, b) => assert ShutdownStep(s, c, b) == Some(t);
    case StepWorker(w) => assert WorkerStep(s, w) == Some(t);
    case _ =>
  }

  lemma OuterStep(outer: State, a: Action, t: State, inner: State)
    requires Linked(outer, inner) && Inv(outer) && Balanced(outer, inner) && Next(outer, a) == Some(t)
    requires !(a.StepWorker? && a.w.Returned?)
    ensures Balanced(t, inner)
  {
    NextKeeps(outer, a, t);
    CountStep(outer, a, t);
    HandMoves(outer, a, t);
    if Hand(outer.worker) == [] && t.done == outer.done && t.worker.WHold? && t.worker.item.Record? {
      TakenIsNew(outer, t, inner);
    }
  }

  lemma OuterAnswered(outer: State, res: Result, t: State, inner: State)
    requires Balanced(outer, inner) && Next(outer, StepWorker(Returned(res))) == Some(t)
    requires outer.worker.WHold? && outer.worker.item.Record? && outer.worker.item.call in inner.handles
    requires inner.handles[outer.worker.item.call].pc == HReturned(res)
    ensures Balanced(t, inner)
  {
    CountStep(outer, StepWorker(Returned(res)), t);
    assert WorkerStep(outer, Returned(res)) == Some(t);
  }

  // ---- steps of the inner buffer ----

  /** A Handle call of the inner buffer that has not come back is the one the outer worker
      waits for. */
  lemma WaitedFor(outer: State, inner: State, c: CallId)
    requires Linked(outer, inner) && c in inner.handles && !inner.handles[c].pc.HReturned?
    ensures outer.worker.WHold? && outer.worker.item == RecordOf(c, inner.handles[c])
  {
    assert RecordOf(c, inner.handles[c]) in outer.done + Hand(outer.worker);
  }

  lemma InnerHandle(outer: State, inner: State, c: CallId, t: State)
    requires Linked(outer, inner) && Balanced(outer, inner) && HandleStep(inner, c) == Some(t)
    ensures Balanced(outer, t)
  {
    WaitedFor(outer, inner, c);
    CountUpdate(inner.handles, c, t.handles[c], NotTaken);
  }

  lemma InnerStep(outer: State, inner: State, a: Action, t: State)
    requires Linked(outer, inner) && Balanced(outer, inner) && Next(inner, a) == Some(t)
    requires !a.EnterHandle?
    ensures Balanced(outer, t)
  {
    match a
    case StepHandle(c) => InnerHandle(outer, inner, c, t);
    case StepFlush(c, b) => assert FlushStep(inner, c, b) == Some(t);
    case StepShutdown(c, b) => assert ShutdownStep(inner, c, b) == Some(t);
    case StepWorker(w) => assert WorkerStep(inner, w) == Some(t);
    case _ =>
  }

  lemma InnerEntered(outer: State, inner: State, t: State)
    requires Balanced(outer, inner) && outer.worker.WHold? && outer.worker.item.Record?
    requires var it := outer.worker.item; Next(inner, EnterHandle(it.call, it.ctx, it.view, it.body)) == Some(t)
    ensures Balanced(outer, t)
  {
    var it := outer.worker.item;
    CountUpdate(inner.handles, it.call, t.handles[it.call], NotTaken);
  }

  // ---- steps of the stack ----

  /** A step of the group itself starts a Flush or a Shutdown of a buffer at most. */
  predicate SameWork(s: State, t: State) {
    t.handles == s.handles && t.worker == s.worker && t.handlerErrors == s.handlerErrors
  }

  lemma GroupStep(k: Stack, a: StackAction, m: Stack)
    requires StackNext(k, a) == Some(m) && !a.Own? && !a.Forward? && !a.Answer?
    ensures SameWork(k.first, m.first) && SameWork(k.second, m.second) && m.outerFirst == k.outerFirst
  {
    match a
    case GroupFlushStep(f) => assert GroupFlushGo(k, f) == Some(m);
    case StopStep(c, b) => assert StopGo(k, c, b) == Some(m);
    case Drain => assert DrainGo(k) == Some(m);
    case _ =>
  }

  lemma StackStep(k: Stack, a: StackAction, m: Stack)
    requires StackInv(k) && Balanced(Outer(k), Inner(k)) && StackNext(k, a) == Some(m)
    ensures Balanced(Outer(m), Inner(m))
  {
    match a
    case Own(atFirst, x) =>
      if atFirst == k.outerFirst {
        OuterStep(Outer(k), x, Outer(m), Inner(k));
      } else {
        InnerStep(Outer(k), Inner(k), x, Inner(m));
      }
    case Forward => InnerEntered(Outer(k), Inner(k), Inner(m));
    case Answer =>
      var pc := Inner(k).handles[Outer(k).worker.item.call].pc;
      OuterAnswered(Outer(k), pc.res, Outer(m), Inner(k));
    case _ => GroupStep(k, a, m);
  }

  lemma {:induction false} StackRun(k: Stack, run: seq<StackAction>, m: Stack)
    requires StackInv(k) && Balanced(Outer(k), Inner(k)) && StackExec(k, run) == Some(m)
    ensures Balanced(Outer(m), Inner(m))
    decreases |run|
  {
    if run != [] {
      var u := StackNext(k, run[0]).value;
      StackNextKeeps(k, run[0], u);
      StackStep(k, run[0], u);
      StackRun(u, run[1..], m);
    }
  }

  lemma Outcomes(inner: State)
    requires CountInv(inner)
    ensures Count(inner.handles, NotTaken) == inner.dropped + inner.rejected
  {
    var dropped, rejected := Matching(inner.handles, HandleDropped), Matching(inner.handles, HandleRejected);
    assert Matching(inner.handles, NotTaken) == dropped + rejected;
    assert dropped !! rejected;
  }

  /** At every moment the outer buffer's HandlerErrors, with the failure its worker is
      about to count or to be told of, is exactly what the inner buffer has dropped and
      refused. */
  lemma OuterCountsInner(k: Stack)
    requires StackReachable(k)
    ensures (Outer(k).handlerErrors + One(Outer(k).worker.WFailed?) + One(Unanswered(Outer(k), Inner(k)))
             == Inner(k).dropped + Inner(k).rejected)
  {
    var run, outerFirst, m, n :| StackExec(Start(outerFirst, m, n), run) == Some(k);
    var start := Start(outerFirst, m, n);
    StartInv(outerFirst, m, n);
    CountZero(Inner(start).handles, NotTaken);
    StackRun(start, run, k);
    StackReachableInv(k);
    Outcomes(Inner(k));
  }
}
