/** Invariants of the two stacked buffers and their lifecycle group. */
module StackInvariant {
  import opened Basics
  import opened Counting
  import opened Errors
  import opened Buffer
  import opened BufferInvariant
  import opened BufferGuarantees
  import opened Stack

  /** What one step of the stack does to one of its buffers. */
  ghost predicate Moves(s: State, t: State) {
    s == t || exists a :: Next(s, a) == Some(t)
  }

  lemma MovesKeep(s: State, t: State)
    requires Inv(s) && Moves(s, t)
    ensures Inv(t) && Grows(s, t)
  {
    if s != t {
      var a :| Next(s, a) == Some(t);
      NextKeeps(s, a, t);
      NextGrows(s, a, t);
    }
  }

  ghost predicate BothMove(k: Stack, m: Stack) {
    Moves(k.first, m.first) && Moves(k.second, m.second) && m.outerFirst == k.outerFirst
  }

  lemma BuffersMove(k: Stack, a: StackAction, m: Stack)
    requires StackNext(k, a) == Some(m)
    ensures BothMove(k, m)
  {
    match a
    case GroupFlushStep(f) => FlushMovesBoth(k, f, m);
    case StopStep(c, b) => StopMovesNone(k, c, b, m);
    case Drain => DrainMovesBoth(k, m);
    case _ =>
  }

  lemma FlushMovesBoth(k: Stack, f: CallId, m: Stack)
    requires GroupFlushGo(k, f) == Some(m)
    ensures BothMove(k, m)
  {
  }

  lemma StopMovesNone(k: Stack, c: CallId, b: Branch, m: Stack)
    requires StopGo(k, c, b) == Some(m)
    ensures m.first == k.first && m.second == k.second && m.outerFirst == k.outerFirst
  {
  }

  lemma DrainMovesBoth(k: Stack, m: Stack)
    requires DrainGo(k) == Some(m)
    ensures BothMove(k, m)
  {
  }

  /** The inner buffer's Handle calls are the records the outer worker has handed
      on; the ones it is done with have come back. */
  ghost predicate Linked(outer: State, inner: State) {
    && (forall c | c in inner.handles :: RecordOf(c, inner.handles[c]) in outer.done + Hand(outer.worker))
    && (forall it | it in outer.done && it.Record? ::
          && it.call in inner.handles
          && inner.handles[it.call].pc.HReturned?
          && RecordOf(it.call, inner.handles[it.call]) == it)
  }

  ghost predicate LinkInv(k: Stack) {
    Linked(Outer(k), Inner(k))
  }

  /** The group's own control: once, stopping, the drainer and its callers. */
  ghost predicate GroupInv(k: Stack) {
    && (k.once.Ran? <==> !k.drainer.GNone?)
    && k.spawned == One(k.once.Ran?)
    && (k.once.Ran? ==> k.stopping)
    && (k.stopping ==> !k.once.NotRun?)
    && (k.doneCh <==> k.drainer.GEnd?)
    && (forall c | c in k.stoppers ::
          && (k.stoppers[c].CStore? || k.stoppers[c].CSpawn? ==> k.once == RunBy(c))
          && (k.stoppers[c].CSpawn? ==> k.stopping)
          && (k.stoppers[c].CWaiting? ==> k.once.Ran?)
          && (k.stoppers[c].CReturned? ==>
                if k.stoppers[c].viaDone then k.doneCh && k.stoppers[c].res == k.err
                else k.stoppers[c].res == Fail(CtxDone)))
  }

  ghost predicate DrainedBy(s: State) {
    Finished(s) && s.shutdowns[DRAIN].drained
  }

  ghost predicate OnlyDrain(s: State) {
    && s.shutdowns.Keys <= {DRAIN}
    && (Finished(s) ==> s.shutdowns[DRAIN].drained)
  }

  ghost predicate AtOrPastSecond(d: Drainer) {
    d.GSecond? || d.GStore? || d.GClose? || d.GEnd?
  }

  ghost predicate PastSecond(d: Drainer) {
    d.GStore? || d.GClose? || d.GEnd?
  }

  /** The error the drainer ends with: the first translated one in handler order. */
  ghost function FinalErr(k: Stack): Result
    requires Finished(k.first) && Finished(k.second)
  {
    Keep(Translate(k.first.shutdowns[DRAIN].res), k.second.shutdowns[DRAIN].res)
  }

  /** The drainer shuts the first handler down to completion before it touches the
      second, and neither before stopping is set. */
  ghost predicate DrainInv(k: Stack) {
    && OnlyDrain(k.first) && OnlyDrain(k.second)
    && (k.first.shutdowns != map[] ==> !k.drainer.GNone? && !k.drainer.GStart?)
    && (k.second.shutdowns != map[] ==> AtOrPastSecond(k.drainer))
    && (AtOrPastSecond(k.drainer) ==> DrainedBy(k.first))
    && (PastSecond(k.drainer) ==> DrainedBy(k.second))
    && (k.drainer.GSecond? ==> k.drainer.first == Translate(k.first.shutdowns[DRAIN].res))
    && (k.drainer.GStore? ==> k.drainer.err == FinalErr(k))
    && (k.drainer.GClose? || k.drainer.GEnd? ==> k.err == FinalErr(k))
  }

  /** With the outer buffer first, the inner one leaves running only after the
      outer worker is gone, and it never refuses a forwarded record. */
  ghost predicate NoRefusalInv(k: Stack) {
    k.outerFirst ==>
      && (k.second.phase.Running? || k.first.workerDone)
      && (forall c | c in k.second.handles :: NotRefused(k.second.handles[c].pc))
  }

  ghost predicate NotRefused(pc: HandlePc) {
    !pc.HRefused? && !pc.HCountRejected? && pc != HReturned(Fail(HandlerShutdown))
  }

  /** The item is a record that came back from the inner Handle and, if accepted
      there, sits among the inner buffer's first n items. */
  ghost predicate PassedOn(k: Stack, it: Item, n: nat)
    requires n <= |k.second.sent|
  {
    it.Record? ==>
      && it.call in k.second.handles
      && k.second.handles[it.call].pc.HReturned?
      && (k.second.handles[it.call].pc.res.Nil? ==> RecordOf(it.call, k.second.handles[it.call]) in k.second.sent[..n])
  }

  /** The record is past the inner buffer: at the sink, or dropped there. */
  ghost predicate Settled(k: Stack, it: Item) {
    it.Record? ==>
      && it.call in k.second.handles
      && k.second.handles[it.call].pc.HReturned?
      && (k.second.handles[it.call].pc.res.Nil? ==> RecordOf(it.call, k.second.handles[it.call]) in k.second.done)
  }

  /** What a group flush has established about the records the outer buffer had
      accepted when it began, stage by stage. */
  ghost predicate FlushEntry(k: Stack, f: CallId, p: GroupFlush) {
    && p.mark <= |k.first.sent|
    && (p.pc.PFirst? || p.pc.PSecond? ==> f in k.first.flushes && p.mark <= k.first.flushes[f].mark)
    && (p.pc.PSecond? && p.pc.first.Nil? ==>
          && f in k.second.flushes
          && k.second.flushes[f].mark <= |k.second.sent|
          && forall i | 0 <= i < p.mark :: PassedOn(k, k.first.sent[i], k.second.flushes[f].mark))
    && (p.pc.PReturned? && p.pc.res.Nil? ==>
          forall i | 0 <= i < p.mark :: Settled(k, k.first.sent[i]))
  }

  ghost predicate FlushInv(k: Stack) {
    k.outerFirst ==> forall f | f in k.flushers :: FlushEntry(k, f, k.flushers[f])
  }

  ghost predicate StackInv(k: Stack) {
    Inv(k.first) && Inv(k.second) && LinkInv(k) && GroupInv(k) && DrainInv(k) && NoRefusalInv(k) && FlushInv(k)
  }

  lemma StartInv(outerFirst: bool, m: int, n: int)
    ensures StackInv(Start(outerFirst, m, n))
  {
    InitInv(if outerFirst then m else n);
    InitInv(if outerFirst then n else m);
  }

  // ---- each part is kept by every step ----

  lemma GroupKept(k: Stack, a: StackAction, m: Stack)
    requires GroupInv(k) && StackNext(k, a) == Some(m)
    ensures GroupInv(m)
  {
    match a
    case GroupFlushStep(f) => assert GroupFlushGo(k, f) == Some(m);
    case StopStep(c, b) => StopKeepsGroup(k, c, b, m);
    case Drain => assert DrainGo(k) == Some(m);
    case _ =>
  }

  lemma StopKeepsGroup(k: Stack, c: CallId, b: Branch, m: Stack)
    requires GroupInv(k) && StopGo(k, c, b) == Some(m)
    ensures GroupInv(m)
  {
  }

  /** A step of a buffer that is not the start of a Shutdown leaves its Shutdown
      calls where the drainer knows them to be. */
  lemma OwnShutdowns(s: State, a: Action, t: State)
    requires OnlyDrain(s) && Inv(s) && Next(s, a) == Some(t)
    requires !a.EnterShutdown? && !(a.StepShutdown? && a.b == CtxFires)
    ensures OnlyDrain(t)
    ensures t.shutdowns.Keys == s.shutdowns.Keys
    ensures Finished(s) ==> t.shutdowns == s.shutdowns
  {
    match a
    case StepHandle(c) => assert HandleStep(s, c) == Some(t);
    case StepFlush(c, b) => assert FlushStep(s, c, b) == Some(t);
    case StepShutdown(c, b) => assert ShutdownStep(s, c, b) == Some(t);
    case StepWorker(w) => assert WorkerStep(s, w) == Some(t);
    case _ =>
  }

  ghost predicate ShutdownsKept(s: State, t: State) {
    OnlyDrain(t) && t.shutdowns.Keys == s.shutdowns.Keys && (Finished(s) ==> t.shutdowns == s.shutdowns)
  }

  lemma OwnShutdownsKept(k: Stack, atFirst: bool, x: Action, m: Stack)
    requires Inv(k.first) && Inv(k.second) && OnlyDrain(k.first) && OnlyDrain(k.second)
    requires OwnStep(k, atFirst, x) == Some(m)
    ensures ShutdownsKept(k.first, m.first) && ShutdownsKept(k.second, m.second)
  {
    if atFirst {
      OwnShutdowns(k.first, x, m.first);
    } else {
      OwnShutdowns(k.second, x, m.second);
    }
  }

  lemma HandOverKeepsShutdowns(k: Stack, m: Stack)
    requires ForwardStep(k) == Some(m) || AnswerStep(k) == Some(m)
    ensures m.first.shutdowns == k.first.shutdowns && m.second.shutdowns == k.second.shutdowns
  {
  }

  lemma FlushKeepsShutdowns(k: Stack, f: CallId, m: Stack)
    requires GroupFlushGo(k, f) == Some(m)
    ensures m.first.shutdowns == k.first.shutdowns && m.second.shutdowns == k.second.shutdowns
  {
  }

  lemma ShutdownsOnlyByDrain(k: Stack, a: StackAction, m: Stack)
    requires Inv(k.first) && Inv(k.second) && OnlyDrain(k.first) && OnlyDrain(k.second)
    requires StackNext(k, a) == Some(m) && !a.Drain?
    ensures ShutdownsKept(k.first, m.first) && ShutdownsKept(k.second, m.second)
  {
    match a
    case Own(atFirst, x) => OwnShutdownsKept(k, atFirst, x, m);
    case GroupFlushStep(f) => FlushKeepsShutdowns(k, f, m);
    case StopStep(c, b) => StopMovesNone(k, c, b, m);
    case Answer => HandOverKeepsShutdowns(k, m);
    case Forward => HandOverKeepsShutdowns(k, m);
    case _ =>
  }

  lemma DrainKept(k: Stack, a: StackAction, m: Stack)
    requires Inv(k.first) && Inv(k.second) && GroupInv(k) && DrainInv(k) && StackNext(k, a) == Some(m)
    ensures DrainInv(m)
  {
    if a.Drain? {
      DrainKeepsDrain(k, m);
    } else {
      ShutdownsOnlyByDrain(k, a, m);
      DrainerUnmoved(k, a, m);
      OthersKeepDrain(k, m);
    }
  }

  lemma OthersKeepDrain(k: Stack, m: Stack)
    requires DrainInv(k)
    requires ShutdownsKept(k.first, m.first) && ShutdownsKept(k.second, m.second)
    requires m.err == k.err
    requires m.drainer == k.drainer || (k.drainer.GNone? && m.drainer.GStart?)
    ensures DrainInv(m)
  {
  }

  lemma DrainKeepsDrain(k: Stack, m: Stack)
    requires DrainInv(k) && DrainGo(k) == Some(m)
    ensures DrainInv(m)
  {
  }

  lemma DrainerUnmoved(k: Stack, a: StackAction, m: Stack)
    requires GroupInv(k) && StackNext(k, a) == Some(m) && !a.Drain?
    ensures m.err == k.err
    ensures m.drainer == k.drainer || (k.drainer.GNone? && m.drainer.GStart?)
  {
    match a
    case GroupFlushStep(f) => assert GroupFlushGo(k, f) == Some(m);
    case StopStep(c, b) => assert StopGo(k, c, b) == Some(m);
    case _ =>
  }

  // ---- the link between the buffers ----

  /** A buffer step other than the return of a downstream call finishes no record
      and loses none. */
  ghost predicate HandsKept(s: State, t: State) {
    && (forall it | it in s.done + Hand(s.worker) :: it in t.done + Hand(t.worker))
    && (forall it | it in t.done && it.Record? :: it in s.done)
  }

  lemma StepKeepsHands(s: State, a: Action, t: State)
    requires Next(s, a) == Some(t) && !(a.StepWorker? && a.w.Returned?)
    ensures HandsKept(s, t)
  {
    match a
    case StepHandle(c) => assert HandleStep(s, c) == Some(t);
    case StepFlush(c, b) => assert FlushStep(s, c, b) == Some(t);
    case StepShutdown(c, b) => assert ShutdownStep(s, c, b) == Some(t);
    case StepWorker(w) => WorkerKeepsHands(s, w, t);
    case _ =>
  }

  lemma WorkerKeepsHands(s: State, w: WorkerChoice, t: State)
    requires WorkerStep(s, w) == Some(t) && !w.Returned?
    ensures HandsKept(s, t)
  {
    if s.worker.WHold? {
      assert t.done == s.done + Hand(s.worker);
    } else {
      assert t.done == s.done;
    }
  }

  lemma StepKeepsHandles(s: State, a: Action, t: State)
    requires Next(s, a) == Some(t) && !a.EnterHandle?
    ensures t.handles.Keys == s.handles.Keys
  {
    match a
    case StepHandle(c) => assert HandleStep(s, c) == Some(t);
    case StepFlush(c, b) => assert FlushStep(s, c, b) == Some(t);
    case StepShutdown(c, b) => assert ShutdownStep(s, c, b) == Some(t);
    case StepWorker(w) => assert WorkerStep(s, w) == Some(t);
    case _ =>
  }

  lemma QuietStep(k: Stack, a: StackAction, m: Stack)
    requires StackNext(k, a) == Some(m) && !a.Forward? && !a.Answer?
    ensures HandsKept(Outer(k), Outer(m)) && Inner(m).handles.Keys == Inner(k).handles.Keys
  {
    match a
    case Own(atFirst, x) =>
      if atFirst == k.outerFirst {
        StepKeepsHands(Outer(k), x, Outer(m));
      } else {
        StepKeepsHandles(Inner(k), x, Inner(m));
      }
    case GroupFlushStep(f) => assert GroupFlushGo(k, f) == Some(m);
    case StopStep(c, b) => StopMovesNone(k, c, b, m);
    case Drain => assert DrainGo(k) == Some(m);
    case _ =>
  }

  lemma LinkKept(k: Stack, a: StackAction, m: Stack)
    requires Inv(k.first) && Inv(k.second) && LinkInv(k) && StackNext(k, a) == Some(m)
    ensures LinkInv(m)
  {
    match a
    case Forward => ForwardKeepsLink(k, m);
    case Answer => AnswerKeepsLink(k, m);
    case _ =>
      BuffersMove(k, a, m);
      MovesKeep(k.first, m.first);
      MovesKeep(k.second, m.second);
      QuietStep(k, a, m);
      QuietKeepsLink(Outer(k), Outer(m), Inner(k), Inner(m));
  }

  lemma QuietKeepsLink(outer: State, outer': State, inner: State, inner': State)
    requires Linked(outer, inner) && HandsKept(outer, outer')
    requires Grows(inner, inner') && inner'.handles.Keys == inner.handles.Keys
    ensures Linked(outer', inner')
  {
  }

  lemma ForwardKeepsLink(k: Stack, m: Stack)
    requires Inv(Outer(k)) && LinkInv(k) && ForwardStep(k) == Some(m)
    ensures LinkInv(m)
  {
    assert Outer(m) == Outer(k);
    HeldContext(Outer(k));
  }

  /** A record in the worker's hand carries a context that is already defaulted. */
  lemma HeldContext(s: State)
    requires Inv(s) && s.worker.WHold? && s.worker.item.Record?
    ensures OrBackground(s.worker.item.ctx) == s.worker.item.ctx
  {
    assert s.sent[|s.done|] == s.worker.item;
    assert s.worker.item in s.sent;
  }

  lemma AnswerKeepsLink(k: Stack, m: Stack)
    requires LinkInv(k) && Inv(Outer(k)) && AnswerStep(k) == Some(m)
    ensures LinkInv(m)
  {
    var it := Outer(k).worker.item;
    assert Inner(m) == Inner(k);
    assert Outer(m).done == Outer(k).done + [it];
    assert Outer(m).done + Hand(Outer(m).worker) == Outer(k).done + Hand(Outer(k).worker);
    var r := RecordOf(it.call, Inner(k).handles[it.call]);
    SameCallSameItem(Outer(k), r, it);
  }

  /** In one buffer a call has one record. */
  lemma SameCallSameItem(s: State, r: Item, it: Item)
    requires Inv(s) && r in s.done + Hand(s.worker) && it in s.done + Hand(s.worker)
    requires r.Record? && it.Record? && r.call == it.call
    ensures r == it
  {
    assert r in s.sent && it in s.sent;
  }

  // ---- no refusal ----

  lemma LeavesRunning(s: State, a: Action, t: State)
    requires PhaseInv(s) && Next(s, a) == Some(t) && s.phase.Running?
    ensures t.phase.Running? || (a.StepShutdown? && a.c in s.shutdowns)
  {
    match a
    case StepHandle(c) => assert HandleStep(s, c) == Some(t);
    case StepFlush(c, b) => assert FlushStep(s, c, b) == Some(t);
    case StepWorker(w) => assert WorkerStep(s, w) == Some(t);
    case _ =>
  }

  lemma RefusedWhenDown(s: State, a: Action, t: State)
    requires Next(s, a) == Some(t) && forall c | c in s.handles :: NotRefused(s.handles[c].pc)
    ensures forall c | c in t.handles ::
              NotRefused(t.handles[c].pc) || (c in s.handles && s.handles[c].pc.HReading? && !s.phase.Running?)
  {
    match a
    case StepHandle(c) => assert HandleStep(s, c) == Some(t);
    case StepFlush(c, b) => assert FlushStep(s, c, b) == Some(t);
    case StepShutdown(c, b) => assert ShutdownStep(s, c, b) == Some(t);
    case StepWorker(w) => assert WorkerStep(s, w) == Some(t);
    case _ =>
  }

  /** Once the outer worker is gone everything it forwarded has come back. */
  lemma ForwardedReturned(k: Stack)
    requires k.outerFirst && Inv(k.first) && LinkInv(k) && k.first.workerDone
    ensures forall c | c in k.second.handles :: k.second.handles[c].pc.HReturned?
  {
    assert k.first.done + Hand(k.first.worker) == k.first.done;
  }

  lemma NoRefusalKept(k: Stack, a: StackAction, m: Stack)
    requires Inv(k.first) && Inv(k.second) && LinkInv(k) && DrainInv(k) && NoRefusalInv(k)
    requires StackNext(k, a) == Some(m)
    ensures NoRefusalInv(m)
  {
    BuffersMove(k, a, m);
    if k.outerFirst {
      MovesKeep(k.first, m.first);
      SecondLeavesLast(k, a, m);
      if k.first.workerDone {
        ForwardedReturned(k);
      }
      if k.second != m.second {
        var x :| Next(k.second, x) == Some(m.second);
        RefusedWhenDown(k.second, x, m.second);
      }
    }
  }

  lemma SecondLeavesLast(k: Stack, a: StackAction, m: Stack)
    requires k.outerFirst && Inv(k.first) && Inv(k.second) && DrainInv(k) && NoRefusalInv(k)
    requires StackNext(k, a) == Some(m)
    ensures m.second.phase.Running? || k.first.workerDone
  {
    match a
    case Own(atFirst, x) =>
      if !atFirst && k.second.phase.Running? {
        LeavesRunning(k.second, x, m.second);
      }
    case GroupFlushStep(f) => assert GroupFlushGo(k, f) == Some(m);
    case StopStep(c, b) => StopMovesNone(k, c, b, m);
    case Drain => assert DrainGo(k) == Some(m);
    case _ =>
  }

  // ---- group flush ----

  lemma EntryStable(k: Stack, m: Stack, f: CallId, p: GroupFlush)
    requires FlushEntry(k, f, p)
    requires Grows(k.first, m.first) && Grows(k.second, m.second)
    ensures FlushEntry(m, f, p)
  {
    forall i | 0 <= i < p.mark ensures m.first.sent[i] == k.first.sent[i] {
    }
    if p.pc.PSecond? && p.pc.first.Nil? {
      var n := k.second.flushes[f].mark;
      assert m.second.sent[..n] == k.second.sent[..n];
      assert forall i | 0 <= i < p.mark :: PassedOn(k, k.first.sent[i], n);
      forall i | 0 <= i < p.mark ensures PassedOn(m, m.first.sent[i], n) {
        assert PassedOn(k, k.first.sent[i], n);
      }
    }
    if p.pc.PReturned? && p.pc.res.Nil? {
      forall i | 0 <= i < p.mark ensures Settled(m, m.first.sent[i]) {
        assert Settled(k, k.first.sent[i]);
      }
    }
  }

  /** The first buffer's Flush came back nil: all it had accepted is passed on. */
  lemma FirstFlushed(k: Stack, f: CallId, mark: nat, n: nat)
    requires k.outerFirst && Inv(k.first) && Inv(k.second) && LinkInv(k)
    requires f in k.first.flushes && k.first.flushes[f].pc.FReturned? && k.first.flushes[f].pc.res.Nil?
    requires mark <= k.first.flushes[f].mark && n == |k.second.sent|
    ensures mark <= |k.first.sent| && forall i | 0 <= i < mark :: PassedOn(k, k.first.sent[i], n)
  {
    MarkIsDone(k.first, f);
    assert k.second.sent[..n] == k.second.sent;
    forall i | 0 <= i < mark ensures PassedOn(k, k.first.sent[i], n) {
      var it := k.first.sent[i];
      assert k.first.done[i] == it;
    }
  }

  /** ... and then the second one's: all of it is settled. */
  lemma SecondFlushed(k: Stack, f: CallId, mark: nat)
    requires k.outerFirst && Inv(k.second) && f in k.second.flushes && mark <= |k.first.sent|
    requires k.second.flushes[f].pc.FReturned? && k.second.flushes[f].pc.res.Nil?
    requires k.second.flushes[f].mark <= |k.second.sent|
    requires forall i | 0 <= i < mark :: PassedOn(k, k.first.sent[i], k.second.flushes[f].mark)
    ensures forall i | 0 <= i < mark :: Settled(k, k.first.sent[i])
  {
    MarkIsDone(k.second, f);
    var n := k.second.flushes[f].mark;
    forall it | it in k.second.sent[..n] ensures it in k.second.done {
      var j :| 0 <= j < n && k.second.sent[j] == it;
      assert k.second.done[j] == it;
    }
    forall i | 0 <= i < mark ensures Settled(k, k.first.sent[i]) {
      assert PassedOn(k, k.first.sent[i], n);
    }
  }

  lemma ReachesSecond(k: Stack, f: CallId, m: Stack)
    requires k.outerFirst && Inv(k.first) && Inv(k.second) && LinkInv(k)
    requires f in k.flushers && k.flushers[f].pc.PFirst? && FlushEntry(k, f, k.flushers[f])
    requires GroupFlushGo(k, f) == Some(m)
    ensures f in m.flushers && FlushEntry(m, f, m.flushers[f])
  {
    var p := k.flushers[f];
    var n := |k.second.sent|;
    assert m.second.flushes[f].mark == n && m.first == k.first && m.second.sent == k.second.sent;
    assert m.second.handles == k.second.handles;
    if k.first.flushes[f].pc.res.Nil? {
      FirstFlushed(k, f, p.mark, n);
      forall i | 0 <= i < p.mark ensures PassedOn(m, m.first.sent[i], n) {
        assert PassedOn(k, k.first.sent[i], n);
      }
    }
  }

  lemma LeavesSecond(k: Stack, f: CallId, m: Stack)
    requires k.outerFirst && Inv(k.second)
    requires f in k.flushers && k.flushers[f].pc.PSecond? && FlushEntry(k, f, k.flushers[f])
    requires GroupFlushGo(k, f) == Some(m)
    ensures f in m.flushers && FlushEntry(m, f, m.flushers[f])
  {
    var p := k.flushers[f];
    assert m.first == k.first && m.second == k.second;
    if p.pc.first.Nil? && k.second.flushes[f].pc.res.Nil? {
      SecondFlushed(k, f, p.mark);
      forall i | 0 <= i < p.mark ensures Settled(m, m.first.sent[i]) {
        assert Settled(k, k.first.sent[i]);
      }
    }
  }

  lemma FlushStepKeeps(k: Stack, f: CallId, m: Stack)
    requires k.outerFirst && Inv(k.first) && Inv(k.second) && LinkInv(k)
    requires f in k.flushers && FlushEntry(k, f, k.flushers[f])
    requires GroupFlushGo(k, f) == Some(m)
    ensures f in m.flushers && FlushEntry(m, f, m.flushers[f])
  {
    match k.flushers[f].pc
    case PFirst => ReachesSecond(k, f, m);
    case PSecond(_) => LeavesSecond(k, f, m);
    case PChecked => assert m.first.sent == k.first.sent && m.first.flushes[f].mark == |k.first.sent|;
    case _ =>
  }

  lemma FlushKept(k: Stack, a: StackAction, m: Stack)
    requires Inv(k.first) && Inv(k.second) && LinkInv(k) && FlushInv(k) && StackNext(k, a) == Some(m)
    ensures FlushInv(m)
  {
    BuffersMove(k, a, m);
    MovesKeep(k.first, m.first);
    MovesKeep(k.second, m.second);
    if k.outerFirst {
      FlushersOf(k, a, m);
      forall f | f in m.flushers ensures FlushEntry(m, f, m.flushers[f]) {
        if a == GroupFlushStep(f) {
          FlushStepKeeps(k, f, m);
        } else if f in k.flushers {
          EntryStable(k, m, f, k.flushers[f]);
        }
      }
    }
  }

  lemma FlushersOf(k: Stack, a: StackAction, m: Stack)
    requires StackNext(k, a) == Some(m)
    ensures forall f | f in m.flushers && f !in k.flushers ::
              m.flushers[f] == GroupFlush(|Outer(m).sent|, PEnter)
    ensures forall f | f in m.flushers && f in k.flushers && a != GroupFlushStep(f) :: m.flushers[f] == k.flushers[f]
    ensures forall f | f in k.flushers :: f in m.flushers && m.flushers[f].mark == k.flushers[f].mark
    ensures forall f | f in k.flushers && k.flushers[f].pc.PReturned? :: m.flushers[f] == k.flushers[f]
  {
    match a
    case GroupFlushStep(f) => assert GroupFlushGo(k, f) == Some(m);
    case StopStep(c, b) => assert StopGo(k, c, b) == Some(m);
    case Drain => assert DrainGo(k) == Some(m);
    case _ =>
  }

  lemma StackNextKeeps(k: Stack, a: StackAction, m: Stack)
    requires StackInv(k) && StackNext(k, a) == Some(m)
    ensures StackInv(m)
  {
    BuffersMove(k, a, m);
    MovesKeep(k.first, m.first);
    MovesKeep(k.second, m.second);
    LinkKept(k, a, m);
    GroupKept(k, a, m);
    DrainKept(k, a, m);
    NoRefusalKept(k, a, m);
    FlushKept(k, a, m);
  }

  lemma {:induction false} StackExecKeeps(k: Stack, run: seq<StackAction>, m: Stack)
    requires StackInv(k) && StackExec(k, run) == Some(m)
    ensures StackInv(m)
    decreases |run|
  {
    if run != [] {
      var u := StackNext(k, run[0]).value;
      StackNextKeeps(k, run[0], u);
      StackExecKeeps(u, run[1..], m);
    }
  }
}
