/** What every run of the pipeline keeps. */
module PipelineInvariant {
  import opened Basics
  import opened Errors
  import opened Counting
  import opened Pipeline
  import B = Buffer
  import BI = BufferInvariant
  import BG = BufferGuarantees
  import R = Rate
  import RR = RateRuns
  import RD = RateDebt

  /** Each call that got as far owns exactly one Handle call of the buffer, made with
      its own context, view and record, and remembers how that ended. */
  ghost predicate CallsInv(p: Pipe) {
    && (forall c :: c in p.buffer.handles <==> c in p.calls && InBuffer(p.calls[c]))
    && (forall c | c in p.calls && InBuffer(p.calls[c]) :: Matches(p.calls[c], p.buffer.handles[c]))
  }

  predicate Matches(l: LogCall, h: B.Handle) {
    && h.ctx == l.ctx && h.view == l.view && h.body == l.body
    && (l.pc.LCounting? ==> h.pc == B.HReturned(l.pc.res))
    && (l.pc.LDone? && l.pc.fate.Handed? ==> h.pc == B.HReturned(l.pc.fate.res))
  }

  ghost predicate CountersInv(p: Pipe) {
    && p.rejected == Count(p.calls, Refused)
    && |p.hook| == if p.hasHook then Count(p.calls, Counted) else 0
  }

  ghost predicate LimiterInv(p: Pipe) {
    && p.maxKeys >= 1
    && RR.Run(p.maxKeys, R.EMPTY, p.asked)
    && RR.After(p.maxKeys, R.EMPTY, p.asked) == p.limits
    && RD.Denied(RR.Verdicts(p.maxKeys, R.EMPTY, p.asked)) == Count(p.calls, Suppressed)
  }

  predicate Refusing(pc: B.HandlePc) {
    pc.HRefused? || pc.HCountRejected? || pc == B.HReturned(Fail(HandlerShutdown))
  }

  /** Nobody has asked the buffer to stop. */
  ghost predicate Calm(b: B.State) {
    && b.shutdowns == map[] && b.phase.Running?
    && forall c | c in b.handles :: !Refusing(b.handles[c].pc)
  }

  ghost predicate StopInv(p: Pipe) {
    p.stopping || Calm(p.buffer)
  }

  ghost predicate PipeInv(size: int, p: Pipe) {
    && BG.Reachable(size, p.buffer)
    && CallsInv(p) && CountersInv(p) && LimiterInv(p) && StopInv(p)
  }

  lemma InitInv(size: int, maxKeys: int, hasHook: bool)
    ensures PipeInv(size, Init(size, maxKeys, hasHook))
  {
    assert B.Exec(B.Init(size), []) == Some(B.Init(size));
    var none: map<CallId, LogCall> := map[];
    CountZero(none, Refused);
    CountZero(none, Counted);
    CountZero(none, Suppressed);
  }

  // ---- the buffer's own steps ----

  lemma ReachableNext(size: int, s: B.State, a: B.Action, t: B.State)
    requires BG.Reachable(size, s) && B.Next(s, a) == Some(t)
    ensures BG.Reachable(size, t)
  {
    var run :| B.Exec(B.Init(size), run) == Some(s);
    B.ExecOne(s, a, t);
    B.ExecThrough(B.Init(size), run, s, [a]);
  }

  lemma StaysCalm(size: int, s: B.State, a: B.Action, t: B.State)
    requires BG.Reachable(size, s) && B.Next(s, a) == Some(t) && Calm(s) && !a.EnterShutdown?
    ensures Calm(t)
  {
    BG.ReachableInv(size, s);
    assert BI.PhaseInv(s);
    match a
    case StepHandle(c) => assert B.HandleStep(s, c) == Some(t);
    case StepFlush(c, b) => assert B.FlushStep(s, c, b) == Some(t);
    case StepWorker(w) => assert B.WorkerStep(s, w) == Some(t);
    case _ =>
  }

  /** The buffer's own steps leave its finished Handle calls alone and add none. */
  lemma HandlesStay(s: B.State, a: B.Action, t: B.State)
    requires B.Next(s, a) == Some(t) && !a.EnterHandle?
    ensures t.handles.Keys == s.handles.Keys
    ensures forall c | c in s.handles ::
              && t.handles[c].ctx == s.handles[c].ctx && t.handles[c].view == s.handles[c].view
              && t.handles[c].body == s.handles[c].body
              && (s.handles[c].pc.HReturned? ==> t.handles[c].pc == s.handles[c].pc)
  {
    match a
    case StepHandle(c) => assert B.HandleStep(s, c) == Some(t);
    case StepFlush(c, b) => assert B.FlushStep(s, c, b) == Some(t);
    case StepShutdown(c, b) => assert B.ShutdownStep(s, c, b) == Some(t);
    case StepWorker(w) => assert B.WorkerStep(s, w) == Some(t);
    case _ =>
  }

  lemma BufferKeeps(size: int, p: Pipe, a: B.Action, q: Pipe)
    requires PipeInv(size, p) && Next(p, StepBuffer(a)) == Some(q)
    ensures PipeInv(size, q)
  {
    ReachableNext(size, p.buffer, a, q.buffer);
    BufferKeepsCalls(p, a, q);
    if !p.stopping {
      StaysCalm(size, p.buffer, a, q.buffer);
    }
  }

  lemma BufferKeepsCalls(p: Pipe, a: B.Action, q: Pipe)
    requires CallsInv(p) && Next(p, StepBuffer(a)) == Some(q)
    ensures CallsInv(q)
  {
    HandlesStay(p.buffer, a, q.buffer);
    forall c ensures c in q.buffer.handles <==> c in q.calls && InBuffer(q.calls[c]) {
      assert c in q.buffer.handles.Keys <==> c in p.buffer.handles.Keys;
    }
  }

  // ---- the steps of a call ----

  lemma CountsMove(p: Pipe, c: CallId, l: LogCall)
    ensures (Count(p.calls[c := l], Refused)
             == Count(p.calls, Refused) - One(c in p.calls && Refused(p.calls[c])) + One(Refused(l)))
    ensures (Count(p.calls[c := l], Counted)
             == Count(p.calls, Counted) - One(c in p.calls && Counted(p.calls[c])) + One(Counted(l)))
    ensures (Count(p.calls[c := l], Suppressed)
             == Count(p.calls, Suppressed) - One(c in p.calls && Suppressed(p.calls[c])) + One(Suppressed(l)))
  {
    CountUpdate(p.calls, c, l, Refused);
    CountUpdate(p.calls, c, l, Counted);
    CountUpdate(p.calls, c, l, Suppressed);
  }

  lemma StartKeeps(size: int, p: Pipe, a: Action, q: Pipe)
    requires PipeInv(size, p) && Next(p, a) == Some(q) && a.StartLog?
    ensures PipeInv(size, q)
  {
    CountsMove(p, a.c, q.calls[a.c]);
  }

  lemma {:induction false} RunSnoc(maxKeys: int, s: R.Limits, calls: seq<R.Call>, q: R.Call)
    requires maxKeys >= 1 && RR.Run(maxKeys, s, calls) && R.Fits(RR.After(maxKeys, s, calls), q)
    ensures RR.Run(maxKeys, s, calls + [q])
    ensures RR.After(maxKeys, s, calls + [q]) == R.Step(maxKeys, RR.After(maxKeys, s, calls), q)
    ensures (RR.Verdicts(maxKeys, s, calls + [q])
             == RR.Verdicts(maxKeys, s, calls) + [R.Answer(RR.After(maxKeys, s, calls).entries, q)])
    decreases |calls|
  {
    if calls == [] {
      assert calls + [q] == [q] && [q][1..] == [];
    } else {
      RunSnoc(maxKeys, R.Step(maxKeys, s, calls[0]), calls[1..], q);
      assert (calls + [q])[1..] == calls[1..] + [q];
    }
  }

  lemma {:induction false} DeniedSnoc(v: seq<R.Verdict>, x: R.Verdict)
    ensures RD.Denied(v + [x]) == RD.Denied(v) + One(!x.allow)
    decreases |v|
  {
    if v == [] {
      assert v + [x] == [x] && [x][1..] == [];
    } else {
      DeniedSnoc(v[1..], x);
      assert (v + [x])[1..] == v[1..] + [x];
    }
  }

  lemma LimiterKeeps(p: Pipe, c: CallId, now: int, order: seq<R.Key>, q: Pipe)
    requires LimiterInv(p) && LogStep(p, c, now, order) == Some(q)
    ensures LimiterInv(q)
  {
    CountUpdate(p.calls, c, q.calls[c], Suppressed);
    if p.calls[c].pc.LLimiting? {
      var call := R.Call(p.calls[c].opt, now, order);
      RunSnoc(p.maxKeys, R.EMPTY, p.asked, call);
      DeniedSnoc(RR.Verdicts(p.maxKeys, R.EMPTY, p.asked), R.Answer(p.limits.entries, call));
    }
  }

  lemma CountersKeep(p: Pipe, c: CallId, now: int, order: seq<R.Key>, q: Pipe)
    requires CountersInv(p) && LogStep(p, c, now, order) == Some(q)
    ensures CountersInv(q)
  {
    CountUpdate(p.calls, c, q.calls[c], Refused);
    CountUpdate(p.calls, c, q.calls[c], Counted);
  }

  lemma CallsKeep(p: Pipe, c: CallId, now: int, order: seq<R.Key>, q: Pipe)
    requires CallsInv(p) && LogStep(p, c, now, order) == Some(q)
    ensures CallsInv(q)
  {
  }

  lemma LogKeeps(size: int, p: Pipe, c: CallId, now: int, order: seq<R.Key>, q: Pipe)
    requires PipeInv(size, p) && LogStep(p, c, now, order) == Some(q)
    ensures PipeInv(size, q)
  {
    LimiterKeeps(p, c, now, order, q);
    CountersKeep(p, c, now, order, q);
    CallsKeep(p, c, now, order, q);
    var l := p.calls[c];
    if l.pc.LEmitting? {
      ReachableNext(size, p.buffer, B.EnterHandle(c, l.ctx, l.view, l.body), q.buffer);
    }
  }

  lemma NextKeeps(size: int, p: Pipe, a: Action, q: Pipe)
    requires PipeInv(size, p) && Next(p, a) == Some(q)
    ensures PipeInv(size, q)
  {
    match a
    case StartLog(_, _, _, _, _, _) => StartKeeps(size, p, a, q);
    case StepLog(c, now, order) => LogKeeps(size, p, c, now, order, q);
    case Stop =>
    case StepBuffer(b) => BufferKeeps(size, p, b, q);
  }

  lemma {:induction false} ExecKeeps(size: int, p: Pipe, run: seq<Action>, q: Pipe)
    requires PipeInv(size, p) && Exec(p, run) == Some(q)
    ensures PipeInv(size, q)
    decreases |run|
  {
    if run != [] {
      NextKeeps(size, p, run[0], Next(p, run[0]).value);
      ExecKeeps(size, Next(p, run[0]).value, run[1..], q);
    }
  }
}
