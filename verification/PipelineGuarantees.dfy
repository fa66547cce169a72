/** The end-to-end accounting of log calls. */
module PipelineGuarantees {
  import opened Basics
  import opened Errors
  import opened Counting
  import opened Pipeline
  import opened PipelineInvariant
  import B = Buffer
  import BI = BufferInvariant
  import BG = BufferGuarantees
  import R = Rate
  import RR = RateRuns
  import RD = RateDebt

  ghost predicate Reachable(size: int, maxKeys: int, hasHook: bool, p: Pipe) {
    exists run :: Exec(Init(size, maxKeys, hasHook), run) == Some(p)
  }

  lemma ReachableInv(size: int, maxKeys: int, hasHook: bool, p: Pipe)
    requires Reachable(size, maxKeys, hasHook, p)
    ensures PipeInv(size, p)
  {
    var run :| Exec(Init(size, maxKeys, hasHook), run) == Some(p);
    InitInv(size, maxKeys, hasHook);
    ExecKeeps(size, Init(size, maxKeys, hasHook), run, p);
  }

  // ---- every call is accounted for ----

  lemma InBufferCount(p: Pipe)
    requires CallsInv(p)
    ensures Count(p.calls, InBuffer) == |p.buffer.handles|
  {
    assert Matching(p.calls, InBuffer) == p.buffer.handles.Keys;
    assert |p.buffer.handles| == |p.buffer.handles.Keys|;
  }

  lemma FourWays(m: map<CallId, LogCall>)
    ensures |m| == Count(m, Refused) + Count(m, Suppressed) + Count(m, InBuffer) + Count(m, Ahead)
  {
    CountFourWay(m, Refused, Suppressed, InBuffer, Ahead);
  }

  /** At any moment of any run, the calls ever made are: rejected by the gate, refused
      by the limiter, rejected by the buffer, dropped by the buffer, accepted by it, or
      still under way. The five endings are five public or reported counts. */
  lemma EveryCallAccounted(size: int, maxKeys: int, hasHook: bool, p: Pipe)
    requires Reachable(size, maxKeys, hasHook, p)
    ensures LimiterInv(p)
    ensures |p.calls| == p.rejected
                         + RD.Denied(RR.Verdicts(p.maxKeys, R.EMPTY, p.asked))
                         + p.buffer.rejected + p.buffer.dropped + |BI.Records(p.buffer.sent)|
                         + Count(p.buffer.handles, BI.HandleInProgress) + Count(p.calls, Ahead)
  {
    ReachableInv(size, maxKeys, hasHook, p);
    FourWays(p.calls);
    InBufferCount(p);
    BG.Conservation(size, p.buffer);
  }

  /** Once no call is under way and the worker is gone, the accepted calls are the
      delivered ones, and every suppressed call was reported, is still owed by a live
      limiter entry, or was lost to a forced eviction. */
  lemma FinalAccounts(size: int, maxKeys: int, hasHook: bool, p: Pipe)
    requires Reachable(size, maxKeys, hasHook, p) && p.buffer.workerDone
    requires forall c | c in p.calls :: p.calls[c].pc.LDone?
    ensures LimiterInv(p)
    ensures |p.calls| == p.rejected
                         + (RD.Reported(RR.Verdicts(p.maxKeys, R.EMPTY, p.asked)) + RD.Debt(p.limits.entries)
                            + RD.AllForgiven(p.maxKeys, R.EMPTY, p.asked))
                         + p.buffer.rejected + p.buffer.dropped + |BI.Records(p.buffer.done)|
    ensures |p.hook| == if hasHook then Count(p.calls, Counted) else 0
  {
    EveryCallAccounted(size, maxKeys, hasHook, p);
    ReachableInv(size, maxKeys, hasHook, p);
    BG.Fifo(size, p.buffer);
    RD.Conserved(p.maxKeys, R.EMPTY, p.asked);
    CountZero(p.calls, Ahead);
    NoneLeft(p);
    HookStays(size, maxKeys, hasHook, p);
  }

  lemma NoneLeft(p: Pipe)
    requires CallsInv(p) && forall c | c in p.calls :: p.calls[c].pc.LDone?
    ensures Count(p.buffer.handles, BI.HandleInProgress) == 0
  {
    CountZero(p.buffer.handles, BI.HandleInProgress);
  }

  lemma HookStays(size: int, maxKeys: int, hasHook: bool, p: Pipe)
    requires Reachable(size, maxKeys, hasHook, p)
    ensures p.hasHook == hasHook
  {
    var run :| Exec(Init(size, maxKeys, hasHook), run) == Some(p);
    ConfigStays(Init(size, maxKeys, hasHook), run, p);
  }

  lemma {:induction false} ConfigStays(p: Pipe, run: seq<Action>, q: Pipe)
    requires Exec(p, run) == Some(q)
    ensures q.hasHook == p.hasHook && q.maxKeys == p.maxKeys && (p.stopping ==> q.stopping)
    decreases |run|
  {
    if run != [] {
      ConfigStays(Next(p, run[0]).value, run[1..], q);
    }
  }

  /** Each call has one ending, and what it says is what happened to its record. */
  lemma EndingsAreTrue(size: int, maxKeys: int, hasHook: bool, p: Pipe, c: CallId)
    requires Reachable(size, maxKeys, hasHook, p) && c in p.calls && p.calls[c].pc.LDone?
    ensures match p.calls[c].pc.fate
            case Handed(res) =>
              && c in p.buffer.handles
              && res in {Nil, Fail(BufferFull), Fail(HandlerShutdown)}
              && (res == Nil <==> Item(c, p.calls[c]) in p.buffer.sent)
              && (res == Nil && p.buffer.workerDone ==> Item(c, p.calls[c]) in p.buffer.done)
            case _ => c !in p.buffer.handles && forall it | it in p.buffer.sent && it.Record? :: it.call != c
  {
    ReachableInv(size, maxKeys, hasHook, p);
    BG.ReachableInv(size, p.buffer);
    BG.Conservation(size, p.buffer);
    assert BI.SentInv(p.buffer);
  }

  function Item(c: CallId, l: LogCall): B.Item {
    B.Record(c, B.OrBackground(l.ctx), l.view, l.body)
  }

  // ---- the gate ----

  /** A call the gate turns away is only counted: it never had a limiter entry judged,
      a record in the buffer or a hook fired. */
  lemma RejectedTouchesNothing(size: int, maxKeys: int, hasHook: bool, p: Pipe, c: CallId,
                               now: int, order: seq<R.Key>, q: Pipe)
    requires Reachable(size, maxKeys, hasHook, p) && LogStep(p, c, now, order) == Some(q)
    requires p.calls[c].pc.LRejecting? || (p.calls[c].pc.LEnter? && p.stopping)
    ensures q.limits == p.limits && q.asked == p.asked && q.hook == p.hook && q.buffer == p.buffer
    ensures q.calls[c].pc == if p.calls[c].pc.LEnter? then LRejecting else LDone(LoggerRejected)
    ensures c !in q.buffer.handles
  {
    ReachableInv(size, maxKeys, hasHook, p);
  }

  /** Admission closes for good: once the logger is stopping and no admitted call is
      under way, no run changes the limiter, the hook, what the buffer was handed or what
      it rejected, whatever calls are still made. */
  lemma {:induction false} ClosedForGood(p: Pipe, run: seq<Action>, q: Pipe)
    requires p.stopping && (forall c | c in p.calls :: !Admitted(p.calls[c]))
    requires Exec(p, run) == Some(q)
    ensures q.limits == p.limits && q.asked == p.asked && q.hook == p.hook
    ensures q.buffer.handles.Keys == p.buffer.handles.Keys
    ensures CallsInv(p) ==> q.buffer.rejected == p.buffer.rejected
    ensures forall c | c in q.calls :: !Admitted(q.calls[c])
    decreases |run|
  {
    if run != [] {
      var t := Next(p, run[0]).value;
      ClosedStep(p, run[0], t);
      if CallsInv(p) {
        ClosedRejects(p, run[0], t);
      }
      ClosedForGood(t, run[1..], q);
    }
  }

  lemma ClosedStep(p: Pipe, a: Action, q: Pipe)
    requires p.stopping && (forall c | c in p.calls :: !Admitted(p.calls[c])) && Next(p, a) == Some(q)
    ensures q.stopping && (forall c | c in q.calls :: !Admitted(q.calls[c]))
    ensures q.limits == p.limits && q.asked == p.asked && q.hook == p.hook
    ensures q.buffer.handles.Keys == p.buffer.handles.Keys
  {
    if a.StepBuffer? {
      HandlesStay(p.buffer, a.a, q.buffer);
    }
  }

  lemma ClosedRejects(p: Pipe, a: Action, q: Pipe)
    requires CallsInv(p) && (forall c | c in p.calls :: !Admitted(p.calls[c])) && Next(p, a) == Some(q)
    ensures CallsInv(q) && q.buffer.rejected == p.buffer.rejected
  {
    match a
    case StepBuffer(b) =>
      BufferKeepsCalls(p, b, q);
      forall c | c in p.buffer.handles ensures p.buffer.handles[c].pc.HReturned? {
        assert Matches(p.calls[c], p.buffer.handles[c]);
      }
      OnlyHandlesReject(p.buffer, b, q.buffer);
    case StepLog(c, now, order) => CallsKeep(p, c, now, order, q);
    case _ =>
  }

  lemma OnlyHandlesReject(s: B.State, a: B.Action, t: B.State)
    requires B.Next(s, a) == Some(t)
    requires a.StepHandle? && a.c in s.handles ==> s.handles[a.c].pc.HReturned?
    ensures t.rejected == s.rejected
  {
    match a
    case StepFlush(c, b) => assert B.FlushStep(s, c, b) == Some(t);
    case StepShutdown(c, b) => assert B.ShutdownStep(s, c, b) == Some(t);
    case StepWorker(w) => assert B.WorkerStep(s, w) == Some(t);
    case _ =>
  }

  /** The buffer rejects a record only after the logger's own shutdown has begun. */
  lemma BufferRejectsOnlyWhenStopping(size: int, maxKeys: int, hasHook: bool, p: Pipe)
    requires Reachable(size, maxKeys, hasHook, p)
    ensures !p.stopping ==> p.buffer.rejected == 0
    ensures !p.stopping ==> forall c | c in p.calls :: p.calls[c].pc != LDone(Handed(Fail(HandlerShutdown)))
  {
    ReachableInv(size, maxKeys, hasHook, p);
    BG.ReachableInv(size, p.buffer);
    if !p.stopping {
      CountZero(p.buffer.handles, BI.HandleRejected);
    }
  }
}
