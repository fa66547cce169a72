/** The buffered handler's own fields and the methods that change them, one call at a
    time, and the worker's drain as a run of the step machine: the loop and the machine
    deliver the same items in the same order and record the same errors. */
module BufferCore {
  import opened Basics
  import opened Errors
  import opened Buffer

  /** The errors the wrapped handlers return for these items, in order. */
  function Failures(items: seq<Item>, next: Item -> Result): seq<Err> {
    if items == [] then [] else
    Failures(items[..|items| - 1], next)
    + (var last := items[|items| - 1]; if last.Record? && next(last).Fail? then [next(last).err] else [])
  }

  function Barriers(items: seq<Item>): set<CallId> {
    if items == [] then {} else
    Barriers(items[..|items| - 1])
    + (var last := items[|items| - 1]; if last.Barrier? then {last.flush} else {})
  }

  /** The first error since the last report: the one already held, or the first new one. */
  function FirstOf(held: Result, errs: seq<Err>): Result {
    if held.Fail? || errs == [] then held else Fail(errs[0])
  }

  lemma FailuresSnoc(items: seq<Item>, it: Item, next: Item -> Result)
    ensures (Failures(items + [it], next)
             == Failures(items, next) + (if it.Record? && next(it).Fail? then [next(it).err] else []))
  {
    assert (items + [it])[..|items|] == items;
  }

  lemma BarriersSnoc(items: seq<Item>, it: Item)
    ensures Barriers(items + [it]) == Barriers(items) + (if it.Barrier? then {it.flush} else {})
  {
    assert (items + [it])[..|items|] == items;
  }

  lemma OneItem(it: Item, next: Item -> Result)
    ensures Failures([it], next) == if it.Record? && next(it).Fail? then [next(it).err] else []
    ensures Barriers([it]) == if it.Barrier? then {it.flush} else {}
  {
    assert [it][..0] == [];
  }

  /** One more item on top of those already processed. */
  lemma OneMoreItem(taken: seq<Item>, it: Item, next: Item -> Result, held: Result)
    ensures |Failures(taken + [it], next)| == |Failures(taken, next)| + |Failures([it], next)|
    ensures (FirstOf(held, Failures(taken + [it], next))
             == FirstOf(FirstOf(held, Failures(taken, next)), Failures([it], next)))
    ensures Barriers(taken + [it]) == Barriers(taken) + Barriers([it])
  {
    FailuresSnoc(taken, it, next);
    BarriersSnoc(taken, it);
    OneItem(it, next);
  }

  class BufferedCore {
    const cap: nat
    var queue: seq<Item>
    var state: Phase
    var shutdownCh: bool
    var workerDone: bool
    var closed: set<CallId>         // barriers whose channel is closed
    var dropped: nat
    var rejected: nat
    var handlerErrors: nat
    var firstErr: Result
    ghost var handled: seq<Item>    // what the worker has finished with

    constructor (size: int)
      ensures cap == Init(size).cap && queue == [] && state == Running && handled == []
      ensures !shutdownCh && !workerDone && closed == {} && dropped == rejected == handlerErrors == 0 && firstErr == Nil
    {
      cap := if size < 1 then 1 else size;
      queue, state, shutdownCh, workerDone, closed := [], Running, false, false, {};
      dropped, rejected, handlerErrors, firstErr, handled := 0, 0, 0, Nil, [];
    }

    /** Handle: refuses, accepts or drops, and its result says which. */
    method Handle(c: CallId, ctx: Ctx, view: nat, body: nat) returns (res: Result)
      modifies this`queue, this`dropped, this`rejected
      ensures res == (if state != Running then Fail(HandlerShutdown)
                      else if |old(queue)| < cap then Nil else Fail(BufferFull))
      ensures queue == old(queue) + (if res == Nil then [Record(c, OrBackground(ctx), view, body)] else [])
      ensures dropped == Plus(old(dropped), res == Fail(BufferFull))
      ensures rejected == Plus(old(rejected), res == Fail(HandlerShutdown))
    {
      var context := if ctx.NilCtx? then Background else ctx;
      if state != Running {
        rejected := rejected + 1;
        return Fail(HandlerShutdown);
      }
      if |queue| < cap {
        queue := queue + [Record(c, context, view, body)];
        return Nil;
      }
      dropped := dropped + 1;
      return Fail(BufferFull);
    }

    /** tryEnqueueBarrier: ready is the case its select picks, Go standing for the send. */
    method TryEnqueueBarrier(f: CallId, ready: Branch) returns (enqueued: bool, err: Result)
      requires state == Running ==> (ready == Go ==> |queue| < cap) && (ready == WorkerDoneFires ==> workerDone)
      modifies this`queue
      ensures enqueued <==> state == Running && ready == Go
      ensures queue == old(queue) + (if enqueued then [Barrier(f)] else [])
      ensures err == if state != Running then Fail(HandlerShutdown)
                     else match ready
                          case CtxFires => Fail(CtxDone)
                          case WorkerDoneFires => Fail(HandlerShutdown)
                          case _ => Nil
    {
      if state != Running {
        return false, Fail(HandlerShutdown);
      }
      match ready
      case Go =>
        queue := queue + [Barrier(f)];
        return true, Nil;
      case CtxFires => return false, Fail(CtxDone);
      case WorkerDoneFires => return false, Fail(HandlerShutdown);
      case TimerFires => return false, Nil;
    }

    method RecordErr(err: Err)
      modifies this`handlerErrors, this`firstErr
      ensures handlerErrors == old(handlerErrors) + 1
      ensures firstErr == FirstOf(old(firstErr), [err])
    {
      handlerErrors := handlerErrors + 1;
      if firstErr.Nil? {
        firstErr := Fail(err);
      }
    }

    /** takeErr: hands the first error out once. */
    method TakeErr() returns (err: Result)
      modifies this`firstErr
      ensures err == old(firstErr) && firstErr == Nil
    {
      err := firstErr;
      firstErr := Nil;
    }

    method Process(item: Item, next: Item -> Result)
      modifies this`closed, this`handlerErrors, this`firstErr, this`handled
      ensures handled == old(handled) + [item]
      ensures closed == old(closed) + Barriers([item])
      ensures handlerErrors == old(handlerErrors) + |Failures([item], next)|
      ensures firstErr == FirstOf(old(firstErr), Failures([item], next))
    {
      OneItem(item, next);
      handled := handled + [item];
      if item.Barrier? {
        closed := closed + {item.flush};
        return;
      }
      var err := next(item);
      if err.Fail? {
        RecordErr(err.err);
      }
    }

    /** drain: delivers everything queued, in order, and closes every queued barrier. */
    method Drain(next: Item -> Result)
      modifies this`queue, this`closed, this`handlerErrors, this`firstErr, this`handled
      ensures queue == [] && handled == old(handled) + old(queue)
      ensures closed == old(closed) + Barriers(old(queue))
      ensures handlerErrors == old(handlerErrors) + |Failures(old(queue), next)|
      ensures firstErr == FirstOf(old(firstErr), Failures(old(queue), next))
    {
      ghost var taken: seq<Item> := [];
      while queue != []
        invariant old(queue) == taken + queue
        invariant handled == old(handled) + taken
        invariant closed == old(closed) + Barriers(taken)
        invariant handlerErrors == old(handlerErrors) + |Failures(taken, next)|
        invariant firstErr == FirstOf(old(firstErr), Failures(taken, next))
        decreases |queue|
      {
        var item := queue[0];
        OneMoreItem(taken, item, next, old(firstErr));
        assert taken + queue == (taken + [item]) + queue[1..];
        queue := queue[1..];
        Process(item, next);
        taken := taken + [item];
      }
      assert taken == old(queue);
    }

    /** Shutdown up to its wait. */
    method BeginShutdown()
      modifies this`state, this`shutdownCh
      ensures state == (if old(state) == Running then ShuttingDown else old(state)) && shutdownCh
    {
      if state == Running {
        state := ShuttingDown;
      }
      shutdownCh := true;
    }

    /** run after the stop signal: drain, then the final transition. */
    method Finish(next: Item -> Result)
      requires shutdownCh && !workerDone
      modifies this`queue, this`closed, this`handlerErrors, this`firstErr, this`handled, this`state, this`workerDone
      ensures queue == [] && handled == old(handled) + old(queue)
      ensures closed == old(closed) + Barriers(old(queue))
      ensures handlerErrors == old(handlerErrors) + |Failures(old(queue), next)|
      ensures firstErr == FirstOf(old(firstErr), Failures(old(queue), next))
      ensures state == Stopped && workerDone
    {
      Drain(next);
      state := Stopped;
      workerDone := true;
    }

    /** A whole shutdown with nobody else about: everything queued is delivered and the
        first error since the last report goes to the caller, once. */
    method Shutdown(next: Item -> Result) returns (err: Result)
      requires !workerDone
      modifies this
      ensures queue == [] && handled == old(handled) + old(queue) && closed == old(closed) + Barriers(old(queue))
      ensures err == FirstOf(old(firstErr), Failures(old(queue), next)) && firstErr == Nil
      ensures handlerErrors == old(handlerErrors) + |Failures(old(queue), next)|
      ensures state == Stopped && workerDone && dropped == old(dropped) && rejected == old(rejected)
    {
      BeginShutdown();
      Finish(next);
      err := TakeErr();
    }
  }

  // ---- the drain in the machine ----

  /** The worker's steps for one queued item. */
  function ItemRun(it: Item, next: Item -> Result): seq<Action> {
    [StepWorker(Proceed)] +
    if it.Barrier? then [StepWorker(Proceed)]
    else if next(it).Nil? then [StepWorker(Returned(Nil))]
    else [StepWorker(Returned(next(it))), StepWorker(Proceed), StepWorker(Proceed)]
  }

  function DrainRun(items: seq<Item>, next: Item -> Result): seq<Action> {
    if items == [] then [StepWorker(Proceed)] else ItemRun(items[0], next) + DrainRun(items[1..], next)
  }

  /** The worker has finished with items, the head of the queue, and nothing else moved. */
  predicate Processed(s: State, items: seq<Item>, next: Item -> Result, t: State) {
    && t.worker == s.worker == WDrain && t.sent == s.sent
    && s.queue == items + t.queue && t.done == s.done + items
    && t.closed == s.closed + Barriers(items)
    && t.handlerErrors == s.handlerErrors + |Failures(items, next)|
    && t.firstErr == FirstOf(s.firstErr, Failures(items, next))
  }

  /** Takes the head of the queue in hand. */
  lemma TakeStep(s: State) returns (t: State)
    requires s.worker == WDrain && s.queue != []
    ensures Exec(s, [StepWorker(Proceed)]) == Some(t)
    ensures t.worker == WHold(s.queue[0], true) && t.queue == s.queue[1..] && t.sent == s.sent && t.done == s.done
    ensures t.closed == s.closed && t.handlerErrors == s.handlerErrors && t.firstErr == s.firstErr
  {
    t := WorkerStep(s, Proceed).value;
    ExecOne(s, StepWorker(Proceed), t);
  }

  /** Closes a barrier, or gets the wrapped handler's answer. */
  lemma HandOver(s: State, w: WorkerChoice) returns (t: State)
    requires s.worker.WHold? && s.worker.draining
    requires if s.worker.item.Barrier? then w == Proceed else w.Returned?
    ensures Exec(s, [StepWorker(w)]) == Some(t)
    ensures t.worker == if w.Returned? && w.res.Fail? then WFailed(w.res.err, true) else WDrain
    ensures t.queue == s.queue && t.sent == s.sent && t.done == s.done + [s.worker.item]
    ensures t.closed == s.closed + (if s.worker.item.Barrier? then {s.worker.item.flush} else {})
    ensures t.handlerErrors == s.handlerErrors && t.firstErr == s.firstErr
  {
    t := WorkerStep(s, w).value;
    ExecOne(s, StepWorker(w), t);
  }

  /** recordErr. */
  lemma FailureSteps(s: State) returns (t: State)
    requires s.worker.WFailed? && s.worker.draining
    ensures Exec(s, [StepWorker(Proceed), StepWorker(Proceed)]) == Some(t)
    ensures t.worker == WDrain && t.queue == s.queue && t.done == s.done && t.sent == s.sent && t.closed == s.closed
    ensures t.handlerErrors == s.handlerErrors + 1 && t.firstErr == FirstOf(s.firstErr, [s.worker.err])
  {
    var counted := WorkerStep(s, Proceed).value;
    t := WorkerStep(counted, Proceed).value;
    ExecOne(s, StepWorker(Proceed), counted);
    ExecOne(counted, StepWorker(Proceed), t);
    ExecThrough(s, [StepWorker(Proceed)], counted, [StepWorker(Proceed)]);
    assert [StepWorker(Proceed)] + [StepWorker(Proceed)] == [StepWorker(Proceed), StepWorker(Proceed)];
  }

  lemma ItemSteps(s: State, next: Item -> Result) returns (t: State)
    requires s.worker == WDrain && s.queue != []
    ensures Exec(s, ItemRun(s.queue[0], next)) == Some(t) && Processed(s, [s.queue[0]], next, t)
  {
    var it := s.queue[0];
    OneItem(it, next);
    var choice := if it.Barrier? then Proceed else Returned(next(it));
    var first, second := [StepWorker(Proceed)], [StepWorker(choice)];
    var held := TakeStep(s);
    var back := HandOver(held, choice);
    ExecThrough(s, first, held, second);
    if it.Record? && next(it).Fail? {
      t := FailureSteps(back);
      ExecThrough(s, first + second, back, [StepWorker(Proceed), StepWorker(Proceed)]);
      assert ItemRun(it, next) == first + second + [StepWorker(Proceed), StepWorker(Proceed)];
    } else {
      t := back;
      assert ItemRun(it, next) == first + second;
    }
  }

  lemma ProcessedMore(s: State, a: seq<Item>, u: State, b: seq<Item>, t: State, next: Item -> Result)
    requires Processed(s, a, next, u) && Processed(u, b, next, t)
    ensures Processed(s, a + b, next, t)
  {
    FailuresConcat(a, b, next);
    BarriersConcat(a, b);
    assert a + (b + t.queue) == (a + b) + t.queue;
    assert (s.done + a) + b == s.done + (a + b);
  }

  lemma {:induction false} ItemsRun(s: State, next: Item -> Result) returns (t: State)
    requires s.worker == WDrain
    ensures Processed(s, s.queue, next, t) && t.queue == []
    ensures Exec(s, DrainRun(s.queue, next)) == Exec(t, [StepWorker(Proceed)])
    decreases |s.queue|
  {
    if s.queue == [] {
      t := s;
      assert s.done + [] == s.done;
    } else {
      var it, rest := s.queue[0], s.queue[1..];
      assert s.queue == [it] + rest;
      var u := ItemSteps(s, next);
      assert u.queue == rest;
      t := ItemsRun(u, next);
      ProcessedMore(s, [it], u, rest, t, next);
      ExecThrough(s, ItemRun(it, next), u, DrainRun(rest, next));
    }
  }

  /** Left to itself the machine's worker drains exactly as the loop does, finds the
      queue empty and leaves. */
  lemma DrainRuns(s: State, next: Item -> Result) returns (t: State)
    requires s.worker == WDrain
    ensures Exec(s, DrainRun(s.queue, next)) == Some(t)
    ensures t.worker == WExit && t.queue == [] && t.done == s.done + s.queue && t.sent == s.sent
    ensures t.closed == s.closed + Barriers(s.queue)
    ensures t.handlerErrors == s.handlerErrors + |Failures(s.queue, next)|
    ensures t.firstErr == FirstOf(s.firstErr, Failures(s.queue, next))
  {
    var u := ItemsRun(s, next);
    t := WorkerStep(u, Proceed).value;
    ExecOne(u, StepWorker(Proceed), t);
  }

  lemma {:induction false} FailuresConcat(a: seq<Item>, b: seq<Item>, next: Item -> Result)
    ensures Failures(a + b, next) == Failures(a, next) + Failures(b, next)
    decreases |b|
  {
    if b == [] {
      assert a + b == a;
    } else {
      var n := |b| - 1;
      FailuresConcat(a, b[..n], next);
      assert (a + b)[..|a + b| - 1] == a + b[..n];
    }
  }

  lemma {:induction false} BarriersConcat(a: seq<Item>, b: seq<Item>)
    ensures Barriers(a + b) == Barriers(a) + Barriers(b)
    decreases |b|
  {
    if b == [] {
      assert a + b == a;
    } else {
      var n := |b| - 1;
      BarriersConcat(a, b[..n]);
      BarriersSnoc(a + b[..n], b[n]);
      BarriersSnoc(b[..n], b[n]);
      assert a + b == (a + b[..n]) + [b[n]] && b == b[..n] + [b[n]];
    }
  }

  // ---- Handle in the machine ----

  /** What a Handle call does not touch. */
  predicate OnlyHandles(s: State, t: State) {
    && t.cap == s.cap && t.phase == s.phase && t.worker == s.worker && t.writer == s.writer
    && t.shutdowns == s.shutdowns && t.flushes == s.flushes && t.firstErr == s.firstErr && t.done == s.done
  }

  /** One step of one Handle call: what it does to what the core owns. */
  lemma HandleMove(s: State, c: CallId) returns (t: State)
    requires c in s.handles && HandleCan(s, s.handles[c].pc)
    ensures Exec(s, [StepHandle(c)]) == Some(t)
    ensures c in t.handles && t.handles[c] == s.handles[c].(pc := HandleGoes(s, s.handles[c].pc))
    ensures OnlyHandles(s, t)
    ensures t.queue == s.queue + (if t.handles[c].pc.HSent? then [RecordOf(c, s.handles[c])] else [])
    ensures t.dropped == Plus(s.dropped, s.handles[c].pc.HCountDropped?)
    ensures t.rejected == Plus(s.rejected, s.handles[c].pc.HCountRejected?)
  {
    t := HandleStep(s, c).value;
    ExecOne(s, StepHandle(c), t);
  }

  function Steps(c: CallId, n: nat): seq<Action> {
    if n == 0 then [] else Steps(c, n - 1) + [StepHandle(c)]
  }

  /** Left to itself the machine's Handle call does what the method does. */
  lemma HandleRuns(s: State, c: CallId, ctx: Ctx, view: nat, body: nat) returns (t: State, n: nat, res: Result)
    requires c !in s.handles && !s.writer
    ensures Exec(s, [EnterHandle(c, ctx, view, body)] + Steps(c, n)) == Some(t)
    ensures c in t.handles && t.handles[c].pc == HReturned(res)
    ensures res == (if s.phase != Running then Fail(HandlerShutdown)
                    else if |s.queue| < s.cap then Nil else Fail(BufferFull))
    ensures t.queue == s.queue + (if res == Nil then [Record(c, OrBackground(ctx), view, body)] else [])
    ensures t.dropped == Plus(s.dropped, res == Fail(BufferFull))
    ensures t.rejected == Plus(s.rejected, res == Fail(HandlerShutdown))
    ensures OnlyHandles(s, t)
  {
    var enter := EnterHandle(c, ctx, view, body);
    var entered := Next(s, enter).value;
    ExecOne(s, enter, entered);
    var reading := HandleMove(entered, c);
    var checked := HandleMove(reading, c);
    t, n := FromChecked(checked, c);
    res := t.handles[c].pc.res;
    assert Steps(c, 0) == [] && Steps(c, 1) == [StepHandle(c)] && Steps(c, 2) == [StepHandle(c)] + [StepHandle(c)];
    ExecThrough(entered, [StepHandle(c)], reading, [StepHandle(c)]);
    ExecThrough(entered, Steps(c, 2), checked, Steps(c, n));
    StepsJoin(c, 2, n);
    n := n + 2;
    ExecThrough(s, [enter], entered, Steps(c, n));
  }

  lemma {:induction false} StepsJoin(c: CallId, a: nat, b: nat)
    ensures Steps(c, a) + Steps(c, b) == Steps(c, a + b)
    decreases b
  {
    if b == 0 {
      assert Steps(c, a) + [] == Steps(c, a);
    } else {
      StepsJoin(c, a, b - 1);
    }
  }

  lemma FromChecked(s: State, c: CallId) returns (t: State, n: nat)
    requires c in s.handles
    requires s.handles[c].pc == if s.phase.Running? then HSending else HRefused
    ensures Exec(s, Steps(c, n)) == Some(t) && c in t.handles && t.handles[c].pc.HReturned?
    ensures var res := t.handles[c].pc.res;
            && res == (if s.phase != Running then Fail(HandlerShutdown)
                       else if |s.queue| < s.cap then Nil else Fail(BufferFull))
            && t.queue == s.queue + (if res == Nil then [RecordOf(c, s.handles[c])] else [])
            && t.dropped == Plus(s.dropped, res == Fail(BufferFull))
            && t.rejected == Plus(s.rejected, res == Fail(HandlerShutdown))
    ensures OnlyHandles(s, t)
  {
    var one := HandleMove(s, c);
    var two := HandleMove(one, c);
    assert Steps(c, 1) == [StepHandle(c)];
    ExecThrough(s, Steps(c, 1), one, [StepHandle(c)]);
    if two.handles[c].pc.HReturned? {
      t, n := two, 2;
    } else {
      t := HandleMove(two, c);
      n := 3;
      ExecThrough(s, Steps(c, 2), two, [StepHandle(c)]);
    }
  }

  // ---- Flush in the machine ----

  /** One step of one Flush call that takes its first case. */
  lemma FlushMove(s: State, f: CallId) returns (t: State)
    requires f in s.flushes && FlushCan(s, f, s.flushes[f].pc, Go) && !s.flushes[f].pc.FTakeErr?
    ensures Exec(s, [StepFlush(f, Go)]) == Some(t)
    ensures f in t.flushes && t.flushes[f].pc == FlushGoes(s, f, s.flushes[f].pc, Go)
    ensures t.queue == s.queue + (if t.flushes[f].pc.FSent? then [Barrier(f)] else [])
    ensures OnlyFlushes(s, t) && t.worker == s.worker && t.closed == s.closed && t.done == s.done
  {
    t := FlushStep(s, f, Go).value;
    ExecOne(s, StepFlush(f, Go), t);
  }

  /** What a Flush call and the worker's handling of its barrier do not touch. */
  predicate OnlyFlushes(s: State, t: State) {
    && t.cap == s.cap && t.phase == s.phase && t.writer == s.writer && t.shutdowns == s.shutdowns
    && t.handles == s.handles && t.firstErr == s.firstErr
  }

  predicate Idle(s: State) {
    s.phase == Running && !s.writer && s.queue == [] && s.cap >= 1 && s.worker == WSelect && s.firstErr == Nil
  }

  function FlushRun(f: CallId): seq<Action> {
    var go := [StepFlush(f, Go)];
    go + (go + (go + (go + ([StepWorker(Take)] + ([StepWorker(Proceed)] + (go + go))))))
  }

  /** A Flush of an idle buffer, run alone with the worker, returns nil through its
      barrier and leaves the buffer idle. */
  lemma FlushRuns(s: State, f: CallId) returns (t: State)
    requires Idle(s) && f in s.flushes && s.flushes[f].pc.FEnter?
    ensures Exec(s, FlushRun(f)) == Some(t)
    ensures Idle(t) && OnlyFlushes(s, t) && t.done == s.done + [Barrier(f)]
    ensures f in t.flushes && t.flushes[f].pc == FReturned(Nil, ThroughBarrier)
  {
    var go := [StepFlush(f, Go)];
    var queued := FlushQueues(s, f);
    var last := go + go;
    var served := BarrierServed(queued, f);
    t := FlushEnds(served, f);
    ExecThrough(queued, [StepWorker(Take)] + [StepWorker(Proceed)], served, last);
    assert [StepWorker(Take)] + [StepWorker(Proceed)] + last == [StepWorker(Take)] + ([StepWorker(Proceed)] + last);
    var rest := [StepWorker(Take)] + ([StepWorker(Proceed)] + last);
    ExecThrough(s, go + go + go + go, queued, rest);
    assert go + go + go + go + rest == FlushRun(f);
  }

  lemma FlushQueues(s: State, f: CallId) returns (t: State)
    requires Idle(s) && f in s.flushes && s.flushes[f].pc.FEnter?
    ensures var go := [StepFlush(f, Go)]; Exec(s, go + go + go + go) == Some(t)
    ensures OnlyFlushes(s, t) && t.worker == WSelect && t.queue == [Barrier(f)] && t.done == s.done
    ensures f in t.flushes && t.flushes[f].pc.FAwait?
  {
    var go := [StepFlush(f, Go)];
    var a := FlushMove(s, f);
    var b := FlushMove(a, f);
    var c := FlushMove(b, f);
    t := FlushMove(c, f);
    ExecThrough(s, go, a, go);
    ExecThrough(s, go + go, b, go);
    ExecThrough(s, go + go + go, c, go);
  }

  lemma BarrierServed(s: State, f: CallId) returns (t: State)
    requires s.worker == WSelect && s.queue == [Barrier(f)]
    ensures Exec(s, [StepWorker(Take)] + [StepWorker(Proceed)]) == Some(t)
    ensures OnlyFlushes(s, t) && t.flushes == s.flushes
    ensures t.worker == WSelect && t.queue == [] && t.done == s.done + [Barrier(f)] && f in t.closed
  {
    var held := WorkerStep(s, Take).value;
    t := WorkerStep(held, Proceed).value;
    ExecOne(s, StepWorker(Take), held);
    ExecOne(held, StepWorker(Proceed), t);
    ExecThrough(s, [StepWorker(Take)], held, [StepWorker(Proceed)]);
  }

  lemma FlushEnds(s: State, f: CallId) returns (t: State)
    requires f in s.flushes && s.flushes[f].pc.FAwait? && f in s.closed && s.firstErr == Nil
    ensures Exec(s, [StepFlush(f, Go)] + [StepFlush(f, Go)]) == Some(t)
    ensures OnlyFlushes(s, t) && t.worker == s.worker && t.queue == s.queue && t.done == s.done
    ensures f in t.flushes && t.flushes[f].pc == FReturned(Nil, ThroughBarrier)
  {
    var a := FlushMove(s, f);
    t := FlushStep(a, f, Go).value;
    ExecOne(a, StepFlush(f, Go), t);
    ExecThrough(s, [StepFlush(f, Go)], a, [StepFlush(f, Go)]);
    assert a.queue == s.queue;
  }
}
