/** The gate does not make the buffer's refusal impossible: a call that passed it before
    the shutdown began can still be rejected underneath, after it took its turn at the
    limiter and although its counter still fires. */
module PipelineWindow {
  import opened Basics
  import opened Errors
  import opened Pipeline
  import B = Buffer
  import R = Rate

  ghost predicate Leads(p: Pipe, q: Pipe) {
    exists run :: Exec(p, run) == Some(q)
  }

  lemma Stays(p: Pipe)
    ensures Leads(p, p)
  {
    assert Exec(p, []) == Some(p);
  }

  lemma {:induction false} ExecConcat(p: Pipe, one: seq<Action>, q: Pipe, two: seq<Action>)
    requires Exec(p, one) == Some(q)
    ensures Exec(p, one + two) == Exec(q, two)
    decreases |one|
  {
    if one == [] {
      assert one + two == two;
    } else {
      ExecConcat(Next(p, one[0]).value, one[1..], q, two);
      assert (one + two)[1..] == one[1..] + two;
    }
  }

  lemma Then(p: Pipe, q: Pipe, a: Action, t: Pipe)
    requires Leads(p, q) && Next(q, a) == Some(t)
    ensures Leads(p, t)
  {
    var run :| Exec(p, run) == Some(q);
    ExecConcat(p, run, q, [a]);
    assert [a][1..] == [];
    assert Exec(q, [a]) == Some(t);
  }

  const CALL: LogCall := LogCall(B.Background, 0, 0, None, "sent", LEnter)

  function At(pc: Pc): map<CallId, LogCall> {
    map[0 := CALL.(pc := pc)]
  }

  function Handling(pc: B.HandlePc): map<CallId, B.Handle> {
    map[0 := B.Handle(B.Background, 0, 0, pc)]
  }

  const ASKED: R.Call := R.Call(None, 0, [])

  /** Past the gate and the limiter. */
  function Emitting(): Pipe {
    Init(1, 1, true).(calls := At(LEmitting), asked := [ASKED])
  }

  lemma PassesGate()
    ensures Leads(Init(1, 1, true), Emitting())
  {
    var p0 := Init(1, 1, true);
    var p1 := p0.(calls := At(LEnter));
    var p2 := p0.(calls := At(LLimiting));
    Stays(p0);
    Then(p0, p0, StartLog(0, B.Background, 0, 0, None, "sent"), p1);
    assert At(LEnter)[0 := CALL.(pc := LLimiting)] == At(LLimiting);
    assert Next(p1, StepLog(0, 0, [])) == Some(p2);
    Then(p0, p1, StepLog(0, 0, []), p2);
    assert R.Live(R.EMPTY.entries, 0) == map[];
    assert R.Fits(p2.limits, ASKED);
    assert R.Step(p2.maxKeys, p2.limits, ASKED) == p2.limits;
    assert At(LLimiting)[0 := CALL.(pc := LEmitting)] == At(LEmitting);
    assert p2.asked + [ASKED] == [ASKED];
    assert Next(p2, StepLog(0, 0, [])) == Some(Emitting());
    Then(p0, p2, StepLog(0, 0, []), Emitting());
  }

  /** The logger is stopping and the buffer has left running. */
  function ShutDown(): B.State {
    B.Init(1).(shutdowns := map[0 := B.SUnlocked], phase := B.ShuttingDown)
  }

  lemma BeginsToStop()
    ensures Leads(Emitting(), Emitting().(stopping := true, buffer := ShutDown()))
  {
    var p0 := Emitting();
    var p1 := p0.(stopping := true);
    var b := B.Init(1);
    var b1 := b.(shutdowns := map[0 := B.SEnter]);
    var b2 := b.(shutdowns := map[0 := B.SWriting], writer := true);
    var b3 := b.(shutdowns := map[0 := B.SSet], writer := true, phase := B.ShuttingDown);
    Stays(p0);
    Then(p0, p0, Stop, p1);
    Then(p0, p1, StepBuffer(B.EnterShutdown(0)), p1.(buffer := b1));
    var go := B.StepShutdown(0, B.Go);
    assert map[0 := B.SEnter][0 := B.SWriting] == map[0 := B.SWriting];
    assert B.Next(b1, go) == Some(b2);
    Then(p0, p1.(buffer := b1), StepBuffer(go), p1.(buffer := b2));
    assert map[0 := B.SWriting][0 := B.SSet] == map[0 := B.SSet];
    assert B.Next(b2, go) == Some(b3);
    Then(p0, p1.(buffer := b2), StepBuffer(go), p1.(buffer := b3));
    assert map[0 := B.SSet][0 := B.SUnlocked] == map[0 := B.SUnlocked];
    assert B.Next(b3, go) == Some(ShutDown());
    Then(p0, p1.(buffer := b3), StepBuffer(go), p1.(buffer := ShutDown()));
  }

  lemma BufferStepTo(b: B.State, from: B.HandlePc, to: B.HandlePc)
    requires b.phase.ShuttingDown? && !b.writer && b.handles == Handling(from)
    requires (from == B.HEnter && to == B.HReading && b.readers == 0)
             || (from == B.HReading && to == B.HRefused && b.readers == 1)
             || (from == B.HRefused && to == B.HCountRejected && b.readers == 1)
             || (from == B.HCountRejected && to == B.HReturned(Fail(HandlerShutdown)) && b.readers == 0)
    ensures B.Next(b, B.StepHandle(0)) == Some(b.(handles := Handling(to),
              readers := if from.HEnter? then 1 else if from.HRefused? then 0 else b.readers,
              rejected := if from.HCountRejected? then b.rejected + 1 else b.rejected))
  {
    assert Handling(from)[0 := B.Handle(B.Background, 0, 0, to)] == Handling(to);
    assert b.queue + [] == b.queue && b.sent + [] == b.sent;
  }

  lemma IsRefused(p: Pipe, b: B.State)
    requires b == ShutDown() && p.calls == At(LHandling) && p.buffer == b.(handles := Handling(B.HEnter))
    ensures Leads(p, p.(buffer := b.(handles := Handling(B.HReturned(Fail(HandlerShutdown))), rejected := 1)))
  {
    var b0, step := p.buffer, StepBuffer(B.StepHandle(0));
    var b1 := b.(handles := Handling(B.HReading), readers := 1);
    var b2 := b.(handles := Handling(B.HRefused), readers := 1);
    var b3 := b.(handles := Handling(B.HCountRejected));
    var b4 := b.(handles := Handling(B.HReturned(Fail(HandlerShutdown))), rejected := 1);
    Stays(p);
    BufferStepTo(b0, B.HEnter, B.HReading);
    Then(p, p, step, p.(buffer := b1));
    BufferStepTo(b1, B.HReading, B.HRefused);
    Then(p, p.(buffer := b1), step, p.(buffer := b2));
    BufferStepTo(b2, B.HRefused, B.HCountRejected);
    Then(p, p.(buffer := b2), step, p.(buffer := b3));
    BufferStepTo(b3, B.HCountRejected, B.HReturned(Fail(HandlerShutdown)));
    Then(p, p.(buffer := b3), step, p.(buffer := b4));
  }

  lemma Joins(p: Pipe, q: Pipe, t: Pipe)
    requires Leads(p, q) && Leads(q, t)
    ensures Leads(p, t)
  {
    var one :| Exec(p, one) == Some(q);
    var two :| Exec(q, two) == Some(t);
    ExecConcat(p, one, q, two);
  }

  /** A run in which the gate rejects nothing, and yet the only call made is rejected by
      the buffer, after its counter was incremented. */
  lemma PassedAndRejected() returns (p: Pipe)
    ensures Leads(Init(1, 1, true), p)
    ensures p.calls.Keys == {0} && p.calls[0].pc == LDone(Handed(Fail(HandlerShutdown)))
    ensures p.rejected == 0 && p.buffer.rejected == 1 && p.hook == ["sent"]
  {
    var start, mid := Init(1, 1, true), Emitting().(stopping := true, buffer := ShutDown());
    PassesGate();
    BeginsToStop();
    Joins(start, Emitting(), mid);
    var inside := mid.(calls := At(LHandling), buffer := ShutDown().(handles := Handling(B.HEnter)));
    assert At(LEmitting)[0 := CALL.(pc := LHandling)] == At(LHandling);
    assert Next(mid, StepLog(0, 0, [])) == Some(inside);
    Then(start, mid, StepLog(0, 0, []), inside);
    IsRefused(inside, ShutDown());
    var returned := Handling(B.HReturned(Fail(HandlerShutdown)));
    var refused := inside.(buffer := ShutDown().(handles := returned, rejected := 1));
    Joins(start, inside, refused);
    p := Finishes(refused);
    Joins(start, refused, p);
  }

  lemma Finishes(q: Pipe) returns (p: Pipe)
    requires q.calls == At(LHandling) && q.hasHook && q.hook == []
    requires 0 in q.buffer.handles && q.buffer.handles[0].pc == B.HReturned(Fail(HandlerShutdown))
    ensures Leads(q, p) && p.rejected == q.rejected && p.buffer == q.buffer && p.hook == ["sent"]
    ensures p.calls == At(LDone(Handed(Fail(HandlerShutdown))))
  {
    var counting := q.(calls := At(LCounting(Fail(HandlerShutdown))));
    p := q.(calls := At(LDone(Handed(Fail(HandlerShutdown)))), hook := ["sent"]);
    Stays(q);
    assert At(LHandling)[0 := CALL.(pc := LCounting(Fail(HandlerShutdown)))] == counting.calls;
    assert Next(q, StepLog(0, 0, [])) == Some(counting);
    Then(q, q, StepLog(0, 0, []), counting);
    assert counting.calls[0 := CALL.(pc := LDone(Handed(Fail(HandlerShutdown))))] == p.calls;
    assert q.hook + ["sent"] == ["sent"];
    assert Next(counting, StepLog(0, 0, [])) == Some(p);
    Then(q, counting, StepLog(0, 0, []), p);
  }
}
