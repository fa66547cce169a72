/** Why the stacked guarantees ask for the outer buffer first. With the inner one listed
    first, as a logger lists a Sink's own buffer before the one it adds, a shutdown can
    make the inner buffer refuse a record the outer one had accepted, and a flush can
    return nil with such a record still queued, for buffers of every size. */
module StackOrder {
  import opened Basics
  import opened Errors
  import opened Buffer
  import opened BufferCore
  import opened Stack
  import opened StackGuarantees
  import StackInvariant
  import BufferInvariant

  ghost predicate Reaches(k: Stack, m: Stack) {
    exists run :: StackExec(k, run) == Some(m)
  }

  lemma {:induction false} ExecConcat(k: Stack, one: seq<StackAction>, m: Stack, two: seq<StackAction>)
    requires StackExec(k, one) == Some(m)
    ensures StackExec(k, one + two) == StackExec(m, two)
    decreases |one|
  {
    if one == [] {
      assert one + two == two;
    } else {
      var all := one + two;
      assert all[0] == one[0] && all[1..] == one[1..] + two;
      ExecConcat(StackNext(k, one[0]).value, one[1..], m, two);
    }
  }

  lemma Step(k: Stack, a: StackAction) returns (m: Stack)
    requires StackNext(k, a).Some?
    ensures StackNext(k, a) == Some(m) && Reaches(k, m)
  {
    m := StackNext(k, a).value;
    assert [a][1..] == [];
    assert StackExec(k, [a]) == Some(m);
  }

  lemma Chain(k: Stack, m: Stack, n: Stack)
    requires Reaches(k, m) && Reaches(m, n)
    ensures Reaches(k, n)
  {
    var one :| StackExec(k, one) == Some(m);
    var two :| StackExec(m, two) == Some(n);
    ExecConcat(k, one, m, two);
  }

  function Owns(atFirst: bool, run: seq<Action>): seq<StackAction> {
    seq(|run|, i requires 0 <= i < |run| => Own(atFirst, run[i]))
  }

  /** A run of one buffer on its own is a run of the stack. */
  lemma {:induction false} OwnRun(k: Stack, atFirst: bool, run: seq<Action>, t: State)
    requires forall i | 0 <= i < |run| :: OnItsOwn(atFirst == k.outerFirst, run[i])
    requires Exec(if atFirst then k.first else k.second, run) == Some(t)
    ensures StackExec(k, Owns(atFirst, run)) == Some(Put(k, atFirst, t))
    decreases |run|
  {
    if run != [] {
      var u := Next(if atFirst then k.first else k.second, run[0]).value;
      OwnRun(Put(k, atFirst, u), atFirst, run[1..], t);
      assert Owns(atFirst, run)[0] == Own(atFirst, run[0]);
      assert Owns(atFirst, run)[1..] == Owns(atFirst, run[1..]);
    }
  }

  lemma {:induction false} StepsOnly(c: CallId, n: nat)
    ensures forall i | 0 <= i < |Steps(c, n)| :: Steps(c, n)[i] == StepHandle(c)
    decreases n
  {
    if n > 0 {
      StepsOnly(c, n - 1);
    }
  }

  const REC: Item := Record(0, Background, 0, 0)

  /** The outer buffer, listed second, accepts a record. */
  lemma OuterAccepts(m: int, n: int) returns (k: Stack)
    ensures Reaches(Start(false, m, n), k) && k == Start(false, m, n).(second := k.second)
    ensures 0 in k.second.handles && k.second.handles[0].pc == HReturned(Nil)
    ensures k.second.queue == [REC]
    ensures OnlyHandles(Init(m), k.second)
  {
    var start := Start(false, m, n);
    var t, i, res := HandleRuns(start.second, 0, Background, 0, 0);
    var run := [EnterHandle(0, Background, 0, 0)] + Steps(0, i);
    StepsOnly(0, i);
    OwnRun(start, false, run, t);
    k := Put(start, false, t);
    assert [] + [REC] == [REC];
  }

  // ---- shutdown ----

  /** A shutdown begins, and its goroutine asks the first handler, the inner buffer. */
  lemma AsksInner(k: Stack, m: int, n: int) returns (r: Stack)
    requires k == Start(false, m, n).(second := k.second)
    ensures Reaches(k, r) && r.second == k.second && !r.outerFirst
    ensures r.first == Init(n).(shutdowns := map[DRAIN := SEnter])
  {
    var a := Step(k, StopEnter(7));
    var b := Step(a, StopStep(7, Go));
    var c := Step(b, StopStep(7, Go));
    var d := Step(c, StopStep(7, Go));
    r := Step(d, Drain);
    Chain(k, a, b);
    Chain(k, b, c);
    Chain(k, c, d);
    Chain(k, d, r);
    assert r.first == Init(n).(shutdowns := map[][DRAIN := SEnter]);
  }

  /** The inner buffer leaves running. */
  lemma InnerStops(s: State, n: int) returns (t: State, run: seq<Action>)
    requires s == Init(n).(shutdowns := map[DRAIN := SEnter])
    ensures Exec(s, run) == Some(t) && forall i | 0 <= i < |run| :: OnItsOwn(false, run[i])
    ensures t.phase == ShuttingDown && !t.writer && t.handles == map[] && t.rejected == 0
  {
    var go := StepShutdown(DRAIN, Go);
    var a := ShutdownStep(s, DRAIN, Go).value;
    var b := ShutdownStep(a, DRAIN, Go).value;
    t := ShutdownStep(b, DRAIN, Go).value;
    ExecOne(s, go, a);
    ExecOne(a, go, b);
    ExecOne(b, go, t);
    ExecThrough(s, [go], a, [go]);
    ExecThrough(s, [go] + [go], b, [go]);
    run := [go] + [go] + [go];
  }

  /** The outer worker forwards the record to the inner buffer, whose Handle runs to its
      end. */
  lemma Forwards(k: Stack) returns (r: Stack, res: Result)
    requires !k.outerFirst && k.second.worker == WSelect && k.second.queue == [REC]
    requires !k.first.writer && k.first.handles == map[]
    ensures Reaches(k, r) && !r.outerFirst && r == k.(first := r.first, second := r.second)
    ensures OnlyHandles(k.first, r.first) && 0 in r.first.handles && r.first.handles[0].pc == HReturned(res)
    ensures res == if k.first.phase != Running then Fail(HandlerShutdown)
                   else if |k.first.queue| < k.first.cap then Nil else Fail(BufferFull)
    ensures r.first.queue == k.first.queue + (if res == Nil then [REC] else [])
    ensures r.first.rejected == Plus(k.first.rejected, res == Fail(HandlerShutdown))
    ensures r.second == k.second.(worker := WHold(REC, false), queue := [])
  {
    var a := Step(k, Own(false, StepWorker(Take)));
    TakesRecord(k.second, a.second);
    var t, i;
    t, i, res := HandleRuns(a.first, 0, Background, 0, 0);
    var enter := EnterHandle(0, Background, 0, 0);
    var b := Step(a, Forward);
    ExecOne(a.first, enter, b.first);
    ExecThrough(a.first, [enter], b.first, Steps(0, i));
    StepsOnly(0, i);
    OwnRun(b, true, Steps(0, i), t);
    r := Put(b, true, t);
    assert Reaches(b, r);
    Chain(k, a, b);
    Chain(k, b, r);
  }

  lemma TakesRecord(s: State, t: State)
    requires s.worker == WSelect && s.queue == [REC] && Next(s, StepWorker(Take)) == Some(t)
    ensures t == s.(worker := WHold(REC, false), queue := [])
  {
    assert s.done + [] == s.done && s.closed + {} == s.closed;
  }

  lemma ShutdownLoses(m: int, n: int) returns (k: Stack)
    ensures Reaches(Start(false, m, n), k) && !k.outerFirst
    ensures 0 in Outer(k).handles && Outer(k).handles[0].pc == HReturned(Nil)
    ensures 0 in Inner(k).handles && Inner(k).handles[0].pc == HReturned(Fail(HandlerShutdown))
  {
    var a := OuterAccepts(m, n);
    var b := AsksInner(a, m, n);
    var t, run := InnerStops(b.first, n);
    OwnRun(b, true, run, t);
    var c := Put(b, true, t);
    assert Reaches(b, c);
    var res;
    k, res := Forwards(c);
    Chain(Start(false, m, n), a, b);
    Chain(Start(false, m, n), b, c);
    Chain(Start(false, m, n), c, k);
  }

  /** Some run of the stack makes the inner buffer refuse a record the outer one had
      accepted. */
  ghost predicate ShutdownCanLose(outerFirst: bool, m: int, n: int) {
    exists k, c ::
      && Reaches(Start(outerFirst, m, n), k)
      && c in Outer(k).handles && Outer(k).handles[c].pc == HReturned(Nil)
      && c in Inner(k).handles && Inner(k).handles[c].pc == HReturned(Fail(HandlerShutdown))
  }

  lemma ReachesReachable(outerFirst: bool, m: int, n: int, k: Stack)
    requires Reaches(Start(outerFirst, m, n), k)
    ensures StackReachable(k) && k.outerFirst == outerFirst
  {
    var run :| StackExec(Start(outerFirst, m, n), run) == Some(k);
    StackInvariant.StartInv(outerFirst, m, n);
    StackExecGrows(Start(outerFirst, m, n), run, k);
  }

  /** For buffers of any sizes: a shutdown can lose accepted records exactly when the
      inner buffer is listed first. */
  lemma ShutdownOrderExactly(outerFirst: bool, m: int, n: int)
    ensures ShutdownCanLose(outerFirst, m, n) <==> !outerFirst
  {
    if outerFirst {
      forall k, c | Reaches(Start(true, m, n), k) && c in Inner(k).handles
        ensures Inner(k).handles[c].pc != HReturned(Fail(HandlerShutdown))
      {
        ReachesReachable(true, m, n, k);
        NothingRefusedBelow(k);
        assert !BufferInvariant.HandleRejected(Inner(k).handles[c]);
      }
    } else {
      var k := ShutdownLoses(m, n);
    }
  }

  // ---- flush ----

  /** A group flush that has begun after the record was accepted flushes the first
      handler, the inner buffer, while the record is still in the outer one. */
  lemma FlushesInner(k: Stack, f: CallId) returns (r: Stack)
    requires !k.outerFirst && !k.stopping && Idle(k.first) && k.first.flushes == map[]
    requires f in k.flushers && k.flushers[f].pc.PEnter?
    ensures Reaches(k, r) && r == k.(first := r.first, flushers := r.flushers)
    ensures Idle(r.first) && r.first.handles == k.first.handles && r.first.done == k.first.done + [Barrier(f)]
    ensures f in r.first.flushes && r.first.flushes[f].pc == FReturned(Nil, ThroughBarrier)
    ensures f in r.flushers && r.flushers[f].pc == PFirst
  {
    var a := Step(k, GroupFlushStep(f));
    var b := Step(a, GroupFlushStep(f));
    var t := FlushRuns(b.first, f);
    FlushRunOwn(f);
    OwnRun(b, true, FlushRun(f), t);
    r := Put(b, true, t);
    assert Reaches(b, r);
    Chain(k, a, b);
    Chain(k, b, r);
  }

  lemma FlushRunOwn(f: CallId)
    ensures forall i, isOuter | 0 <= i < |FlushRun(f)| :: OnItsOwn(isOuter, FlushRun(f)[i])
  {
  }

  /** The outer worker hands the record down and is told it was accepted. */
  lemma HandsDown(k: Stack) returns (r: Stack)
    requires !k.outerFirst && k.second.worker == WSelect && k.second.queue == [REC]
    requires Idle(k.first) && k.first.handles == map[]
    ensures Reaches(k, r) && r == k.(first := r.first, second := r.second)
    ensures OnlyHandles(k.first, r.first) && r.first.queue == [REC]
    ensures 0 in r.first.handles && r.first.handles[0].pc == HReturned(Nil)
    ensures r.second == k.second.(queue := [], done := k.second.done + [REC])
  {
    var a, res := Forwards(k);
    r := Step(a, Answer);
    Answered(a.second, r.second);
    Chain(k, a, r);
    assert [] + [REC] == [REC];
  }

  lemma Answered(s: State, t: State)
    requires s.worker == WHold(REC, false) && Next(s, StepWorker(Returned(Nil))) == Some(t)
    ensures t == s.(worker := WSelect, done := s.done + [REC])
  {
    assert s.closed + {} == s.closed;
  }

  /** Then it flushes the outer one, which is idle by now, and returns. */
  lemma FlushesOuter(k: Stack, f: CallId) returns (r: Stack)
    requires !k.outerFirst && Idle(k.second) && k.second.flushes == map[]
    requires f in k.first.flushes && k.first.flushes[f].pc == FReturned(Nil, ThroughBarrier)
    requires f in k.flushers && k.flushers[f].pc == PFirst
    ensures Reaches(k, r) && r.first == k.first && !r.outerFirst
    ensures f in r.flushers && r.flushers[f].pc == PReturned(Nil)
  {
    var a := Step(k, GroupFlushStep(f));
    var t := FlushRuns(a.second, f);
    FlushRunOwn(f);
    OwnRun(a, false, FlushRun(f), t);
    var b := Put(a, false, t);
    assert Reaches(a, b);
    r := Step(b, GroupFlushStep(f));
    Chain(k, a, b);
    Chain(k, b, r);
  }

  /** The record is past the inner buffer: at the sink, or dropped there. */
  predicate SettledBelow(k: Stack, h: CallId) {
    && h in Inner(k).handles
    && ((Inner(k).handles[h].pc == HReturned(Nil) && RecordOf(h, Inner(k).handles[h]) in Inner(k).done)
        || Inner(k).handles[h].pc == HReturned(Fail(BufferFull)))
  }

  /** A group flush entered at k, after the outer buffer had accepted h, returns nil with
      h unsettled. */
  ghost predicate FlushMisses(k: Stack, f: CallId, entered: Stack, t: Stack, h: CallId) {
    && h in Outer(k).handles && Outer(k).handles[h].pc == HReturned(Nil)
    && StackNext(k, GroupFlushEnter(f)) == Some(entered) && Reaches(entered, t)
    && f in t.flushers && t.flushers[f].pc == PReturned(Nil)
    && !SettledBelow(t, h)
  }

  lemma FlushLoses(m: int, n: int) returns (k: Stack, entered: Stack, t: Stack)
    ensures Reaches(Start(false, m, n), k) && FlushMisses(k, 5, entered, t, 0)
  {
    k := OuterAccepts(m, n);
    entered := Step(k, GroupFlushEnter(5));
    var a := FlushesInner(entered, 5);
    var b := HandsDown(a);
    t := FlushesOuter(b, 5);
    Chain(entered, a, b);
    Chain(entered, b, t);
    assert b.first.done == [] + [Barrier(5)];
  }

  ghost predicate FlushCanMiss(outerFirst: bool, m: int, n: int) {
    exists k, f, entered, t, h :: Reaches(Start(outerFirst, m, n), k) && FlushMisses(k, f, entered, t, h)
  }

  /** For buffers of any sizes: a group flush can return nil with an accepted record
      unsettled exactly when the inner buffer is listed first. */
  lemma FlushOrderExactly(outerFirst: bool, m: int, n: int)
    ensures FlushCanMiss(outerFirst, m, n) <==> !outerFirst
  {
    if outerFirst {
      forall k, f, entered, t, h | Reaches(Start(true, m, n), k) ensures !FlushMisses(k, f, entered, t, h) {
        if FlushMisses(k, f, entered, t, h) {
          ReachesReachable(true, m, n, k);
          var run :| StackExec(entered, run) == Some(t);
          GroupFlushDelivers(k, f, entered, run, t, h);
        }
      }
    } else {
      var k, entered, t := FlushLoses(m, n);
    }
  }
}
