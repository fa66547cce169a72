/** Downstream errors over whole runs of the buffered handler: each is counted, and each
    reaches at most one caller of Flush or Shutdown. */
module BufferErrors {
  import opened Basics
  import opened Counting
  import opened Errors
  import opened Buffer

  /** What happens to firstErr: the worker records an error, or a caller takes what is
      there. */
  datatype ErrEvent = Recorded(err: Err) | Taken(res: Result)

  /** This step is the return of a Flush through its barrier, or of a Shutdown that has
      seen the worker gone. */
  predicate Returns(s: State, a: Action, t: State) {
    || (&& a.StepFlush? && a.c in s.flushes && !s.flushes[a.c].pc.FReturned?
        && a.c in t.flushes && t.flushes[a.c].pc.FReturned? && t.flushes[a.c].pc.how == Exit.ThroughBarrier)
    || (&& a.StepShutdown? && a.c in s.shutdowns && !s.shutdowns[a.c].SReturned?
        && a.c in t.shutdowns && t.shutdowns[a.c].SReturned? && t.shutdowns[a.c].drained)
  }

  /** What the caller of this step takes with it. */
  function Handed(t: State, a: Action): Result {
    if a.StepFlush? && a.c in t.flushes && t.flushes[a.c].pc.FReturned? then t.flushes[a.c].pc.res
    else if a.StepShutdown? && a.c in t.shutdowns && t.shutdowns[a.c].SReturned? then t.shutdowns[a.c].res
    else Nil
  }

  function EventOf(s: State, a: Action, t: State): seq<ErrEvent> {
    if Returns(s, a, t) then [Taken(Handed(t, a))]
    else if a.StepWorker? && s.worker.WCounted? then [Recorded(s.worker.err)]
    else []
  }

  /** The error events of a run, in order. */
  function ErrEvents(s: State, run: seq<Action>): seq<ErrEvent>
    decreases |run|
  {
    if run == [] then [] else
    match Next(s, run[0])
    case None => []
    case Some(t) => EventOf(s, run[0], t) + ErrEvents(t, run[1..])
  }

  /** What a caller would be handed after these events. */
  function Pending(first: Result, events: seq<ErrEvent>): Result {
    if events == [] then first else
    var before, last := Pending(first, events[..|events| - 1]), events[|events| - 1];
    match last
    case Taken(_) => Nil
    case Recorded(e) => if before.Fail? then before else Fail(e)
  }

  lemma {:induction false} PendingCons(first: Result, x: ErrEvent, xs: seq<ErrEvent>)
    ensures Pending(first, [x] + xs) == Pending(Pending(first, [x]), xs)
    decreases |xs|
  {
    if xs == [] {
      assert [x] + xs == [x];
    } else {
      var all := [x] + xs;
      PendingCons(first, x, xs[..|xs| - 1]);
      assert all[..|all| - 1] == [x] + xs[..|xs| - 1];
    }
  }

  lemma PendingStep(s: State, a: Action, t: State)
    requires Next(s, a) == Some(t)
    ensures t.firstErr == Pending(s.firstErr, EventOf(s, a, t))
    ensures Returns(s, a, t) ==> Handed(t, a) == s.firstErr
  {
    match a
    case StepHandle(c) => assert HandleStep(s, c) == Some(t);
    case StepFlush(c, b) => assert FlushStep(s, c, b) == Some(t);
    case StepShutdown(c, b) => assert ShutdownStep(s, c, b) == Some(t);
    case StepWorker(w) => assert WorkerStep(s, w) == Some(t);
    case _ =>
  }

  lemma {:induction false} TakenIsPending(s: State, run: seq<Action>, t: State, i: nat)
    requires Exec(s, run) == Some(t) && i < |ErrEvents(s, run)| && ErrEvents(s, run)[i].Taken?
    ensures ErrEvents(s, run)[i].res == Pending(s.firstErr, ErrEvents(s, run)[..i])
    decreases |run|
  {
    var u := Next(s, run[0]).value;
    var now, rest := EventOf(s, run[0], u), ErrEvents(u, run[1..]);
    var all := now + rest;
    PendingStep(s, run[0], u);
    if now == [] {
      assert all == rest;
      TakenIsPending(u, run[1..], t, i);
    } else if i == 0 {
      assert all[..0] == [];
    } else {
      TakenIsPending(u, run[1..], t, i - 1);
      assert all[..i] == now + rest[..i - 1] && now == [now[0]];
      PendingCons(s.firstErr, now[0], rest[..i - 1]);
    }
  }

  /** Event j recorded the error that event i handed out: nothing was handed out in
      between, and every earlier record had been handed out by then, or dropped behind an
      earlier one that had. */
  ghost predicate Source(events: seq<ErrEvent>, i: int, j: int) {
    && 0 <= j < i < |events| && events[i].Taken? && events[j].Recorded?
    && events[i].res == Fail(events[j].err)
    && (forall n | j < n < i :: !events[n].Taken?)
    && (forall n | 0 <= n < j && events[n].Recorded? :: TakenBetween(events, n, j))
  }

  ghost predicate TakenBetween(events: seq<ErrEvent>, n: int, j: int) {
    exists m :: n < m < j && 0 <= m < |events| && events[m].Taken?
  }

  lemma {:induction false} PendingSource(events: seq<ErrEvent>, i: nat) returns (j: nat)
    requires i <= |events| && Pending(Nil, events[..i]).Fail?
    ensures j < i && events[j] == Recorded(Pending(Nil, events[..i]).err)
    ensures forall n | j < n < i :: !events[n].Taken?
    ensures forall n | 0 <= n < j && events[n].Recorded? :: TakenBetween(events, n, j)
    decreases i
  {
    assert events[..i][..i - 1] == events[..i - 1];
    if Pending(Nil, events[..i - 1]).Fail? {
      j := PendingSource(events, i - 1);
    } else {
      j := i - 1;
      NothingPending(events, i - 1);
    }
  }

  lemma {:induction false} NothingPending(events: seq<ErrEvent>, i: nat)
    requires i <= |events| && Pending(Nil, events[..i]).Nil?
    ensures forall n | 0 <= n < i && events[n].Recorded? :: TakenBetween(events, n, i)
    decreases i
  {
    if i > 0 {
      assert events[..i][..i - 1] == events[..i - 1];
      assert events[i - 1].Taken?;
    }
  }

  /** An error handed to a caller was recorded by the worker since the last time one was
      handed out, and was the first recorded since. */
  lemma HandedWasRecorded(size: int, run: seq<Action>, t: State, i: nat) returns (j: nat)
    requires Exec(Init(size), run) == Some(t) && i < |ErrEvents(Init(size), run)|
    requires ErrEvents(Init(size), run)[i].Taken? && ErrEvents(Init(size), run)[i].res.Fail?
    ensures Source(ErrEvents(Init(size), run), i, j)
  {
    TakenIsPending(Init(size), run, t, i);
    j := PendingSource(ErrEvents(Init(size), run), i);
  }

  /** A caller that is handed nil was not robbed: nothing was recorded since an error was
      last handed out. */
  lemma NilMeansNothingRecorded(size: int, run: seq<Action>, t: State, i: nat)
    requires Exec(Init(size), run) == Some(t) && i < |ErrEvents(Init(size), run)|
    requires ErrEvents(Init(size), run)[i] == Taken(Nil)
    ensures forall n | 0 <= n < i && ErrEvents(Init(size), run)[n].Recorded? ::
              TakenBetween(ErrEvents(Init(size), run), n, i)
  {
    TakenIsPending(Init(size), run, t, i);
    NothingPending(ErrEvents(Init(size), run), i);
  }

  /** Two callers are never handed the same record. */
  lemma HandedOnce(events: seq<ErrEvent>, i: int, j: int, k: int, l: int)
    requires Source(events, i, j) && Source(events, k, l) && i < k
    ensures j < i < l < k
  {
    assert events[i].Taken? && events[l].Recorded?;
  }

  // ---- the counter ----

  /** Whether the wrapped handler fails in this step. */
  predicate Fails(s: State, a: Action) {
    a.StepWorker? && s.worker.WHold? && a.w.Returned? && a.w.res.Fail?
  }

  function Failed(s: State, run: seq<Action>): nat
    decreases |run|
  {
    if run == [] then 0 else
    match Next(s, run[0])
    case None => 0
    case Some(t) => One(Fails(s, run[0])) + Failed(t, run[1..])
  }

  function RecordsIn(events: seq<ErrEvent>): nat {
    if events == [] then 0 else One(events[0].Recorded?) + RecordsIn(events[1..])
  }

  lemma CountStep(s: State, a: Action, t: State)
    requires Next(s, a) == Some(t)
    ensures t.handlerErrors + One(t.worker.WFailed?) == s.handlerErrors + One(s.worker.WFailed?) + One(Fails(s, a))
    ensures (RecordsIn(EventOf(s, a, t)) + One(t.worker.WCounted?) + s.handlerErrors
             == t.handlerErrors + One(s.worker.WCounted?))
  {
    match a
    case StepHandle(c) => assert HandleStep(s, c) == Some(t);
    case StepFlush(c, b) => assert FlushStep(s, c, b) == Some(t);
    case StepShutdown(c, b) => assert ShutdownStep(s, c, b) == Some(t);
    case StepWorker(w) => assert WorkerStep(s, w) == Some(t);
    case _ =>
  }

  lemma {:induction false} RecordsConcat(a: seq<ErrEvent>, b: seq<ErrEvent>)
    ensures RecordsIn(a + b) == RecordsIn(a) + RecordsIn(b)
    decreases |a|
  {
    if a == [] {
      assert a + b == b;
    } else {
      RecordsConcat(a[1..], b);
      assert (a + b)[1..] == a[1..] + b;
    }
  }

  /** HandlerErrors counts the failures of the wrapped handlers, all but one the worker
      is just about to count, and each counted one is recorded once, all but one it is
      just about to record. */
  lemma {:induction false} ErrorsCounted(s: State, run: seq<Action>, t: State)
    requires Exec(s, run) == Some(t)
    ensures t.handlerErrors + One(t.worker.WFailed?) == s.handlerErrors + One(s.worker.WFailed?) + Failed(s, run)
    ensures (RecordsIn(ErrEvents(s, run)) + One(t.worker.WCounted?) + s.handlerErrors
             == t.handlerErrors + One(s.worker.WCounted?))
    decreases |run|
  {
    if run != [] {
      var u := Next(s, run[0]).value;
      CountStep(s, run[0], u);
      ErrorsCounted(u, run[1..], t);
      RecordsConcat(EventOf(s, run[0], u), ErrEvents(u, run[1..]));
    }
  }
}
