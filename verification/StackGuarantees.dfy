/** What Flush and Shutdown of a logger with two stacked buffers promise, over
    every run. */
module StackGuarantees {
  import opened Basics
  import opened Counting
  import opened Errors
  import opened Buffer
  import opened BufferInvariant
  import opened BufferGuarantees
  import opened Stack
  import opened StackInvariant

  ghost predicate StackReachable(k: Stack) {
    exists run, outerFirst, m, n :: StackExec(Start(outerFirst, m, n), run) == Some(k)
  }

  lemma StackReachableInv(k: Stack)
    requires StackReachable(k)
    ensures StackInv(k)
  {
    var run, outerFirst, m, n :| StackExec(Start(outerFirst, m, n), run) == Some(k);
    StartInv(outerFirst, m, n);
    StackExecKeeps(Start(outerFirst, m, n), run, k);
  }

  // ---- what later steps keep ----

  ghost predicate StackGrows(k: Stack, m: Stack) {
    && m.outerFirst == k.outerFirst
    && Grows(k.first, m.first) && Grows(k.second, m.second)
    && (k.stopping ==> m.stopping)
    && (k.doneCh ==> m.doneCh && m.err == k.err)
    && (forall f | f in k.flushers ::
          && f in m.flushers && m.flushers[f].mark == k.flushers[f].mark
          && (k.flushers[f].pc.PReturned? ==> m.flushers[f] == k.flushers[f]))
  }

  lemma StackNextGrows(k: Stack, a: StackAction, m: Stack)
    requires StackInv(k) && StackNext(k, a) == Some(m)
    ensures StackGrows(k, m)
  {
    BuffersMove(k, a, m);
    MovesKeep(k.first, m.first);
    MovesKeep(k.second, m.second);
    FlushersOf(k, a, m);
    ControlGrows(k, a, m);
  }

  lemma ControlGrows(k: Stack, a: StackAction, m: Stack)
    requires GroupInv(k) && StackNext(k, a) == Some(m)
    ensures k.stopping ==> m.stopping
    ensures k.doneCh ==> m.doneCh && m.err == k.err
  {
    match a
    case GroupFlushStep(f) => assert GroupFlushGo(k, f) == Some(m);
    case StopStep(c, b) => assert StopGo(k, c, b) == Some(m);
    case Drain => assert DrainGo(k) == Some(m);
    case _ =>
  }

  lemma {:induction false} StackExecGrows(k: Stack, run: seq<StackAction>, m: Stack)
    requires StackInv(k) && StackExec(k, run) == Some(m)
    ensures StackGrows(k, m) && StackInv(m)
    decreases |run|
  {
    if run != [] {
      var u := StackNext(k, run[0]).value;
      StackNextKeeps(k, run[0], u);
      StackNextGrows(k, run[0], u);
      StackExecGrows(u, run[1..], m);
      GrowsOn(k.first, u.first, m.first);
      GrowsOn(k.second, u.second, m.second);
    } else {
      GrowsStill(k.first);
      GrowsStill(k.second);
    }
  }

  lemma GrowsOn(s: State, t: State, u: State)
    requires Grows(s, t) && Grows(t, u)
    ensures Grows(s, u)
  {
  }

  lemma GrowsStill(s: State)
    ensures Grows(s, s)
  {
  }

  // ---- flush ----

  /** A logger Flush over buffers listed outermost first that returns nil: every
      record the outer buffer had accepted before the call has reached the sink or
      is one the inner buffer dropped because it was full. */
  lemma GroupFlushDelivers(k: Stack, f: CallId, entered: Stack, run: seq<StackAction>, m: Stack, h: CallId)
    requires StackReachable(k) && k.outerFirst
    requires h in Outer(k).handles && Outer(k).handles[h].pc == HReturned(Nil)
    requires StackNext(k, GroupFlushEnter(f)) == Some(entered) && StackExec(entered, run) == Some(m)
    requires f in m.flushers && m.flushers[f].pc == PReturned(Nil)
    ensures h in Inner(m).handles
    ensures || (Inner(m).handles[h].pc == HReturned(Nil) && RecordOf(h, Inner(m).handles[h]) in Inner(m).done)
            || HandleDropped(Inner(m).handles[h])
  {
    StackReachableInv(k);
    var i := AcceptedBeforeMark(k, f, entered, h);
    StackNextKeeps(k, GroupFlushEnter(f), entered);
    StackExecGrows(entered, run, m);
    SettledAtMark(m, f, i);
  }

  lemma AcceptedBeforeMark(k: Stack, f: CallId, entered: Stack, h: CallId) returns (i: nat)
    requires SentInv(k.first) && StackNext(k, GroupFlushEnter(f)) == Some(entered)
    requires k.outerFirst && h in k.first.handles && k.first.handles[h].pc == HReturned(Nil)
    ensures entered.first == k.first && f in entered.flushers && entered.outerFirst
    ensures i < entered.flushers[f].mark == |k.first.sent|
    ensures entered.first.sent[i] == RecordOf(h, k.first.handles[h])
  {
    i := AcceptedIndex(k.first, h);
  }

  /** A group flush that returned nil has settled everything before its mark. */
  lemma SettledAtMark(m: Stack, f: CallId, i: nat)
    requires StackInv(m) && m.outerFirst
    requires f in m.flushers && m.flushers[f].pc == PReturned(Nil) && i < m.flushers[f].mark
    ensures i < |m.first.sent|
    ensures m.first.sent[i].Record? ==>
              var h := m.first.sent[i].call;
              && h in m.second.handles
              && ((m.second.handles[h].pc == HReturned(Nil) && RecordOf(h, m.second.handles[h]) in m.second.done)
                  || HandleDropped(m.second.handles[h]))
  {
    assert FlushEntry(m, f, m.flushers[f]);
    assert Settled(m, m.first.sent[i]);
    if m.first.sent[i].Record? {
      assert NotRefused(m.second.handles[m.first.sent[i].call].pc);
    }
  }

  // ---- shutdown ----

  /** With the outer buffer first, a group shutdown never makes the inner buffer
      refuse a record the outer one had accepted, and whatever the outer buffer
      finished was accepted or dropped by the inner one. */
  lemma NothingRefusedBelow(k: Stack)
    requires StackReachable(k) && k.outerFirst
    ensures Inner(k).rejected == 0
    ensures forall c | c in Inner(k).handles :: !HandleRejected(Inner(k).handles[c])
    ensures forall it | it in Outer(k).done && it.Record? ::
              && it.call in Inner(k).handles
              && (HandleSent(Inner(k).handles[it.call]) || HandleDropped(Inner(k).handles[it.call]))
  {
    StackReachableInv(k);
    CountZero(k.second.handles, HandleRejected);
    forall it | it in k.first.done && it.Record?
      ensures HandleSent(k.second.handles[it.call]) || HandleDropped(k.second.handles[it.call])
    {
      assert NotRefused(k.second.handles[it.call].pc);
    }
  }

  /** Any set of concurrent Shutdown callers shares one drain: it starts at most
      once and only after stopping is set; each caller leaves with its own context
      error or with the one final error; that error is readable only when both
      workers are gone, and is the first translated one in handler order. */
  lemma SharedShutdown(k: Stack, c: CallId)
    requires StackReachable(k)
    ensures k.spawned <= 1 && (k.spawned == 1 ==> k.stopping)
    ensures k.first.shutdowns != map[] || k.second.shutdowns != map[] ==> k.stopping
    ensures k.first.shutdowns.Keys <= {DRAIN} && k.second.shutdowns.Keys <= {DRAIN}
    ensures c in k.stoppers && k.stoppers[c].CReturned? ==>
              if k.stoppers[c].viaDone then k.doneCh && k.stoppers[c].res == k.err
              else k.stoppers[c].res == Fail(CtxDone)
    ensures k.doneCh ==>
              && k.first.workerDone && k.second.workerDone
              && Finished(k.first) && Finished(k.second)
              && k.err == FinalErr(k)
  {
    StackReachableInv(k);
  }

  /** stopping is never cleared and the final error never changes. */
  lemma ShutdownIsFinal(k: Stack, run: seq<StackAction>, m: Stack)
    requires StackReachable(k) && StackExec(k, run) == Some(m)
    ensures k.stopping ==> m.stopping
    ensures k.doneCh ==> m.doneCh && m.err == k.err && m.first.queue == [] && m.second.queue == []
  {
    StackReachableInv(k);
    StackExecGrows(k, run, m);
  }

  /** After a completed shutdown of the outer-first stack every record the outer
      buffer ever accepted is at the sink or in the inner Dropped count. */
  lemma ShutdownLosesNothing(k: Stack, h: CallId)
    requires StackReachable(k) && k.outerFirst && k.doneCh
    requires h in Outer(k).handles && Outer(k).handles[h].pc == HReturned(Nil)
    ensures h in Inner(k).handles
    ensures RecordOf(h, Inner(k).handles[h]) in Inner(k).done || HandleDropped(Inner(k).handles[h])
  {
    StackReachableInv(k);
    NothingRefusedBelow(k);
    assert RecordOf(h, k.first.handles[h]) in k.first.done;
  }
}
