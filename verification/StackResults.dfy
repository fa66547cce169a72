/** What callers of a logger's Flush and Shutdown are told about its two buffers: the
    first failure in handler order, and never the handlers' own shutdown error. */
module StackResults {
  import opened Basics
  import opened Errors
  import opened Buffer
  import opened BufferGuarantees
  import opened Stack
  import opened StackInvariant
  import opened StackGuarantees

  lemma KeepShows(one: Result, two: Result)
    ensures FirstShown(one, two, Keep(Translate(one), two)) && !ShutdownBelow(Keep(Translate(one), two))
  {
    TranslateShows(one);
    TranslateShows(two);
  }

  // ---- flush ----

  predicate FlushOver(s: State, f: CallId) {
    f in s.flushes && s.flushes[f].pc.FReturned?
  }

  /** A group flush past its first handler holds what that one is shown as; one that has
      returned was turned away by a stopping group, or shows the first failure of its own
      two Flush calls. */
  ghost predicate FlushTold(k: Stack, f: CallId, pc: GroupFlushPc) {
    match pc
    case PSecond(first) => FlushOver(k.first, f) && first == Translate(k.first.flushes[f].pc.res)
    case PReturned(res) =>
      || (k.stopping && res == Fail(LoggerShutdown))
      || (&& FlushOver(k.first, f) && FlushOver(k.second, f)
          && FirstShown(k.first.flushes[f].pc.res, k.second.flushes[f].pc.res, res))
    case _ => true
  }

  ghost predicate AllTold(k: Stack) {
    forall f | f in k.flushers :: FlushTold(k, f, k.flushers[f].pc)
  }

  lemma ToldStays(k: Stack, m: Stack, f: CallId, pc: GroupFlushPc)
    requires FlushTold(k, f, pc) && Grows(k.first, m.first) && Grows(k.second, m.second) && (k.stopping ==> m.stopping)
    ensures FlushTold(m, f, pc)
  {
  }

  lemma OwnTold(k: Stack, f: CallId, m: Stack)
    requires f in k.flushers && FlushTold(k, f, k.flushers[f].pc) && GroupFlushGo(k, f) == Some(m)
    requires Grows(k.first, m.first) && Grows(k.second, m.second)
    ensures FlushTold(m, f, m.flushers[f].pc)
  {
    var pc := k.flushers[f].pc;
    if pc.PSecond? {
      KeepShows(k.first.flushes[f].pc.res, k.second.flushes[f].pc.res);
    }
  }

  lemma FlushersMove(k: Stack, a: StackAction, m: Stack)
    requires StackNext(k, a) == Some(m)
    ensures forall f | f in m.flushers ::
              || (f in k.flushers && m.flushers[f] == k.flushers[f])
              || (f in k.flushers && a == GroupFlushStep(f) && GroupFlushGo(k, f) == Some(m))
              || m.flushers[f].pc.PEnter?
  {
    match a
    case GroupFlushStep(f) => assert GroupFlushGo(k, f) == Some(m);
    case StopStep(c, b) => assert StopGo(k, c, b) == Some(m);
    case Drain => assert DrainGo(k) == Some(m);
    case _ =>
  }

  lemma BothGrow(k: Stack, a: StackAction, m: Stack)
    requires StackInv(k) && StackNext(k, a) == Some(m)
    ensures Grows(k.first, m.first) && Grows(k.second, m.second) && (k.stopping ==> m.stopping)
  {
    BuffersMove(k, a, m);
    MovesKeep(k.first, m.first);
    MovesKeep(k.second, m.second);
    ControlGrows(k, a, m);
  }

  lemma ToldNext(k: Stack, a: StackAction, m: Stack)
    requires AllTold(k) && StackNext(k, a) == Some(m)
    requires Grows(k.first, m.first) && Grows(k.second, m.second) && (k.stopping ==> m.stopping)
    ensures AllTold(m)
  {
    FlushersMove(k, a, m);
    forall f | f in m.flushers ensures FlushTold(m, f, m.flushers[f].pc) {
      if f in k.flushers && m.flushers[f] == k.flushers[f] {
        ToldStays(k, m, f, k.flushers[f].pc);
      } else if f in k.flushers && a == GroupFlushStep(f) {
        OwnTold(k, f, m);
      }
    }
  }

  lemma {:induction false} ToldRun(k: Stack, run: seq<StackAction>, m: Stack)
    requires StackInv(k) && AllTold(k) && StackExec(k, run) == Some(m)
    ensures AllTold(m)
    decreases |run|
  {
    if run != [] {
      var u := StackNext(k, run[0]).value;
      StackNextKeeps(k, run[0], u);
      BothGrow(k, run[0], u);
      ToldNext(k, run[0], u);
      ToldRun(u, run[1..], m);
    }
  }

  lemma ReachableTold(k: Stack)
    requires StackReachable(k)
    ensures AllTold(k)
  {
    var run, outerFirst, m, n :| StackExec(Start(outerFirst, m, n), run) == Some(k);
    StartInv(outerFirst, m, n);
    ToldRun(Start(outerFirst, m, n), run, k);
  }

  /** A group flush that has returned was turned away because the group was stopping, or
      has flushed both handlers and returns the first failure in their order. Either way
      the handlers' shutdown error reaches no caller, bare or wrapped. */
  lemma FlushResult(k: Stack, f: CallId)
    requires StackReachable(k) && f in k.flushers && k.flushers[f].pc.PReturned?
    ensures var res := k.flushers[f].pc.res;
            && !ShutdownBelow(res)
            && ((k.stopping && res == Fail(LoggerShutdown))
                || (&& FlushOver(k.first, f) && FlushOver(k.second, f)
                    && FirstShown(k.first.flushes[f].pc.res, k.second.flushes[f].pc.res, res)))
  {
    ReachableTold(k);
    assert FlushTold(k, f, k.flushers[f].pc);
    var res := k.flushers[f].pc.res;
    BelowFound(res);
    if FlushOver(k.first, f) && FlushOver(k.second, f) {
      var r1, r2 := k.first.flushes[f].pc.res, k.second.flushes[f].pc.res;
      BelowFound(if r1.Fail? then r1 else r2);
    }
  }

  /** The gate of a group flush: not begun, or turned away. */
  predicate TurnedAway(k: Stack, f: CallId) {
    f in k.flushers && (k.flushers[f].pc.PEnter? || k.flushers[f].pc == PReturned(Fail(LoggerShutdown)))
  }

  lemma StaysTurnedAway(k: Stack, a: StackAction, m: Stack, f: CallId)
    requires k.stopping && TurnedAway(k, f) && StackNext(k, a) == Some(m)
    ensures m.stopping && TurnedAway(m, f)
  {
    match a
    case GroupFlushStep(g) => assert GroupFlushGo(k, g) == Some(m);
    case StopStep(c, b) => assert StopGo(k, c, b) == Some(m);
    case Drain => assert DrainGo(k) == Some(m);
    case _ =>
  }

  lemma {:induction false} AwayForGood(k: Stack, run: seq<StackAction>, m: Stack, f: CallId)
    requires k.stopping && TurnedAway(k, f) && StackExec(k, run) == Some(m)
    ensures TurnedAway(m, f)
    decreases |run|
  {
    if run != [] {
      var u := StackNext(k, run[0]).value;
      StaysTurnedAway(k, run[0], u, f);
      AwayForGood(u, run[1..], m, f);
    }
  }

  /** A group flush that begins once the group is stopping asks no handler and returns the
      logger's shutdown error. */
  lemma FlushAfterStop(k: Stack, f: CallId, entered: Stack, run: seq<StackAction>, m: Stack)
    requires k.stopping && StackNext(k, GroupFlushEnter(f)) == Some(entered) && StackExec(entered, run) == Some(m)
    ensures f in m.flushers && (m.flushers[f].pc.PReturned? ==> m.flushers[f].pc.res == Fail(LoggerShutdown))
    ensures f in m.flushers && !m.flushers[f].pc.PChecked? && !m.flushers[f].pc.PFirst? && !m.flushers[f].pc.PSecond?
  {
    AwayForGood(entered, run, m, f);
  }

  // ---- shutdown ----

  /** The final error of a completed shutdown is the first failure of the two handlers'
      own Shutdown calls, in their order; a caller gets that error, or its context's if
      that fired first. The handlers' shutdown error reaches none, bare or wrapped. */
  lemma ShutdownResult(k: Stack, c: CallId)
    requires StackReachable(k)
    ensures k.doneCh ==>
              && Finished(k.first) && Finished(k.second) && !ShutdownBelow(k.err)
              && FirstShown(k.first.shutdowns[DRAIN].res, k.second.shutdowns[DRAIN].res, k.err)
    ensures c in k.stoppers && k.stoppers[c].CReturned? ==>
              && !ShutdownBelow(k.stoppers[c].res)
              && (k.stoppers[c].viaDone ==> k.doneCh && k.stoppers[c].res == k.err)
              && (!k.stoppers[c].viaDone ==> k.stoppers[c].res == Fail(CtxDone))
  {
    SharedShutdown(k, c);
    if k.doneCh {
      KeepShows(k.first.shutdowns[DRAIN].res, k.second.shutdowns[DRAIN].res);
    }
    BelowFound(Fail(CtxDone));
  }
}
