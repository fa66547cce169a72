/** When the buffer can still reject a record, exactly. */
module PipelineClosed {
  import opened Basics
  import opened Pipeline
  import opened PipelineInvariant
  import opened PipelineWindow
  import PipelineGuarantees
  import Eviction
  import B = Buffer
  import BG = BufferGuarantees
  import BR = BufferRefusal
  import R = Rate

  /** The call is admitted, and the buffer's state check, or the refusal it led to, is
      still ahead of it. */
  predicate Exposed(p: Pipe, c: CallId)
    requires c in p.calls
  {
    match p.calls[c].pc
    case LLimiting => true
    case LEmitting => true
    case LHandling => c in p.buffer.handles && BR.Undecided(p.buffer, p.buffer.handles[c].pc)
    case _ => false
  }

  /** The shutdown has begun and no admitted call is exposed to it. */
  ghost predicate Sealed(p: Pipe) {
    p.stopping && forall c | c in p.calls :: !Exposed(p, c)
  }

  ghost predicate RejectsNoMore(p: Pipe) {
    forall run, q | Exec(p, run) == Some(q) :: q.buffer.rejected == p.buffer.rejected
  }

  // ---- sealed means no more ----

  lemma SealedDecides(p: Pipe)
    requires CallsInv(p) && Sealed(p)
    ensures BR.Decided(p.buffer)
  {
    forall c | c in p.buffer.handles ensures !BR.Undecided(p.buffer, p.buffer.handles[c].pc) {
      assert InBuffer(p.calls[c]) && Matches(p.calls[c], p.buffer.handles[c]);
      if p.calls[c].pc.LHandling? {
        assert !Exposed(p, c);
      }
    }
  }

  lemma SealedBuffer(size: int, p: Pipe, a: B.Action, q: Pipe)
    requires PipeInv(size, p) && Sealed(p) && Next(p, StepBuffer(a)) == Some(q)
    ensures Sealed(q) && q.buffer.rejected == p.buffer.rejected
  {
    BG.ReachableInv(size, p.buffer);
    SealedDecides(p);
    BR.DecidedStays(p.buffer, a, q.buffer);
    HandlesStay(p.buffer, a, q.buffer);
    forall c | c in q.calls ensures !Exposed(q, c) {
      assert !Exposed(p, c);
    }
  }

  lemma SealedStep(size: int, p: Pipe, a: Action, q: Pipe)
    requires PipeInv(size, p) && Sealed(p) && Next(p, a) == Some(q)
    ensures Sealed(q) && q.buffer.rejected == p.buffer.rejected
  {
    match a
    case StepBuffer(b) => SealedBuffer(size, p, b, q);
    case StepLog(c, now, order) =>
      assert LogStep(p, c, now, order) == Some(q) && !Exposed(p, c);
      forall d | d in q.calls ensures !Exposed(q, d) {
        assert !Exposed(p, d);
      }
    case _ =>
      forall d | d in q.calls ensures !Exposed(q, d) {
        assert d in p.calls ==> !Exposed(p, d);
      }
  }

  lemma {:induction false} SealedRun(size: int, p: Pipe, run: seq<Action>, q: Pipe)
    requires PipeInv(size, p) && Sealed(p) && Exec(p, run) == Some(q)
    ensures q.buffer.rejected == p.buffer.rejected
    decreases |run|
  {
    if run != [] {
      var t := Next(p, run[0]).value;
      NextKeeps(size, p, run[0], t);
      SealedStep(size, p, run[0], t);
      SealedRun(size, t, run[1..], q);
    }
  }

  // ---- otherwise some run rejects ----

  lemma {:induction false} LiftRun(p: Pipe, run: seq<B.Action>, t: B.State)
    requires p.stopping && B.Exec(p.buffer, run) == Some(t) && BR.NoNewHandle(run)
    ensures Leads(p, p.(buffer := t))
    decreases |run|
  {
    if run == [] {
      Stays(p);
    } else {
      var u := B.Next(p.buffer, run[0]).value;
      var q := p.(buffer := u);
      assert Next(p, StepBuffer(run[0])) == Some(q);
      Stays(p);
      Then(p, p, StepBuffer(run[0]), q);
      assert BR.NoNewHandle(run[1..]);
      LiftRun(q, run[1..], t);
      Joins(p, q, q.(buffer := t));
    }
  }

  lemma HandlingRejects(size: int, p: Pipe, c: CallId) returns (q: Pipe)
    requires PipeInv(size, p) && p.stopping && c in p.calls && p.calls[c].pc.LHandling? && Exposed(p, c)
    ensures Leads(p, q) && q.buffer.rejected > p.buffer.rejected
  {
    BG.ReachableInv(size, p.buffer);
    var t := BR.CanBeRefused(p.buffer, c);
    var run :| B.Exec(p.buffer, run) == Some(t) && BR.NoNewHandle(run);
    LiftRun(p, run, t);
    q := p.(buffer := t);
  }

  lemma OneLogStep(size: int, p: Pipe, c: CallId, now: int, order: seq<R.Key>) returns (q: Pipe)
    requires PipeInv(size, p) && LogStep(p, c, now, order).Some?
    ensures LogStep(p, c, now, order) == Some(q) && Leads(p, q) && PipeInv(size, q)
  {
    q := LogStep(p, c, now, order).value;
    LogKeeps(size, p, c, now, order, q);
    Stays(p);
    Then(p, p, StepLog(c, now, order), q);
  }

  lemma EmittingRejects(size: int, p: Pipe, c: CallId) returns (q: Pipe)
    requires PipeInv(size, p) && p.stopping && c in p.calls && p.calls[c].pc.LEmitting?
    ensures Leads(p, q) && q.buffer.rejected > p.buffer.rejected
  {
    assert !InBuffer(p.calls[c]);
    var u := OneLogStep(size, p, c, 0, []);
    q := HandlingRejects(size, u, c);
    Joins(p, u, q);
  }

  /** The limiter lets a call through at some later time. */
  lemma SomeTimeAllows(entries: map<R.Key, R.Entry>, opt: Option<R.RateLimitOpt>) returns (now: int)
    ensures forall order :: R.Answer(entries, R.Call(opt, now, order)).allow
  {
    now := 0;
    if opt.Some? && opt.value.key in entries {
      var e := entries[opt.value.key];
      now := e.lastSeen;
      if e.lastAllow.Some? && now < e.lastAllow.value + e.interval {
        now := e.lastAllow.value + e.interval;
      }
    }
  }

  lemma LimitingRejects(size: int, p: Pipe, c: CallId) returns (q: Pipe)
    requires PipeInv(size, p) && p.stopping && c in p.calls && p.calls[c].pc.LLimiting?
    ensures Leads(p, q) && q.buffer.rejected > p.buffer.rejected
  {
    var now := SomeTimeAllows(p.limits.entries, p.calls[c].opt);
    var order := Eviction.Enumeration(R.Live(p.limits.entries, now).Keys);
    var u := OneLogStep(size, p, c, now, order);
    q := EmittingRejects(size, u, c);
    Joins(p, u, q);
  }

  lemma ExposedRejects(size: int, p: Pipe, c: CallId) returns (q: Pipe)
    requires PipeInv(size, p) && p.stopping && c in p.calls && Exposed(p, c)
    ensures Leads(p, q) && q.buffer.rejected > p.buffer.rejected
  {
    match p.calls[c].pc
    case LLimiting => q := LimitingRejects(size, p, c);
    case LEmitting => q := EmittingRejects(size, p, c);
    case LHandling => q := HandlingRejects(size, p, c);
  }

  /** Before the shutdown a new call can pass the gate and then be overtaken by it. */
  lemma OpenRejects(size: int, p: Pipe) returns (q: Pipe)
    requires PipeInv(size, p) && !p.stopping
    ensures Leads(p, q) && q.buffer.rejected > p.buffer.rejected
  {
    var c := BR.Unused(p.calls.Keys);
    var start := StartLog(c, B.Background, 0, 0, None, "");
    var a := Next(p, start).value;
    Stays(p);
    Then(p, p, start, a);
    StartKeeps(size, p, start, a);
    var b := OneLogStep(size, a, c, 0, []);
    var s := b.(stopping := true);
    Then(b, b, Stop, s) by {
      Stays(b);
    }
    NextKeeps(size, b, Stop, s);
    q := LimitingRejects(size, s, c);
    Joins(p, a, b);
    Joins(p, b, s);
    Joins(p, s, q);
  }

  /** No run from a reachable state makes the buffer reject another record exactly when
      the shutdown has begun and no admitted call has its state check in the buffer, or
      the refusal it led to, still ahead. */
  lemma RejectsNoMoreExactly(size: int, maxKeys: int, hasHook: bool, p: Pipe)
    requires PipelineGuarantees.Reachable(size, maxKeys, hasHook, p)
    ensures RejectsNoMore(p) <==> Sealed(p)
  {
    PipelineGuarantees.ReachableInv(size, maxKeys, hasHook, p);
    if Sealed(p) {
      forall run, q | Exec(p, run) == Some(q) ensures q.buffer.rejected == p.buffer.rejected {
        SealedRun(size, p, run, q);
      }
    } else {
      var q := Unsealed(size, p);
      var run :| Exec(p, run) == Some(q);
    }
  }

  lemma Unsealed(size: int, p: Pipe) returns (q: Pipe)
    requires PipeInv(size, p) && !Sealed(p)
    ensures Leads(p, q) && q.buffer.rejected > p.buffer.rejected
  {
    if p.stopping {
      var c :| c in p.calls && Exposed(p, c);
      q := ExposedRejects(size, p, c);
    } else {
      q := OpenRejects(size, p);
    }
  }
}
