/** Each log call counts its own metric and is judged by its own rate limit, over every
    run of the pipeline. */
module PipelinePerCall {
  import opened Basics
  import opened Counting
  import opened Pipeline
  import opened PipelineInvariant
  import opened PipelineGuarantees
  import R = Rate
  import RR = RateRuns

  // ---- the counter hook ----

  /** The call was emitted, whatever the buffer made of it, and names this metric. */
  function EmittedWith(metric: string): LogCall -> bool {
    (l: LogCall) => l.pc.LDone? && l.pc.fate.Handed? && l.metric == metric
  }

  ghost predicate HookInv(p: Pipe, metric: string) {
    multiset(p.hook)[metric] == if p.hasHook && metric != "" then Count(p.calls, EmittedWith(metric)) else 0
  }

  lemma HookNext(p: Pipe, a: Action, q: Pipe, metric: string)
    requires HookInv(p, metric) && Next(p, a) == Some(q)
    ensures HookInv(q, metric)
  {
    if a.StartLog? || a.StepLog? {
      CountUpdate(p.calls, a.c, q.calls[a.c], EmittedWith(metric));
    }
  }

  lemma {:induction false} HookRun(p: Pipe, run: seq<Action>, q: Pipe, metric: string)
    requires HookInv(p, metric) && Exec(p, run) == Some(q)
    ensures HookInv(q, metric)
    decreases |run|
  {
    if run != [] {
      var t := Next(p, run[0]).value;
      HookNext(p, run[0], t, metric);
      HookRun(t, run[1..], q, metric);
    }
  }

  /** The hook was called for a metric exactly once per emitted call that named it, and
      never without a hook or for a call that named none. */
  lemma HookExactly(size: int, maxKeys: int, hasHook: bool, p: Pipe, metric: string)
    requires Reachable(size, maxKeys, hasHook, p)
    ensures (multiset(p.hook)[metric]
             == if hasHook && metric != "" then Count(p.calls, EmittedWith(metric)) else 0)
  {
    var start := Init(size, maxKeys, hasHook);
    var run :| Exec(start, run) == Some(p);
    CountZero(start.calls, EmittedWith(metric));
    HookRun(start, run, p, metric);
    ConfigStays(start, run, p);
  }

  // ---- the limiter ----

  function Judged(opt: Option<R.RateLimitOpt>): LogCall -> bool {
    (l: LogCall) =>
      && l.opt == opt
      && (l.pc.LEmitting? || l.pc.LHandling? || l.pc.LCounting? || (l.pc.LDone? && !l.pc.fate.LoggerRejected?))
  }

  function SuppressedWith(opt: Option<R.RateLimitOpt>): LogCall -> bool {
    (l: LogCall) => l.opt == opt && l.pc == LDone(RateSuppressed)
  }

  /** How often the limiter was asked with this option. */
  function AskedWith(asked: seq<R.Call>, opt: Option<R.RateLimitOpt>): nat {
    if asked == [] then 0 else
    AskedWith(asked[..|asked| - 1], opt) + One(asked[|asked| - 1].opt == opt)
  }

  /** How often it refused with this option. */
  function DeniedWith(asked: seq<R.Call>, verdicts: seq<R.Verdict>, opt: Option<R.RateLimitOpt>): nat
    requires |asked| == |verdicts|
    decreases |asked|
  {
    if asked == [] then 0 else
    var n := |asked| - 1;
    DeniedWith(asked[..n], verdicts[..n], opt) + One(asked[n].opt == opt && !verdicts[n].allow)
  }

  ghost predicate OptionInv(p: Pipe, opt: Option<R.RateLimitOpt>) {
    && LimiterInv(p)
    && AskedWith(p.asked, opt) == Count(p.calls, Judged(opt))
    && (DeniedWith(p.asked, RR.Verdicts(p.maxKeys, R.EMPTY, p.asked), opt)
        == Count(p.calls, SuppressedWith(opt)))
  }

  lemma AskedSnoc(asked: seq<R.Call>, verdicts: seq<R.Verdict>, q: R.Call, v: R.Verdict, opt: Option<R.RateLimitOpt>)
    requires |asked| == |verdicts|
    ensures AskedWith(asked + [q], opt) == AskedWith(asked, opt) + One(q.opt == opt)
    ensures (DeniedWith(asked + [q], verdicts + [v], opt)
             == DeniedWith(asked, verdicts, opt) + One(q.opt == opt && !v.allow))
  {
    assert (asked + [q])[..|asked|] == asked && (verdicts + [v])[..|asked|] == verdicts;
  }

  lemma OptionStep(p: Pipe, c: CallId, now: int, order: seq<R.Key>, q: Pipe, opt: Option<R.RateLimitOpt>)
    requires OptionInv(p, opt) && LogStep(p, c, now, order) == Some(q)
    ensures OptionInv(q, opt)
  {
    LimiterKeeps(p, c, now, order, q);
    CountsMoveBy(p, c, now, order, q, opt);
    if p.calls[c].pc.LLimiting? {
      AskedNow(p, c, now, order, q, opt);
    } else {
      NobodyAsked(p, q, opt);
    }
  }

  lemma NobodyAsked(p: Pipe, q: Pipe, opt: Option<R.RateLimitOpt>)
    requires OptionInv(p, opt) && LimiterInv(q) && q.asked == p.asked && q.maxKeys == p.maxKeys
    requires Count(q.calls, Judged(opt)) == Count(p.calls, Judged(opt))
    requires Count(q.calls, SuppressedWith(opt)) == Count(p.calls, SuppressedWith(opt))
    ensures OptionInv(q, opt)
  {
  }

  lemma CountsMoveBy(p: Pipe, c: CallId, now: int, order: seq<R.Key>, q: Pipe, opt: Option<R.RateLimitOpt>)
    requires LogStep(p, c, now, order) == Some(q)
    ensures c in p.calls && c in q.calls && q.maxKeys == p.maxKeys
    ensures var asks := p.calls[c].pc.LLimiting? && p.calls[c].opt == opt;
            && Count(q.calls, Judged(opt)) == Count(p.calls, Judged(opt)) + One(asks)
            && (Count(q.calls, SuppressedWith(opt))
                == Count(p.calls, SuppressedWith(opt)) + One(asks && q.calls[c].pc == LDone(RateSuppressed)))
    ensures !p.calls[c].pc.LLimiting? ==> q.asked == p.asked
  {
    CallMoves(p, c, now, order, q, opt);
    CountUpdate(p.calls, c, q.calls[c], Judged(opt));
    CountUpdate(p.calls, c, q.calls[c], SuppressedWith(opt));
  }

  /** A call starts to be judged, or is suppressed, in the step that asks the limiter and
      in no other. */
  lemma CallMoves(p: Pipe, c: CallId, now: int, order: seq<R.Key>, q: Pipe, opt: Option<R.RateLimitOpt>)
    requires LogStep(p, c, now, order) == Some(q)
    ensures c in p.calls && c in q.calls && q.calls == p.calls[c := q.calls[c]] && q.maxKeys == p.maxKeys
    ensures var asks, before, after := p.calls[c].pc.LLimiting?, p.calls[c], q.calls[c];
            && One(Judged(opt)(after)) == One(Judged(opt)(before)) + One(asks && before.opt == opt)
            && (One(SuppressedWith(opt)(after))
                == One(SuppressedWith(opt)(before))
                   + One(asks && before.opt == opt && after.pc == LDone(RateSuppressed)))
            && (!asks ==> q.asked == p.asked)
  {
  }

  /** The step that asks the limiter. */
  lemma AskedNow(p: Pipe, c: CallId, now: int, order: seq<R.Key>, q: Pipe, opt: Option<R.RateLimitOpt>)
    requires LimiterInv(p) && LimiterInv(q) && LogStep(p, c, now, order) == Some(q) && p.calls[c].pc.LLimiting?
    ensures c in q.calls && q.maxKeys == p.maxKeys
    ensures AskedWith(q.asked, opt) == AskedWith(p.asked, opt) + One(p.calls[c].opt == opt)
    ensures (DeniedWith(q.asked, RR.Verdicts(q.maxKeys, R.EMPTY, q.asked), opt)
             == DeniedWith(p.asked, RR.Verdicts(p.maxKeys, R.EMPTY, p.asked), opt)
                + One(p.calls[c].opt == opt && q.calls[c].pc == LDone(RateSuppressed)))
  {
    var call, verdicts := R.Call(p.calls[c].opt, now, order), RR.Verdicts(p.maxKeys, R.EMPTY, p.asked);
    RunSnoc(p.maxKeys, R.EMPTY, p.asked, call);
    AskedSnoc(p.asked, verdicts, call, R.Answer(p.limits.entries, call), opt);
  }

  lemma OptionNext(p: Pipe, a: Action, q: Pipe, opt: Option<R.RateLimitOpt>)
    requires OptionInv(p, opt) && Next(p, a) == Some(q)
    ensures OptionInv(q, opt)
  {
    match a
    case StartLog(c, _, _, _, _, _) =>
      CountUpdate(p.calls, c, q.calls[c], Judged(opt));
      CountUpdate(p.calls, c, q.calls[c], SuppressedWith(opt));
      CountUpdate(p.calls, c, q.calls[c], Suppressed);
    case StepLog(c, now, order) => OptionStep(p, c, now, order, q, opt);
    case _ =>
  }

  lemma {:induction false} OptionRun(p: Pipe, run: seq<Action>, q: Pipe, opt: Option<R.RateLimitOpt>)
    requires OptionInv(p, opt) && Exec(p, run) == Some(q)
    ensures OptionInv(q, opt)
    decreases |run|
  {
    if run != [] {
      var t := Next(p, run[0]).value;
      OptionNext(p, run[0], t, opt);
      OptionRun(t, run[1..], q, opt);
    }
  }

  /** The limiter is asked once per call that passed the gate, with that call's own
      option, and refuses with an option as often as calls with it were suppressed. */
  lemma JudgedByOwnOption(size: int, maxKeys: int, hasHook: bool, p: Pipe, opt: Option<R.RateLimitOpt>)
    requires Reachable(size, maxKeys, hasHook, p)
    ensures LimiterInv(p)
    ensures AskedWith(p.asked, opt) == Count(p.calls, Judged(opt))
    ensures (DeniedWith(p.asked, RR.Verdicts(p.maxKeys, R.EMPTY, p.asked), opt)
             == Count(p.calls, SuppressedWith(opt)))
  {
    var start := Init(size, maxKeys, hasHook);
    var run :| Exec(start, run) == Some(p);
    InitInv(size, maxKeys, hasHook);
    CountZero(start.calls, Judged(opt));
    CountZero(start.calls, SuppressedWith(opt));
    OptionRun(start, run, p, opt);
  }

  // ---- what a call was made with ----

  lemma {:induction false} CallKept(p: Pipe, run: seq<Action>, q: Pipe, c: CallId)
    requires c in p.calls && Exec(p, run) == Some(q)
    ensures c in q.calls && q.calls[c] == p.calls[c].(pc := q.calls[c].pc)
    decreases |run|
  {
    if run != [] {
      CallKept(Next(p, run[0]).value, run[1..], q, c);
    }
  }

  /** What a call was made with, it keeps through every run, up to the buffer's record of
      it. */
  lemma CallKeepsItsOwn(size: int, p: Pipe, start: Action, begun: Pipe, run: seq<Action>, q: Pipe)
    requires PipeInv(size, p) && start.StartLog? && Next(p, start) == Some(begun) && Exec(begun, run) == Some(q)
    ensures start.c in q.calls
    ensures var l := q.calls[start.c];
            && l.ctx == start.ctx && l.view == start.view && l.body == start.body
            && l.opt == start.opt && l.metric == start.metric
    ensures start.c in q.buffer.handles ==>
              var h := q.buffer.handles[start.c];
              h.ctx == start.ctx && h.view == start.view && h.body == start.body
  {
    CallKept(begun, run, q, start.c);
    NextKeeps(size, p, start, begun);
    ExecKeeps(size, begun, run, q);
    assert CallsInv(q);
  }
}
