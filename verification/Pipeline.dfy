/** A whole log call: the admission gate, the rate limiter, the buffer and the counter
    hook, with any number of calls and a shutdown running side by side. One step is one
    atomic load, one critical section, or one step of the buffer. */
module Pipeline {
  import opened Basics
  import opened Errors
  import B = Buffer
  import R = Rate

  type CallId = B.CallId

  /** How a call ended. The logger ignores what the buffer returned. */
  datatype Fate =
    | LoggerRejected
    | RateSuppressed
    | Handed(res: Result)

  datatype Pc =
    | LEnter                    // before isStopping
    | LRejecting                // saw stopping, not counted yet
    | LLimiting                 // before shouldLog
    | LEmitting                 // allowed, before the buffer's Handle
    | LHandling                 // inside the buffer's Handle
    | LCounting(res: Result)    // before the counter hook
    | LDone(fate: Fate)

  /** metric is empty for a call without a counter option. */
  datatype LogCall = LogCall(
    ctx: B.Ctx, view: nat, body: nat,
    opt: Option<R.RateLimitOpt>, metric: string,
    pc: Pc)

  datatype Pipe = Pipe(
    stopping: bool,
    rejected: nat,
    maxKeys: int,
    limits: R.Limits,
    hasHook: bool,
    hook: seq<string>,          // every Inc so far
    buffer: B.State,
    calls: map<CallId, LogCall>,
    asked: seq<R.Call>)         // history: every shouldLog so far

  function Init(size: int, maxKeys: int, hasHook: bool): Pipe {
    Pipe(false, 0, R.NewMaxKeys(maxKeys), R.EMPTY, hasHook, [], B.Init(size), map[], [])
  }

  datatype Action =
    | StartLog(c: CallId, ctx: B.Ctx, view: nat, body: nat, opt: Option<R.RateLimitOpt>, metric: string)
    | StepLog(c: CallId, now: int, order: seq<R.Key>)
    | Stop                      // the shutdown starts
    | StepBuffer(a: B.Action)

  ghost predicate LogCan(p: Pipe, c: CallId, q: R.Call)
    requires c in p.calls
  {
    match p.calls[c].pc
    case LLimiting => p.maxKeys >= 1 && R.Fits(p.limits, q)
    case LEmitting => c !in p.buffer.handles
    case LHandling => c in p.buffer.handles && p.buffer.handles[c].pc.HReturned?
    case LDone(_) => false
    case _ => true
  }

  ghost function LogGoes(p: Pipe, c: CallId, q: R.Call): Pc
    requires c in p.calls && LogCan(p, c, q)
  {
    match p.calls[c].pc
    case LEnter => if p.stopping then LRejecting else LLimiting
    case LRejecting => LDone(LoggerRejected)
    case LLimiting => if R.Answer(p.limits.entries, q).allow then LEmitting else LDone(RateSuppressed)
    case LEmitting => LHandling
    case LHandling => LCounting(p.buffer.handles[c].pc.res)
    case LCounting(res) => LDone(Handed(res))
    case LDone(f) => LDone(f)
  }

  ghost function LogStep(p: Pipe, c: CallId, now: int, order: seq<R.Key>): Option<Pipe> {
    if c !in p.calls then None else
    var l := p.calls[c];
    var q := R.Call(l.opt, now, order);
    if !LogCan(p, c, q) then None else
    Some(p.(calls := p.calls[c := l.(pc := LogGoes(p, c, q))],
            rejected := B.Plus(p.rejected, l.pc.LRejecting?),
            limits := if l.pc.LLimiting? then R.Step(p.maxKeys, p.limits, q) else p.limits,
            asked := if l.pc.LLimiting? then p.asked + [q] else p.asked,
            buffer := if l.pc.LEmitting?
                      then p.buffer.(handles := p.buffer.handles[c := B.Handle(l.ctx, l.view, l.body, B.HEnter)])
                      else p.buffer,
            hook := if l.pc.LCounting? && l.metric != "" && p.hasHook then p.hook + [l.metric] else p.hook))
  }

  /** Only a started shutdown asks the buffer to shut down; only log calls hand it
      records. */
  predicate BufferMay(p: Pipe, a: B.Action) {
    !a.EnterHandle? && (a.EnterShutdown? ==> p.stopping)
  }

  ghost function Next(p: Pipe, a: Action): Option<Pipe> {
    match a
    case StartLog(c, ctx, view, body, opt, metric) =>
      if c in p.calls then None
      else Some(p.(calls := p.calls[c := LogCall(ctx, view, body, opt, metric, LEnter)]))
    case StepLog(c, now, order) => LogStep(p, c, now, order)
    case Stop => Some(p.(stopping := true))
    case StepBuffer(b) =>
      if !BufferMay(p, b) then None else
      match B.Next(p.buffer, b)
      case None => None
      case Some(t) => Some(p.(buffer := t))
  }

  ghost function Exec(p: Pipe, run: seq<Action>): Option<Pipe>
    decreases |run|
  {
    if run == [] then Some(p) else
    match Next(p, run[0])
    case None => None
    case Some(t) => Exec(t, run[1..])
  }

  // ---- the invariant ----

  predicate InBuffer(l: LogCall) {
    l.pc.LHandling? || l.pc.LCounting? || (l.pc.LDone? && l.pc.fate.Handed?)
  }

  predicate Refused(l: LogCall) {
    l.pc == LDone(LoggerRejected)
  }

  predicate Suppressed(l: LogCall) {
    l.pc == LDone(RateSuppressed)
  }

  /** Emitted, through to the counter hook, with a metric to count. */
  predicate Counted(l: LogCall) {
    l.pc.LDone? && l.pc.fate.Handed? && l.metric != ""
  }

  /** Not in the buffer and not over. */
  predicate Ahead(l: LogCall) {
    l.pc.LEnter? || l.pc.LRejecting? || l.pc.LLimiting? || l.pc.LEmitting?
  }

  /** Past the gate and still able to touch limiter, buffer or hook. */
  predicate Admitted(l: LogCall) {
    l.pc.LLimiting? || l.pc.LEmitting? || l.pc.LHandling? || l.pc.LCounting?
  }
}
