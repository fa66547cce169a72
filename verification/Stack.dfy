/** Two stacked buffers owned by one lifecycle group: the outer buffer's worker
    hands each record to the inner buffer's Handle, the inner worker hands it to
    the sink. Group flush and group shutdown visit the two in a fixed order; the
    drain runs in its own goroutine, started once. */
module Stack {
  import opened Basics
  import opened Errors
  import opened Buffer

  datatype GroupFlushPc =
    | PEnter
    | PChecked              // stopping was false
    | PFirst                // inside the first handler's Flush
    | PSecond(first: Result)
    | PReturned(res: Result)

  /** mark is a history variable: what the outer buffer had accepted at the call. */
  datatype GroupFlush = GroupFlush(mark: nat, pc: GroupFlushPc)

  datatype StopPc =
    | CEnter                // before startOnce.Do
    | CStore                // inside it, before stopping.Store(true)
    | CSpawn                // inside it, before the go statement
    | CWaiting
    | CReturned(res: Result, viaDone: bool)

  datatype Once = NotRun | RunBy(c: CallId) | Ran

  datatype Drainer =
    | GNone
    | GStart
    | GFirst                // inside the first handler's Shutdown
    | GSecond(first: Result)
    | GStore(err: Result)   // before g.err is assigned
    | GClose                // before close(g.done)
    | GEnd

  datatype Stack = Stack(
    first: State, second: State, // in the order of the group's handlers
    outerFirst: bool,       // whether the first of them is the outer buffer
    once: Once, stopping: bool, spawned: nat,
    drainer: Drainer, err: Result, doneCh: bool,
    flushers: map<CallId, GroupFlush>,
    stoppers: map<CallId, StopPc>)

  function Start(outerFirst: bool, outerSize: int, innerSize: int): Stack {
    Stack(Init(if outerFirst then outerSize else innerSize), Init(if outerFirst then innerSize else outerSize),
          outerFirst, NotRun, false, 0, GNone, Nil, false, map[], map[])
  }

  datatype StackAction =
    | Own(atFirst: bool, a: Action) // a step of one buffer on its own
    | Forward                     // the outer worker calls the inner Handle
    | Answer                      // that Handle call comes back
    | GroupFlushEnter(f: CallId)
    | GroupFlushStep(g: CallId)
    | StopEnter(c: CallId)
    | StopStep(d: CallId, branch: Branch)
    | Drain

  const DRAIN: CallId := 0        // the one Shutdown call each buffer ever gets

  function Outer(k: Stack): State {
    if k.outerFirst then k.first else k.second
  }

  function Inner(k: Stack): State {
    if k.outerFirst then k.second else k.first
  }

  function Put(k: Stack, atFirst: bool, s: State): Stack {
    k.(first := if atFirst then s else k.first, second := if atFirst then k.second else s)
  }

  /** What a buffer does without the group and without its neighbour. The group's
      Shutdown runs under a context that never expires; only the outer worker
      calls the inner Handle, and that call's result is what the worker gets. */
  predicate OnItsOwn(isOuter: bool, a: Action) {
    match a
    case EnterShutdown(_) => false
    case StepShutdown(_, b) => b != CtxFires
    case EnterHandle(_, _, _, _) => isOuter
    case StepWorker(w) => isOuter ==> !w.Returned?
    case _ => true
  }

  function OwnStep(k: Stack, atFirst: bool, a: Action): Option<Stack> {
    if !OnItsOwn(atFirst == k.outerFirst, a) then None else
    match Next(if atFirst then k.first else k.second, a)
    case None => None
    case Some(s) => Some(Put(k, atFirst, s))
  }

  function ForwardStep(k: Stack): Option<Stack> {
    var w := Outer(k).worker;
    if !w.WHold? || !w.item.Record? then None else
    match Next(Inner(k), EnterHandle(w.item.call, w.item.ctx, w.item.view, w.item.body))
    case None => None
    case Some(s) => Some(Put(k, !k.outerFirst, s))
  }

  function AnswerStep(k: Stack): Option<Stack> {
    var w := Outer(k).worker;
    if !w.WHold? || !w.item.Record? || w.item.call !in Inner(k).handles then None else
    var pc := Inner(k).handles[w.item.call].pc;
    if !pc.HReturned? then None else
    match Next(Outer(k), StepWorker(Returned(pc.res)))
    case None => None
    case Some(s) => Some(Put(k, k.outerFirst, s))
  }

  /** first != nil keeps the first error; the rest are dropped. */
  function Keep(first: Result, next: Result): Result {
    if first.Fail? then first else Translate(next)
  }

  /** The buffer after its step a, where that step is being taken. */
  function After(s: State, a: Action, taken: bool): State {
    if taken && Next(s, a).Some? then Next(s, a).value else s
  }

  // ---- lifecycleGroup.flush ----

  predicate FlushReady(k: Stack, f: CallId, pc: GroupFlushPc) {
    match pc
    case PEnter => true
    case PChecked => f !in k.first.flushes
    case PFirst => f in k.first.flushes && k.first.flushes[f].pc.FReturned? && f !in k.second.flushes
    case PSecond(_) => f in k.second.flushes && k.second.flushes[f].pc.FReturned?
    case PReturned(_) => false
  }

  function GroupFlushGoes(k: Stack, f: CallId, pc: GroupFlushPc): GroupFlushPc
    requires FlushReady(k, f, pc)
  {
    match pc
    case PEnter => if k.stopping then PReturned(Fail(LoggerShutdown)) else PChecked
    case PChecked => PFirst
    case PFirst => PSecond(Translate(k.first.flushes[f].pc.res))
    case PSecond(first) => PReturned(Keep(first, k.second.flushes[f].pc.res))
  }

  function GroupFlushGo(k: Stack, f: CallId): Option<Stack> {
    if f !in k.flushers || !FlushReady(k, f, k.flushers[f].pc) then None else
    var pc := k.flushers[f].pc;
    Some(k.(flushers := k.flushers[f := k.flushers[f].(pc := GroupFlushGoes(k, f, pc))],
            first := After(k.first, EnterFlush(f), pc.PChecked?),
            second := After(k.second, EnterFlush(f), pc.PFirst?)))
  }

  // ---- lifecycleGroup.shutdown ----

  predicate StopReady(k: Stack, pc: StopPc, b: Branch) {
    match pc
    case CEnter => !k.once.RunBy?
    case CWaiting => b == CtxFires || k.doneCh
    case CReturned(_, _) => false
    case _ => true
  }

  function StopGoes(k: Stack, pc: StopPc, b: Branch): StopPc {
    match pc
    case CEnter => if k.once.NotRun? then CStore else CWaiting
    case CStore => CSpawn
    case CSpawn => CWaiting
    case CWaiting => if b == CtxFires then CReturned(Fail(CtxDone), false) else CReturned(k.err, true)
    case CReturned(_, _) => pc
  }

  function StopGo(k: Stack, c: CallId, b: Branch): Option<Stack> {
    if c !in k.stoppers || !StopReady(k, k.stoppers[c], b) then None else
    var pc := k.stoppers[c];
    Some(k.(stoppers := k.stoppers[c := StopGoes(k, pc, b)],
            once := if pc.CEnter? && k.once.NotRun? then RunBy(c) else if pc.CSpawn? then Ran else k.once,
            stopping := k.stopping || pc.CStore?,
            spawned := Plus(k.spawned, pc.CSpawn?),
            drainer := if pc.CSpawn? then GStart else k.drainer))
  }

  // ---- shutdownAllToCompletion, in its goroutine ----

  predicate Finished(s: State) {
    DRAIN in s.shutdowns && s.shutdowns[DRAIN].SReturned?
  }

  predicate DrainReady(k: Stack) {
    match k.drainer
    case GNone => false
    case GStart => DRAIN !in k.first.shutdowns
    case GFirst => Finished(k.first) && DRAIN !in k.second.shutdowns
    case GSecond(_) => Finished(k.second)
    case GEnd => false
    case _ => true
  }

  function DrainGoes(k: Stack): Drainer
    requires DrainReady(k)
  {
    match k.drainer
    case GStart => GFirst
    case GFirst => GSecond(Translate(k.first.shutdowns[DRAIN].res))
    case GSecond(first) => GStore(Keep(first, k.second.shutdowns[DRAIN].res))
    case GStore(_) => GClose
    case GClose => GEnd
  }

  function DrainGo(k: Stack): Option<Stack> {
    if !DrainReady(k) then None else
    var pc := k.drainer;
    Some(k.(drainer := DrainGoes(k),
            first := After(k.first, EnterShutdown(DRAIN), pc.GStart?),
            second := After(k.second, EnterShutdown(DRAIN), pc.GFirst?),
            err := if pc.GStore? then pc.err else k.err,
            doneCh := k.doneCh || pc.GClose?))
  }

  function StackNext(k: Stack, a: StackAction): Option<Stack> {
    match a
    case Own(atFirst, x) => OwnStep(k, atFirst, x)
    case Forward => ForwardStep(k)
    case Answer => AnswerStep(k)
    case GroupFlushEnter(f) =>
      if f in k.flushers then None else Some(k.(flushers := k.flushers[f := GroupFlush(|Outer(k).sent|, PEnter)]))
    case GroupFlushStep(f) => GroupFlushGo(k, f)
    case StopEnter(c) =>
      if c in k.stoppers then None else Some(k.(stoppers := k.stoppers[c := CEnter]))
    case StopStep(c, b) => StopGo(k, c, b)
    case Drain => DrainGo(k)
  }

  function StackExec(k: Stack, run: seq<StackAction>): Option<Stack>
    decreases |run|
  {
    if run == [] then Some(k) else
    match StackNext(k, run[0])
    case None => None
    case Some(t) => StackExec(t, run[1..])
  }
}
