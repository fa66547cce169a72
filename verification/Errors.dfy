/** Error values as the packages compare them. Wrapped stands for any error built
    around another one, which errors.Is looks through. */
module Errors {

  datatype Err =
    | BufferFull          // handler.ErrBufferFull
    | HandlerShutdown     // handler.ErrShutdown
    | LoggerShutdown      // logger.ErrLoggerShutdown
    | CtxDone             // the caller's own ctx.Err()
    | Downstream(code: nat)
    | Wrapped(inner: Err)

  /** A Go error result: None is nil. */
  datatype Result = Nil | Fail(err: Err)

  predicate IsHandlerShutdown(e: Err) {
    e.HandlerShutdown? || (e.Wrapped? && IsHandlerShutdown(e.inner))
  }

  /** translateLifecycleErr. */
  function Translate(r: Result): Result {
    if r.Fail? && IsHandlerShutdown(r.err) then Fail(LoggerShutdown) else r
  }

  // ---- what a caller of the logger sees of a handler's result ----

  /** The error with n others built around it. */
  function Layers(n: nat, e: Err): Err {
    if n == 0 then e else Wrapped(Layers(n - 1, e))
  }

  /** The handlers' shutdown error, under any number of layers. */
  ghost predicate ShutdownBelow(r: Result) {
    exists n: nat :: r == Fail(Layers(n, HandlerShutdown))
  }

  /** The logger's shutdown error stands for the handlers'; any other result is shown as
      it is. */
  ghost predicate ShownAs(r: Result, shown: Result) {
    shown == if ShutdownBelow(r) then Fail(LoggerShutdown) else r
  }

  lemma {:induction false} LayersAreFound(n: nat)
    ensures IsHandlerShutdown(Layers(n, HandlerShutdown))
  {
    if n > 0 {
      LayersAreFound(n - 1);
    }
  }

  lemma {:induction false} FoundInLayers(e: Err) returns (n: nat)
    requires IsHandlerShutdown(e)
    ensures e == Layers(n, HandlerShutdown)
  {
    if e.Wrapped? {
      n := FoundInLayers(e.inner);
      n := n + 1;
    } else {
      n := 0;
    }
  }

  lemma BelowFound(r: Result)
    ensures ShutdownBelow(r) <==> r.Fail? && IsHandlerShutdown(r.err)
  {
    if r.Fail? && IsHandlerShutdown(r.err) {
      var n := FoundInLayers(r.err);
      assert r == Fail(Layers(n, HandlerShutdown));
    }
    if n: nat :| r == Fail(Layers(n, HandlerShutdown)) {
      LayersAreFound(n);
    }
  }

  lemma TranslateShows(r: Result)
    ensures ShownAs(r, Translate(r)) && !ShutdownBelow(Translate(r))
    ensures Translate(r).Nil? <==> r.Nil?
  {
    BelowFound(r);
    BelowFound(Translate(r));
  }

  /** What is shown of two results: the first failure. */
  ghost predicate FirstShown(one: Result, two: Result, shown: Result) {
    ShownAs(if one.Fail? then one else two, shown)
  }
}
