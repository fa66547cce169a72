/** When the buffer can still refuse a call: from any reachable state in which a Handle
    call has its state check, or its refusal, ahead of it there is a way for the threads
    to go on after which it has been refused. */
module BufferRefusal {
  import opened Basics
  import opened Counting
  import opened Buffer
  import opened BufferInvariant

  predicate NoNewHandle(run: seq<Action>) {
    forall i | 0 <= i < |run| :: !run[i].EnterHandle?
  }

  /** A run of the threads there are, and of Shutdown calls, with no new Handle call. */
  ghost predicate Leads(s: State, t: State) {
    exists run :: Exec(s, run) == Some(t) && NoNewHandle(run)
  }

  lemma Stays(s: State)
    ensures Leads(s, s)
  {
    assert Exec(s, []) == Some(s) && NoNewHandle([]);
  }

  lemma Steps(s: State, a: Action, t: State)
    requires Next(s, a) == Some(t) && !a.EnterHandle?
    ensures Leads(s, t)
  {
    ExecOne(s, a, t);
    assert NoNewHandle([a]);
  }

  lemma Joins(s: State, t: State, u: State)
    requires Leads(s, t) && Leads(t, u)
    ensures Leads(s, u)
  {
    var one :| Exec(s, one) == Some(t) && NoNewHandle(one);
    var two :| Exec(t, two) == Some(u) && NoNewHandle(two);
    ExecThrough(s, one, t, two);
    assert NoNewHandle(one + two);
  }

  /** The call is about to be refused, or is still to look at the state. Once it has the
      read lock and the state is running it will not be refused: nobody can change the
      state under it. */
  predicate Undecided(s: State, pc: HandlePc) {
    match pc
    case HEnter => true
    case HReading => !s.phase.Running?
    case HRefused => true
    case HCountRejected => true
    case _ => false
  }

  // ---- from the state check on ----

  /** Where the state is not running and the read lock is free the call is refused. */
  lemma {:induction false} Refused(s: State, c: CallId) returns (t: State)
    requires c in s.handles && Undecided(s, s.handles[c].pc)
    requires s.handles[c].pc.HEnter? ==> !s.phase.Running? && !s.writer
    ensures Leads(s, t) && t.rejected > s.rejected
    decreases match s.handles[c].pc case HEnter => 3 case HReading => 2 case HRefused => 1 case _ => 0
  {
    var u := HandleStep(s, c).value;
    Steps(s, StepHandle(c), u);
    if s.handles[c].pc.HCountRejected? {
      t := u;
    } else {
      assert u.rejected == s.rejected && u.phase == s.phase;
      t := Refused(u, c);
      Joins(s, u, t);
    }
  }

  // ---- giving the lock back ----

  /** What driving other threads leaves alone. */
  ghost predicate Beside(s: State, c: CallId, t: State) {
    && (c in s.handles <==> c in t.handles) && (c in s.handles ==> t.handles[c] == s.handles[c])
    && t.rejected >= s.rejected
    && (s.shutdownCh ==> t.shutdownCh)
    && (!WorkerWrites(s.worker) ==> t.worker == s.worker)
    && (forall d | d in s.shutdowns :: d in t.shutdowns && MovesOut(s.shutdowns[d], t.shutdowns[d]))
  }

  /** A Shutdown that holds the write lock may move on to where it has given it back. */
  ghost predicate MovesOut(p: ShutdownPc, q: ShutdownPc) {
    q == p || (ShutdownWrites(p) && (q.SSet? || q.SUnlocked?))
  }

  /** A way there and on, seen from what is left alone. */
  lemma GoesBeside(s: State, t: State, u: State, c: CallId)
    requires Leads(s, t) && Leads(t, u) && Beside(s, c, t) && Beside(t, c, u)
    requires WorkerWrites(s.worker) || !WorkerWrites(t.worker)
    ensures Leads(s, u) && Beside(s, c, u)
  {
    Joins(s, t, u);
  }

  /** Whoever holds the write lock puts the state out of running and gives it back. */
  lemma WriterLeaves(s: State, c: CallId) returns (t: State)
    requires Inv(s) && s.writer
    ensures Leads(s, t) && Inv(t) && Beside(s, c, t) && !t.writer && !t.phase.Running?
    ensures t.flushes == s.flushes
  {
    if WorkerWrites(s.worker) {
      t := WorkerLeaves(s, c);
    } else {
      CountZero(s.shutdowns, ShutdownWrites);
      var d :| d in s.shutdowns && ShutdownWrites(s.shutdowns[d]);
      t := ShutdownLeaves(s, c, d);
    }
  }

  lemma WorkerMoves(s: State, c: CallId) returns (t: State)
    requires WorkerWrites(s.worker)
    ensures Next(s, StepWorker(Proceed)) == Some(t) && Beside(s, c, t) && t.flushes == s.flushes
    ensures if s.worker.WStopping? then t.worker == WStopSet && t.phase == Stopped else !t.writer && t.phase == s.phase
  {
    t := WorkerStep(s, Proceed).value;
  }

  lemma WorkerLeaves(s: State, c: CallId) returns (t: State)
    requires Inv(s) && WorkerWrites(s.worker)
    ensures Leads(s, t) && Inv(t) && Beside(s, c, t) && !t.writer && !t.phase.Running?
    ensures t.flushes == s.flushes
  {
    assert s.worker.WStopSet? ==> s.phase == Stopped;
    t := WorkerMoves(s, c);
    Steps(s, StepWorker(Proceed), t);
    NextKeeps(s, StepWorker(Proceed), t);
    if s.worker.WStopping? {
      var u := t;
      t := WorkerMoves(u, c);
      Steps(u, StepWorker(Proceed), t);
      NextKeeps(u, StepWorker(Proceed), t);
      GoesBeside(s, u, t, c);
    }
  }

  lemma ShutdownMoves(s: State, c: CallId, d: CallId) returns (t: State)
    requires d in s.shutdowns && ShutdownWrites(s.shutdowns[d])
    ensures Next(s, StepShutdown(d, Go)) == Some(t) && Beside(s, c, t) && d in t.shutdowns
    ensures t.flushes == s.flushes
    ensures !t.phase.Running? || s.phase.Running?
    ensures if s.shutdowns[d].SWriting? then t.shutdowns[d] == SSet && !t.phase.Running? else !t.writer
  {
    t := ShutdownStep(s, d, Go).value;
  }

  lemma ShutdownLeaves(s: State, c: CallId, d: CallId) returns (t: State)
    requires Inv(s) && d in s.shutdowns && ShutdownWrites(s.shutdowns[d])
    ensures Leads(s, t) && Inv(t) && Beside(s, c, t) && !t.writer && !t.phase.Running?
    ensures t.flushes == s.flushes
  {
    var go := StepShutdown(d, Go);
    assert s.shutdowns[d].SSet? ==> !s.phase.Running?;
    t := ShutdownMoves(s, c, d);
    Steps(s, go, t);
    NextKeeps(s, go, t);
    if s.shutdowns[d].SWriting? {
      var u := t;
      t := ShutdownMoves(u, c, d);
      Steps(u, go, t);
      NextKeeps(u, go, t);
      GoesBeside(s, u, t, c);
    }
  }

  function HandleRank(pc: HandlePc): nat {
    if pc.HReading? then 2 else if pc.HSending? then 1 else 0
  }

  lemma HandleMoves(s: State, c: CallId, h: CallId) returns (t: State)
    requires h in s.handles && h != c && HandleReads(s.handles[h]) && s.readers > 0
    ensures Next(s, StepHandle(h)) == Some(t) && Beside(s, c, t) && h in t.handles
    ensures t.writer == s.writer && t.phase == s.phase
    ensures if HandleReads(t.handles[h])
            then t.readers == s.readers && HandleRank(t.handles[h].pc) < HandleRank(s.handles[h].pc)
            else t.readers == s.readers - 1
  {
    t := HandleStep(s, h).value;
  }

  /** A Handle call that holds the read lock gives it back. */
  lemma {:induction false} HandleLeaves(s: State, c: CallId, h: CallId) returns (t: State)
    requires Inv(s) && h in s.handles && h != c && HandleReads(s.handles[h])
    ensures Leads(s, t) && Inv(t) && Beside(s, c, t)
    ensures t.readers == s.readers - 1 && t.writer == s.writer && t.phase == s.phase
    decreases HandleRank(s.handles[h].pc)
  {
    HoldersCount(s);
    t := HandleMoves(s, c, h);
    Steps(s, StepHandle(h), t);
    NextKeeps(s, StepHandle(h), t);
    if HandleReads(t.handles[h]) {
      var u := t;
      t := HandleLeaves(u, c, h);
      GoesBeside(s, u, t, c);
    }
  }

  lemma HoldersCount(s: State)
    requires LockInv(s)
    ensures (exists h :: h in s.handles && HandleReads(s.handles[h])) ==> s.readers > 0
    ensures (exists f :: f in s.flushes && FlushReads(s.flushes[f])) ==> s.readers > 0
  {
    CountZero(s.handles, HandleReads);
    CountZero(s.flushes, FlushReads);
  }

  function FlushRank(pc: FlushPc): nat {
    if pc.FReading? then 2 else if pc.FSending? then 1 else 0
  }

  function WayOut(pc: FlushPc): Branch {
    if pc.FSending? then TimerFires else Go
  }

  lemma FlushMoves(s: State, c: CallId, f: CallId) returns (t: State)
    requires f in s.flushes && FlushReads(s.flushes[f]) && s.readers > 0
    ensures Next(s, StepFlush(f, WayOut(s.flushes[f].pc))) == Some(t) && Beside(s, c, t) && f in t.flushes
    ensures t.writer == s.writer && t.phase == s.phase
    ensures if FlushReads(t.flushes[f])
            then t.readers == s.readers && FlushRank(t.flushes[f].pc) < FlushRank(s.flushes[f].pc)
            else t.readers == s.readers - 1
  {
    t := FlushStep(s, f, WayOut(s.flushes[f].pc)).value;
  }

  /** So does a Flush: its select can always take the timer. */
  lemma {:induction false} FlushLeaves(s: State, c: CallId, f: CallId) returns (t: State)
    requires Inv(s) && f in s.flushes && FlushReads(s.flushes[f])
    ensures Leads(s, t) && Inv(t) && Beside(s, c, t)
    ensures t.readers == s.readers - 1 && t.writer == s.writer && t.phase == s.phase
    decreases FlushRank(s.flushes[f].pc)
  {
    HoldersCount(s);
    var step := StepFlush(f, WayOut(s.flushes[f].pc));
    t := FlushMoves(s, c, f);
    Steps(s, step, t);
    NextKeeps(s, step, t);
    if FlushReads(t.flushes[f]) {
      var u := t;
      t := FlushLeaves(u, c, f);
      GoesBeside(s, u, t, c);
    }
  }

  /** All readers leave. */
  lemma {:induction false} ReadersLeave(s: State, c: CallId) returns (t: State)
    requires Inv(s) && (c in s.handles ==> s.handles[c].pc.HEnter?)
    ensures Leads(s, t) && Inv(t) && Beside(s, c, t)
    ensures t.readers == 0 && t.writer == s.writer && t.phase == s.phase
    decreases s.readers
  {
    if s.readers == 0 {
      t := s;
      Stays(s);
    } else {
      var u := OneReaderLeaves(s, c);
      t := ReadersLeave(u, c);
      GoesBeside(s, u, t, c);
    }
  }

  lemma OneReaderLeaves(s: State, c: CallId) returns (t: State)
    requires Inv(s) && (c in s.handles ==> s.handles[c].pc.HEnter?) && s.readers > 0
    ensures Leads(s, t) && Inv(t) && Beside(s, c, t)
    ensures t.readers == s.readers - 1 && t.writer == s.writer && t.phase == s.phase
  {
    CountZero(s.handles, HandleReads);
    CountZero(s.flushes, FlushReads);
    if h :| h in s.handles && HandleReads(s.handles[h]) {
      t := HandleLeaves(s, c, h);
    } else {
      var f :| f in s.flushes && FlushReads(s.flushes[f]);
      t := FlushLeaves(s, c, f);
    }
  }

  // ---- out of running ----

  lemma Unused(used: set<nat>) returns (x: nat)
    ensures x !in used
  {
    x := Above(used);
  }

  lemma {:induction false} Above(used: set<nat>) returns (x: nat)
    ensures forall y | y in used :: y < x
    decreases |used|
  {
    if used == {} {
      x := 0;
    } else {
      var y :| y in used;
      var z := Above(used - {y});
      x := if y < z then z else y + 1;
      assert used == (used - {y}) + {y};
    }
  }

  /** A new Shutdown call takes the write lock. */
  lemma ShutdownEnters(s: State, c: CallId) returns (t: State)
    requires Inv(s) && s.readers == 0 && !s.writer
    ensures Leads(s, t) && Inv(t) && Beside(s, c, t) && t.writer
  {
    var d := Unused(s.shutdowns.Keys);
    var u := s.(shutdowns := s.shutdowns[d := SEnter]);
    Steps(s, EnterShutdown(d), u);
    NextKeeps(s, EnterShutdown(d), u);
    t := ShutdownStep(u, d, Go).value;
    Steps(u, StepShutdown(d, Go), t);
    NextKeeps(u, StepShutdown(d, Go), t);
    Joins(s, u, t);
  }

  /** Somebody leaves running, with the lock free again, before the call looks. */
  lemma StopsFirst(s: State, c: CallId) returns (t: State)
    requires Inv(s) && (c in s.handles ==> s.handles[c].pc.HEnter?)
    ensures Leads(s, t) && Beside(s, c, t) && !t.writer && !t.phase.Running?
  {
    if s.writer {
      t := WriterLeaves(s, c);
    } else if !s.phase.Running? {
      t := s;
      Stays(s);
    } else {
      var u := ReadersLeave(s, c);
      var v := ShutdownEnters(u, c);
      GoesBeside(s, u, v, c);
      t := WriterLeaves(v, c);
      GoesBeside(s, v, t, c);
    }
  }

  /** Every undecided call can be refused. */
  lemma CanBeRefused(s: State, c: CallId) returns (t: State)
    requires Inv(s) && c in s.handles && Undecided(s, s.handles[c].pc)
    ensures Leads(s, t) && t.rejected > s.rejected
  {
    if s.handles[c].pc.HEnter? {
      var u := StopsFirst(s, c);
      t := Refused(u, c);
      Joins(s, u, t);
    } else {
      t := Refused(s, c);
    }
  }

  // ---- and no other call can ----

  ghost predicate Decided(s: State) {
    forall c | c in s.handles :: !Undecided(s, s.handles[c].pc)
  }

  lemma DecidedStays(s: State, a: Action, t: State)
    requires Inv(s) && Decided(s) && Next(s, a) == Some(t) && !a.EnterHandle?
    ensures Decided(t) && t.rejected == s.rejected
  {
    match a
    case StepHandle(c) => assert HandleStep(s, c) == Some(t);
    case StepFlush(c, b) => assert FlushStep(s, c, b) == Some(t);
    case StepShutdown(c, b) =>
      assert ShutdownStep(s, c, b) == Some(t);
      if s.shutdowns[c].SWriting? {
        WritersExcludeSenders(s);
      }
    case StepWorker(w) =>
      assert WorkerStep(s, w) == Some(t);
      if s.worker.WStopping? {
        WritersExcludeSenders(s);
      }
    case _ =>
  }
}
