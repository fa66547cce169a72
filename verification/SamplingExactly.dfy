/** Which records exactly the sampler emits, over whole runs: in terms of the records,
    their times and the interval alone. */
module SamplingExactly {
  import opened Sampling
  import opened SamplingRuns

  /** At or above the level, past the gate, and with an interval to keep. */
  predicate Asks(c: Config, r: Req, k: Key) {
    r.level >= c.minLevel && !r.gated && c.interval > 0 && r.key == k
  }

  /** What neither the level nor the gate leaves to the table. */
  lemma {:induction false} OutsideTheTable(c: Config, s: Table, reqs: seq<Req>, j: nat)
    requires c.maxKeys >= 1 && Run(c, s, reqs) && j < |reqs|
    ensures reqs[j].level < c.minLevel ==> Decisions(c, s, reqs)[j]
    ensures reqs[j].level >= c.minLevel && reqs[j].gated ==> !Decisions(c, s, reqs)[j]
    ensures reqs[j].level >= c.minLevel && !reqs[j].gated && c.interval <= 0 ==> Decisions(c, s, reqs)[j]
    decreases j
  {
    if j > 0 {
      OutsideTheTable(c, Step(c, s, reqs[0]), reqs[1..], j - 1);
    }
  }

  lemma StepParts(c: Config, s: Table, r: Req)
    requires c.maxKeys >= 1 && Fits(c, s, r)
    ensures forall k | k in Step(c, s, r).last && !(Asks(c, r, k) && Allows(c, s, r)) ::
              k in s.last && Step(c, s, r).last[k] == s.last[k]
    ensures forall k | k in s.last && k !in Step(c, s, r).last && k !in Lost(c, s, r) :: r.now - s.last[k] >= c.interval
    ensures forall k | Asks(c, r, k) && Allows(c, s, r) :: k in Step(c, s, r).last && Step(c, s, r).last[k] == r.now
  {
    if Inserts(c, s, r) {
      EvictIsPart(s.last, c.maxKeys, r.now, c.interval, r.order);
    }
  }

  /** The first record of an untracked key is emitted. */
  lemma {:induction false} FirstIsEmitted(c: Config, s: Table, reqs: seq<Req>, j: nat, k: Key)
    requires c.maxKeys >= 1 && Run(c, s, reqs) && k !in s.last
    requires j < |reqs| && Asks(c, reqs[j], k) && forall n | 0 <= n < j :: !Asks(c, reqs[n], k)
    ensures Decisions(c, s, reqs)[j]
    decreases j
  {
    if j > 0 {
      StepParts(c, s, reqs[0]);
      FirstIsEmitted(c, Step(c, s, reqs[0]), reqs[1..], j - 1, k);
    }
  }

  /** The key was last emitted at t0, or was dropped with the interval over. */
  predicate EmittedAt(last: map<Key, int>, k: Key, interval: int, t0: int, clock: int) {
    if k in last then last[k] == t0 else clock - t0 >= interval
  }

  lemma {:induction false} ExactFrom(c: Config, s: Table, clock: int, reqs: seq<Req>, j: nat, k: Key, t0: int)
    requires c.maxKeys >= 1 && Run(c, s, reqs) && ClockFrom(clock, reqs)
    requires EmittedAt(s.last, k, c.interval, t0, clock)
    requires j < |reqs| && Asks(c, reqs[j], k)
    requires forall n | 0 <= n < j && Asks(c, reqs[n], k) :: !Decisions(c, s, reqs)[n]
    requires forall n | 0 <= n < j :: k !in Losses(c, s, reqs)[n]
    ensures Decisions(c, s, reqs)[j] <==> reqs[j].now - t0 >= c.interval
    decreases j
  {
    if j > 0 {
      var r, rest := reqs[0], reqs[1..];
      var t := Step(c, s, r);
      assert k !in Losses(c, s, reqs)[0] && (Asks(c, r, k) ==> !Decisions(c, s, reqs)[0]);
      StepParts(c, s, r);
      assert Losses(c, s, reqs)[1..] == Losses(c, t, rest);
      assert Decisions(c, s, reqs)[1..] == Decisions(c, t, rest);
      ExactFrom(c, t, r.now, rest, j - 1, k, t0);
    }
  }

  /** With a clock that does not go back: after an emission of a key the next one is its
      first record that comes a whole interval later, neither before nor after, as long
      as no forced pass takes the key. */
  lemma {:induction false} EmitsExactly(c: Config, s: Table, clock: int, reqs: seq<Req>, i: nat, j: nat, k: Key)
    requires c.maxKeys >= 1 && Run(c, s, reqs) && ClockFrom(clock, reqs)
    requires i < j < |reqs| && Asks(c, reqs[i], k) && Asks(c, reqs[j], k) && Decisions(c, s, reqs)[i]
    requires forall n | i < n < j && Asks(c, reqs[n], k) :: !Decisions(c, s, reqs)[n]
    requires forall n | i < n < j :: k !in Losses(c, s, reqs)[n]
    ensures Decisions(c, s, reqs)[j] <==> reqs[j].now - reqs[i].now >= c.interval
    decreases i
  {
    var r, rest := reqs[0], reqs[1..];
    var t := Step(c, s, r);
    assert Losses(c, s, reqs)[1..] == Losses(c, t, rest);
    assert Decisions(c, s, reqs)[1..] == Decisions(c, t, rest);
    if i == 0 {
      StepParts(c, s, r);
      ExactFrom(c, t, r.now, rest, j - 1, k, r.now);
    } else {
      EmitsExactly(c, t, r.now, rest, i - 1, j - 1, k);
    }
  }

  /** The key stays in the table throughout the run. */
  ghost predicate Tracked(c: Config, s: Table, reqs: seq<Req>, k: Key)
    requires c.maxKeys >= 1 && Run(c, s, reqs)
    decreases |reqs|
  {
    k in s.last && (reqs == [] || Tracked(c, Step(c, s, reqs[0]), reqs[1..], k))
  }

  lemma {:induction false} TrackedFrom(c: Config, s: Table, reqs: seq<Req>, j: nat, k: Key)
    requires c.maxKeys >= 1 && Run(c, s, reqs) && Tracked(c, s, reqs, k)
    requires j < |reqs| && Asks(c, reqs[j], k)
    requires forall n | 0 <= n < j && Asks(c, reqs[n], k) :: !Decisions(c, s, reqs)[n]
    ensures Decisions(c, s, reqs)[j] <==> reqs[j].now - s.last[k] >= c.interval
    decreases j
  {
    if j > 0 {
      var r, rest := reqs[0], reqs[1..];
      var t := Step(c, s, r);
      assert Asks(c, r, k) ==> !Decisions(c, s, reqs)[0];
      StepParts(c, s, r);
      assert Decisions(c, s, reqs)[1..] == Decisions(c, t, rest);
      TrackedFrom(c, t, rest, j - 1, k);
    }
  }

  /** The same for any clock while the key is tracked. */
  lemma {:induction false} TrackedExactly(c: Config, s: Table, reqs: seq<Req>, i: nat, j: nat, k: Key)
    requires c.maxKeys >= 1 && Run(c, s, reqs) && Tracked(c, s, reqs, k)
    requires i < j < |reqs| && Asks(c, reqs[i], k) && Asks(c, reqs[j], k) && Decisions(c, s, reqs)[i]
    requires forall n | i < n < j && Asks(c, reqs[n], k) :: !Decisions(c, s, reqs)[n]
    ensures Decisions(c, s, reqs)[j] <==> reqs[j].now - reqs[i].now >= c.interval
    decreases i
  {
    var r, rest := reqs[0], reqs[1..];
    var t := Step(c, s, r);
    assert Decisions(c, s, reqs)[1..] == Decisions(c, t, rest);
    if i == 0 {
      StepParts(c, s, r);
      TrackedFrom(c, t, rest, j - 1, k);
    } else {
      TrackedExactly(c, t, rest, i - 1, j - 1, k);
    }
  }

  /** Nothing is evicted while there is room, or by a record of a tracked key. */
  lemma NothingEvictedWithRoom(c: Config, s: Table, r: Req)
    requires c.maxKeys >= 1 && Fits(c, s, r) && (|s.last| < c.maxKeys || r.key in s.last)
    ensures Step(c, s, r).evicted == s.evicted && forall k | k in s.last :: k in Step(c, s, r).last
  {
  }
}
