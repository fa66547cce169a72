/** What the sampler promises over whole runs. A run is any list of records; each
    record's forced pass may meet the keys in any order. */
module SamplingRuns {
  import opened Eviction
  import opened Sampling

  ghost predicate Run(c: Config, s: Table, reqs: seq<Req>)
    requires c.maxKeys >= 1
    decreases |reqs|
  {
    reqs == [] || (Fits(c, s, reqs[0]) && Run(c, Step(c, s, reqs[0]), reqs[1..]))
  }

  ghost function After(c: Config, s: Table, reqs: seq<Req>): Table
    requires c.maxKeys >= 1 && Run(c, s, reqs)
    decreases |reqs|
  {
    if reqs == [] then s else After(c, Step(c, s, reqs[0]), reqs[1..])
  }

  ghost function Decisions(c: Config, s: Table, reqs: seq<Req>): (d: seq<bool>)
    requires c.maxKeys >= 1 && Run(c, s, reqs)
    ensures |d| == |reqs|
    decreases |reqs|
  {
    if reqs == [] then [] else [Allows(c, s, reqs[0])] + Decisions(c, Step(c, s, reqs[0]), reqs[1..])
  }

  /** The live entries a forced pass takes during this step. */
  ghost function Lost(c: Config, s: Table, r: Req): set<Key>
    requires c.maxKeys >= 1 && Fits(c, s, r)
  {
    if !Inserts(c, s, r) then {} else
    Unexpired(s.last, r.now, c.interval).Keys - Evict(s.last, c.maxKeys, r.now, c.interval, r.order).Keys
  }

  ghost function Losses(c: Config, s: Table, reqs: seq<Req>): (l: seq<set<Key>>)
    requires c.maxKeys >= 1 && Run(c, s, reqs)
    ensures |l| == |reqs|
    decreases |reqs|
  {
    if reqs == [] then [] else [Lost(c, s, reqs[0])] + Losses(c, Step(c, s, reqs[0]), reqs[1..])
  }

  predicate ClockFrom(clock: int, reqs: seq<Req>)
    decreases |reqs|
  {
    reqs == [] || (clock <= reqs[0].now && ClockFrom(reqs[0].now, reqs[1..]))
  }

  // ---- the unbounded table ----

  /** The same decision over a table without a bound. */
  predicate UAllows(c: Config, ref: map<Key, int>, r: Req) {
    if r.level < c.minLevel then true
    else if r.gated then false
    else c.interval <= 0 || r.key !in ref || Elapsed(r.now, ref[r.key]) >= c.interval
  }

  function UStep(c: Config, ref: map<Key, int>, r: Req): map<Key, int> {
    if Sampled(c, r) && UAllows(c, ref, r) then ref[r.key := r.now] else ref
  }

  /** Decisions of a table that forgets nothing but the given keys at each step. */
  function Unbounded(c: Config, ref: map<Key, int>, reqs: seq<Req>, forget: seq<set<Key>>): (d: seq<bool>)
    requires |forget| == |reqs|
    decreases |reqs|
  {
    if reqs == [] then [] else
    [UAllows(c, ref - forget[0], reqs[0])] + Unbounded(c, UStep(c, ref - forget[0], reqs[0]), reqs[1..], forget[1..])
  }

  /** The bounded table holds what the reference holds, minus entries that can no
      longer suppress anything. */
  ghost predicate Agree(c: Config, s: Table, ref: map<Key, int>, clock: int) {
    && (forall k | k in s.last :: k in ref && ref[k] == s.last[k])
    && (forall k | k in ref && k !in s.last :: clock - ref[k] >= c.interval)
  }

  lemma EvictIsPart(last: map<Key, int>, maxKeys: int, now: int, interval: int, order: seq<Key>)
    requires maxKeys >= 1 && Enumerates(order, Unexpired(last, now, interval).Keys)
    ensures Within(Evict(last, maxKeys, now, interval, order), last)
    ensures |last| <= maxKeys ==> |Evict(last, maxKeys, now, interval, order)| < maxKeys
  {
    var kept := Unexpired(last, now, interval);
    if |last| >= maxKeys && |kept| >= maxKeys {
      EnumeratesLength(order, kept.Keys);
      TargetsAgree(maxKeys);
      ForcedExact(kept, order, SamplerTarget(maxKeys));
    }
  }

  lemma SameDecision(c: Config, s: Table, ref: map<Key, int>, clock: int, r: Req)
    requires c.maxKeys >= 1 && Fits(c, s, r) && Agree(c, s, ref, clock) && clock <= r.now
    ensures Allows(c, s, r) == UAllows(c, ref - Lost(c, s, r), r)
    ensures Agree(c, Step(c, s, r), UStep(c, ref - Lost(c, s, r), r), r.now)
  {
    if Inserts(c, s, r) {
      EvictIsPart(s.last, c.maxKeys, r.now, c.interval, r.order);
    }
  }

  /** For a clock that does not go back, dropping expired entries never changes a
      decision: the sampler answers every record as a table without a bound would
      that forgets only what forced passes take. */
  lemma {:induction false} Simulates(c: Config, s: Table, ref: map<Key, int>, clock: int, reqs: seq<Req>)
    requires c.maxKeys >= 1 && Run(c, s, reqs) && ClockFrom(clock, reqs)
    requires Agree(c, s, ref, clock)
    ensures Decisions(c, s, reqs) == Unbounded(c, ref, reqs, Losses(c, s, reqs))
    decreases |reqs|
  {
    if reqs != [] {
      var r := reqs[0];
      var lost := Lost(c, s, r);
      SameDecision(c, s, ref, clock, r);
      Simulates(c, Step(c, s, r), UStep(c, ref - lost, r), r.now, reqs[1..]);
      assert Losses(c, s, reqs)[1..] == Losses(c, Step(c, s, r), reqs[1..]);
    }
  }

  /** Until a forced pass takes something, the sampler is the unbounded table. */
  lemma UntilForced(c: Config, clock: int, reqs: seq<Req>)
    requires c.maxKeys >= 1 && Run(c, EMPTY, reqs) && ClockFrom(clock, reqs)
    requires forall i | 0 <= i < |reqs| :: Losses(c, EMPTY, reqs)[i] == {}
    ensures Decisions(c, EMPTY, reqs) == Unbounded(c, map[], reqs, Nothing<Key>(|reqs|))
  {
    Simulates(c, EMPTY, map[], clock, reqs);
    assert Losses(c, EMPTY, reqs) == Nothing<Key>(|reqs|);
  }

  lemma RunCons(c: Config, s: Table, r: Req, t: Table, rest: seq<Req>)
    requires c.maxKeys >= 1 && Fits(c, s, r) && Step(c, s, r) == t && Run(c, t, rest)
    ensures var reqs := [r] + rest;
            && Run(c, s, reqs)
            && Decisions(c, s, reqs) == [Allows(c, s, r)] + Decisions(c, t, rest)
            && Losses(c, s, reqs) == [Lost(c, s, r)] + Losses(c, t, rest)
  {
    assert ([r] + rest)[1..] == rest;
  }

  lemma UnboundedCons(c: Config, ref: map<Key, int>, r: Req, rest: seq<Req>)
    ensures (Unbounded(c, ref, [r] + rest, Nothing<Key>(|rest| + 1))
             == [UAllows(c, ref, r)] + Unbounded(c, UStep(c, ref, r), rest, Nothing<Key>(|rest|)))
  {
    assert ([r] + rest)[1..] == rest && Nothing<Key>(|rest| + 1)[1..] == Nothing<Key>(|rest|);
    assert ref - Nothing<Key>(|rest| + 1)[0] == ref;
  }

  /** The assumption on the clock is needed: after two expired entries were reclaimed
      and the clock went back, the bounded table emits a record that the unbounded
      one holds back, with no forced pass in sight. */
  lemma ClockMustNotGoBack() returns (c: Config, reqs: seq<Req>)
    ensures c.maxKeys >= 1 && Run(c, EMPTY, reqs)
    ensures Losses(c, EMPTY, reqs) == Nothing<Key>(|reqs|)
    ensures Decisions(c, EMPTY, reqs) != Unbounded(c, map[], reqs, Nothing<Key>(|reqs|))
  {
    c := Config(10, 0, 2, 1.0);
    var x, y, z := Key(0, "x"), Key(0, "y"), Key(0, "z");
    var r0, r1 := Req(0, x, false, 0, []), Req(0, y, false, 0, [x]);
    var r2, r3 := Req(0, z, false, 10, []), Req(0, x, false, 5, [z]);
    reqs := [r0] + ([r1] + ([r2] + ([r3] + [])));
    BoundedEmits(c, x, y, z, r0, r1, r2, r3);
    UnboundedCons(c, map[], r0, [r1] + ([r2] + ([r3] + [])));
    UnboundedCons(c, map[x := 0], r1, [r2] + ([r3] + []));
    UnboundedCons(c, map[x := 0, y := 0], r2, [r3] + []);
    UnboundedCons(c, map[x := 0, y := 0, z := 10], r3, []);
    assert !Unbounded(c, map[], reqs, Nothing<Key>(4))[3];
  }

  /** Room for z: both entries have expired. */
  lemma BothExpire(c: Config, x: Key, y: Key, z: Key, r: Req)
    requires c == Config(10, 0, 2, 1.0) && x != y && y != z && x != z && r == Req(0, z, false, 10, [])
    ensures var s := Table(map[x := 0, y := 0], 0, 0);
            && Fits(c, s, r) && Allows(c, s, r) && Lost(c, s, r) == {}
            && Step(c, s, r) == Table(map[z := 10], 0, 2)
  {
    var s := Table(map[x := 0, y := 0], 0, 0);
    assert Unexpired(s.last, 10, 10) == map[];
    assert |s.last| == 2;
    assert Evict(s.last, 2, 10, 10, []) == map[];
    assert map[][z := 10] == map[z := 10];
  }

  lemma LastTwo(c: Config, x: Key, y: Key, z: Key, r2: Req, r3: Req)
    requires c == Config(10, 0, 2, 1.0) && x != y && y != z && x != z
    requires r2 == Req(0, z, false, 10, []) && r3 == Req(0, x, false, 5, [z])
    ensures var s2, reqs := Table(map[x := 0, y := 0], 0, 0), [r2] + ([r3] + []);
            Run(c, s2, reqs) && Losses(c, s2, reqs) == [{}, {}] && Decisions(c, s2, reqs) == [true, true]
  {
    var s2, s3 := Table(map[x := 0, y := 0], 0, 0), Table(map[z := 10], 0, 2);
    BothExpire(c, x, y, z, r2);
    assert Unexpired(s3.last, 5, 10) == s3.last;
    assert |s3.last| == 1;
    assert Lost(c, s3, r3) == {};
    RunCons(c, s3, r3, Step(c, s3, r3), []);
    RunCons(c, s2, r2, s3, [r3] + []);
  }

  lemma BoundedEmits(c: Config, x: Key, y: Key, z: Key, r0: Req, r1: Req, r2: Req, r3: Req)
    requires c == Config(10, 0, 2, 1.0) && x != y && y != z && x != z
    requires r0 == Req(0, x, false, 0, []) && r1 == Req(0, y, false, 0, [x])
    requires r2 == Req(0, z, false, 10, []) && r3 == Req(0, x, false, 5, [z])
    ensures var reqs := [r0] + ([r1] + ([r2] + ([r3] + [])));
            && Run(c, EMPTY, reqs) && Losses(c, EMPTY, reqs) == Nothing<Key>(4)
            && Decisions(c, EMPTY, reqs) == [true, true, true, true]
  {
    var s1, s2 := Table(map[x := 0], 0, 0), Table(map[x := 0, y := 0], 0, 0);
    assert Unexpired(EMPTY.last, 0, 10) == map[];
    assert Unexpired(s1.last, 0, 10) == s1.last;
    assert |s1.last| == 1;
    assert Lost(c, EMPTY, r0) == Lost(c, s1, r1) == {};
    LastTwo(c, x, y, z, r2, r3);
    RunCons(c, s1, r1, s2, [r2] + ([r3] + []));
    RunCons(c, EMPTY, r0, s1, [r1] + ([r2] + ([r3] + [])));
  }

  // ---- spacing ----

  lemma {:induction false} ApartFrom(c: Config, s: Table, clock: int, reqs: seq<Req>, j: nat, k: Key, t0: int)
    requires c.maxKeys >= 1 && Run(c, s, reqs) && ClockFrom(clock, reqs) && t0 <= clock
    requires j < |reqs| && Sampled(c, reqs[j]) && reqs[j].key == k && Decisions(c, s, reqs)[j]
    requires forall i | 0 <= i < j :: k !in Losses(c, s, reqs)[i]
    requires if k in s.last then t0 <= s.last[k] else clock - t0 >= c.interval
    ensures reqs[j].now - t0 >= c.interval
    decreases j
  {
    var r := reqs[0];
    if j > 0 {
      var s' := Step(c, s, r);
      if Inserts(c, s, r) {
        EvictIsPart(s.last, c.maxKeys, r.now, c.interval, r.order);
      }
      assert k !in Lost(c, s, r) by {
        assert k !in Losses(c, s, reqs)[0];
      }
      forall i | 0 <= i < j - 1 ensures k !in Losses(c, s', reqs[1..])[i] {
        assert Losses(c, s, reqs)[i + 1] == Losses(c, s', reqs[1..])[i];
      }
      ApartFrom(c, s', r.now, reqs[1..], j - 1, k, t0);
    }
  }

  /** Two emitted records of one key lie at least an interval apart, in every run
      whose clock does not go back, unless a forced pass took the key between them. */
  lemma {:induction false} Spacing(c: Config, s: Table, clock: int, reqs: seq<Req>, i: nat, j: nat)
    requires c.maxKeys >= 1 && Run(c, s, reqs) && ClockFrom(clock, reqs)
    requires i < j < |reqs| && Sampled(c, reqs[i]) && Sampled(c, reqs[j]) && reqs[i].key == reqs[j].key
    requires Decisions(c, s, reqs)[i] && Decisions(c, s, reqs)[j]
    requires forall n | i < n < j :: reqs[i].key !in Losses(c, s, reqs)[n]
    ensures reqs[j].now - reqs[i].now >= c.interval
    decreases i
  {
    var s' := Step(c, s, reqs[0]);
    forall n | 0 <= n < |reqs| - 1 ensures Losses(c, s, reqs)[n + 1] == Losses(c, s', reqs[1..])[n] {
    }
    if i == 0 {
      ApartFrom(c, s', reqs[0].now, reqs[1..], j - 1, reqs[0].key, reqs[0].now);
    } else {
      Spacing(c, s', reqs[0].now, reqs[1..], i - 1, j - 1);
    }
  }

  // ---- the bound and the counters ----

  ghost function Insertions(c: Config, s: Table, reqs: seq<Req>): nat
    requires c.maxKeys >= 1 && Run(c, s, reqs)
    decreases |reqs|
  {
    if reqs == [] then 0 else
    (if Inserts(c, s, reqs[0]) then 1 else 0) + Insertions(c, Step(c, s, reqs[0]), reqs[1..])
  }

  function Refusals(d: seq<bool>): nat {
    if d == [] then 0 else (if d[0] then 0 else 1) + Refusals(d[1..])
  }

  lemma StepAccounts(c: Config, s: Table, r: Req)
    requires c.maxKeys >= 1 && Fits(c, s, r) && |s.last| <= c.maxKeys
    ensures var t := Step(c, s, r);
            && |t.last| <= c.maxKeys
            && t.evicted + |t.last| == s.evicted + |s.last| + (if Inserts(c, s, r) then 1 else 0)
            && t.suppressed == s.suppressed + (if Allows(c, s, r) then 0 else 1)
    ensures Lost(c, s, r) != {} ==> Unexpired(s.last, r.now, c.interval) == s.last && |s.last| == c.maxKeys
  {
    if Inserts(c, s, r) {
      EvictIsPart(s.last, c.maxKeys, r.now, c.interval, r.order);
      var kept := Unexpired(s.last, r.now, c.interval);
      if |kept| >= c.maxKeys {
        SameSize(kept.Keys, s.last.Keys);
      }
    }
  }

  lemma SameSize<K>(a: set<K>, b: set<K>)
    requires a <= b && |a| >= |b|
    ensures a == b
  {
    assert b == a + (b - a);
  }

  /** Whatever the clock does: never more than maxKeys entries, every insertion is
      still tracked or counted as evicted, every refusal is counted. */
  lemma {:induction false} Accounts(c: Config, s: Table, reqs: seq<Req>)
    requires c.maxKeys >= 1 && Run(c, s, reqs) && |s.last| <= c.maxKeys
    ensures var t := After(c, s, reqs);
            && |t.last| <= c.maxKeys
            && t.evicted + |t.last| == s.evicted + |s.last| + Insertions(c, s, reqs)
            && t.suppressed == s.suppressed + Refusals(Decisions(c, s, reqs))
    decreases |reqs|
  {
    if reqs != [] {
      var s' := Step(c, s, reqs[0]);
      StepAccounts(c, s, reqs[0]);
      Accounts(c, s', reqs[1..]);
      assert Decisions(c, s, reqs)[1..] == Decisions(c, s', reqs[1..]);
    }
  }

  /** A forced pass happens only to a full table none of whose entries has expired,
      and takes a quarter of it, at least one. */
  lemma ForcedOnlyWhenFull(c: Config, reqs: seq<Req>, r: Req)
    requires c.maxKeys >= 1 && Run(c, EMPTY, reqs) && Fits(c, After(c, EMPTY, reqs), r)
    requires Lost(c, After(c, EMPTY, reqs), r) != {}
    ensures var s := After(c, EMPTY, reqs);
            && |s.last| == c.maxKeys
            && (forall k | k in s.last :: r.now - s.last[k] < c.interval)
            && (var dropped := c.maxKeys + 1 - |Step(c, s, r).last|;
                1 <= dropped && c.maxKeys < 4 * (dropped + 1) && (dropped == 1 || 4 * dropped <= c.maxKeys))
  {
    var s := After(c, EMPTY, reqs);
    QuarterGoes(c.maxKeys);
    Accounts(c, EMPTY, reqs);
    StepAccounts(c, s, r);
    EnumeratesLength(r.order, s.last.Keys);
    TargetsAgree(c.maxKeys);
    ForcedExact(s.last, r.order, SamplerTarget(c.maxKeys));
  }

  /** Interval zero keeps no state: whatever passes the gate is emitted. */
  lemma {:induction false} ZeroIntervalEmits(c: Config, s: Table, reqs: seq<Req>)
    requires c.maxKeys >= 1 && Run(c, s, reqs) && c.interval <= 0
    ensures forall i | 0 <= i < |reqs| ::
              Decisions(c, s, reqs)[i] <==> reqs[i].level < c.minLevel || !reqs[i].gated
    ensures After(c, s, reqs).last == s.last && After(c, s, reqs).evicted == s.evicted
    decreases |reqs|
  {
    if reqs != [] {
      ZeroIntervalEmits(c, Step(c, s, reqs[0]), reqs[1..]);
    }
  }
}
