/** What the rate limiter promises over whole runs of shouldLog. */
module RateRuns {
  import opened Basics
  import opened Eviction
  import opened Rate

  ghost predicate Run(maxKeys: int, s: Limits, calls: seq<Call>)
    requires maxKeys >= 1
    decreases |calls|
  {
    calls == [] || (Fits(s, calls[0]) && Run(maxKeys, Step(maxKeys, s, calls[0]), calls[1..]))
  }

  ghost function After(maxKeys: int, s: Limits, calls: seq<Call>): Limits
    requires maxKeys >= 1 && Run(maxKeys, s, calls)
    decreases |calls|
  {
    if calls == [] then s else After(maxKeys, Step(maxKeys, s, calls[0]), calls[1..])
  }

  ghost function Verdicts(maxKeys: int, s: Limits, calls: seq<Call>): (v: seq<Verdict>)
    requires maxKeys >= 1 && Run(maxKeys, s, calls)
    ensures |v| == |calls|
    decreases |calls|
  {
    if calls == [] then [] else
    [Answer(s.entries, calls[0])] + Verdicts(maxKeys, Step(maxKeys, s, calls[0]), calls[1..])
  }

  /** The entries a forced pass takes during this step, although they could still
      suppress or report something. */
  ghost function Lost(maxKeys: int, s: Limits, q: Call): set<Key>
    requires maxKeys >= 1 && Fits(s, q)
  {
    if !Inserts(s, q) then {} else Live(s.entries, q.now).Keys - Room(maxKeys, s, q).Keys
  }

  ghost function Losses(maxKeys: int, s: Limits, calls: seq<Call>): (l: seq<set<Key>>)
    requires maxKeys >= 1 && Run(maxKeys, s, calls)
    ensures |l| == |calls|
    decreases |calls|
  {
    if calls == [] then [] else
    [Lost(maxKeys, s, calls[0])] + Losses(maxKeys, Step(maxKeys, s, calls[0]), calls[1..])
  }

  predicate ClockFrom(clock: int, calls: seq<Call>)
    decreases |calls|
  {
    calls == [] || (clock <= calls[0].now && ClockFrom(calls[0].now, calls[1..]))
  }

  /** Every call presents a key with the interval the plan gives it. */
  predicate Follows(plan: Key -> int, calls: seq<Call>) {
    forall i | 0 <= i < |calls| && Limited(calls[i]) :: calls[i].opt.value.interval == plan(calls[i].opt.value.key)
  }

  /** A forced pass leaves fewer than maxKeys entries. */
  lemma ForcedLeavesRoom(kept: map<Key, Entry>, maxKeys: int, order: seq<Key>)
    requires maxKeys >= 1 && Enumerates(order, kept.Keys) && |kept| >= maxKeys
    ensures |order| == |kept| && 0 <= LimiterTarget(maxKeys) < maxKeys
    ensures |Restrict(kept, Forced(Stamps(kept), order, LimiterTarget(maxKeys)).Keys)| == LimiterTarget(maxKeys)
  {
    var stamps := Stamps(kept);
    assert stamps.Keys == kept.Keys && |stamps| == |stamps.Keys| && |kept| == |kept.Keys|;
    EnumeratesLength(order, kept.Keys);
    TargetsAgree(maxKeys);
    ForcedExact(stamps, order, LimiterTarget(maxKeys));
    var r := Forced(stamps, order, LimiterTarget(maxKeys));
    var left := Restrict(kept, r.Keys);
    assert left.Keys == r.Keys && |left| == |left.Keys| && |r| == |r.Keys|;
  }

  lemma RoomIsPart(maxKeys: int, s: Limits, q: Call)
    requires maxKeys >= 1 && Fits(s, q)
    ensures forall k | k in Room(maxKeys, s, q) :: k in s.entries && Room(maxKeys, s, q)[k] == s.entries[k]
    ensures forall k | k in s.entries && k !in Room(maxKeys, s, q) && k !in Lost(maxKeys, s, q) ::
              Stale(s.entries[k], q.now)
    ensures |s.entries| <= maxKeys && Inserts(s, q) ==> |Room(maxKeys, s, q)| < maxKeys
  {
    var kept := Live(s.entries, q.now);
    if Inserts(s, q) && |s.entries| >= maxKeys && |kept| >= maxKeys {
      ForcedLeavesRoom(kept, maxKeys, q.order);
    }
  }

  // ---- the unbounded table ----

  function UStep(ref: map<Key, Entry>, q: Call): map<Key, Entry> {
    if !Limited(q) then ref else
    var e := EntryFor(ref, q);
    ref[q.opt.value.key := Judged(e, e.lastSeen)]
  }

  /** Answers of a table that forgets nothing but the given keys at each step. */
  function Unbounded(ref: map<Key, Entry>, calls: seq<Call>, forget: seq<set<Key>>): (v: seq<Verdict>)
    requires |forget| == |calls|
    decreases |calls|
  {
    if calls == [] then [] else
    [Answer(ref - forget[0], calls[0])] + Unbounded(UStep(ref - forget[0], calls[0]), calls[1..], forget[1..])
  }

  /** What holds of every entry when the clock never goes back and intervals are fixed. */
  predicate Sound(e: Entry, interval: int, clock: int) {
    && e.interval == interval && !e.conflictWarned && e.lastSeen <= clock
    && (if interval <= 0 then e.lastAllow == None && e.suppressed == 0
        else e.lastAllow.Some? && e.lastAllow.value <= e.lastSeen)
  }

  ghost predicate Agree(plan: Key -> int, entries: map<Key, Entry>, ref: map<Key, Entry>, clock: int) {
    && (forall k | k in ref :: Sound(ref[k], plan(k), clock))
    && (forall k | k in entries :: k in ref && ref[k] == entries[k])
    && (forall k | k in ref && k !in entries :: ref[k].suppressed == 0 && clock - ref[k].lastSeen >= ref[k].interval)
  }

  /** A sound entry that has expired and owes nothing answers like a new one. */
  lemma ExpiredIsNew(e: Entry, opt: RateLimitOpt, clock: int, now: int)
    requires Sound(e, opt.interval, clock) && clock <= now
    requires e.suppressed == 0 && clock - e.lastSeen >= e.interval
    ensures Judge(Seen(e, opt, now), now) == Judge(NewEntry(opt, now), now)
    ensures Judged(Seen(e, opt, now), now) == Judged(NewEntry(opt, now), now)
  {
  }

  lemma SoundStep(e: Entry, opt: RateLimitOpt, clock: int, now: int)
    requires Sound(e, opt.interval, clock) && clock <= now
    ensures Seen(e, opt, now).lastSeen == now && Sound(Judged(Seen(e, opt, now), now), opt.interval, now)
  {
  }

  /** Both tables judge the call alike and store the same entry for its key. */
  lemma SameEntry(plan: Key -> int, entries: map<Key, Entry>, ref: map<Key, Entry>, lost: set<Key>, clock: int, q: Call)
    requires Agree(plan, entries, ref, clock) && clock <= q.now && Limited(q)
    requires q.opt.value.key !in lost && q.opt.value.interval == plan(q.opt.value.key)
    ensures Answer(entries, q) == Answer(ref - lost, q)
    ensures var e, u := EntryFor(entries, q), EntryFor(ref - lost, q);
            && e.lastSeen == u.lastSeen == q.now
            && Judged(e, q.now) == Judged(u, q.now)
            && Sound(Judged(e, q.now), q.opt.value.interval, q.now)
  {
    var opt := q.opt.value;
    if opt.key in ref {
      assert opt.key in ref - lost && (ref - lost)[opt.key] == ref[opt.key];
      SoundStep(ref[opt.key], opt, clock, q.now);
      if opt.key !in entries {
        ExpiredIsNew(ref[opt.key], opt, clock, q.now);
      }
    }
  }

  /** Making room drops only expired entries, besides the lost ones. */
  lemma RoomAgrees(plan: Key -> int, maxKeys: int, s: Limits, ref: map<Key, Entry>, clock: int, q: Call)
    requires maxKeys >= 1 && Fits(s, q) && Agree(plan, s.entries, ref, clock) && clock <= q.now
    ensures Agree(plan, Room(maxKeys, s, q), ref - Lost(maxKeys, s, q), q.now)
  {
    RoomIsPart(maxKeys, s, q);
    var room, kept := Room(maxKeys, s, q), ref - Lost(maxKeys, s, q);
    forall k | k in kept && k !in room ensures kept[k].suppressed == 0 && q.now - kept[k].lastSeen >= kept[k].interval {
      if k in s.entries {
        assert Stale(s.entries[k], q.now);
      }
    }
  }

  lemma SameAnswer(plan: Key -> int, maxKeys: int, s: Limits, ref: map<Key, Entry>, clock: int, q: Call)
    requires maxKeys >= 1 && Fits(s, q) && Agree(plan, s.entries, ref, clock) && clock <= q.now
    requires Limited(q) ==> q.opt.value.interval == plan(q.opt.value.key)
    ensures Answer(s.entries, q) == Answer(ref - Lost(maxKeys, s, q), q)
    ensures Agree(plan, Step(maxKeys, s, q).entries, UStep(ref - Lost(maxKeys, s, q), q), q.now)
  {
    RoomAgrees(plan, maxKeys, s, ref, clock, q);
    if Limited(q) {
      SameEntry(plan, s.entries, ref, Lost(maxKeys, s, q), clock, q);
    }
  }

  /** For a clock that does not go back and one interval per key, the limiter answers
      every call as a table without a bound would that forgets only what forced
      passes take: same permission, same reported count, same field. */
  lemma {:induction false} Simulates(plan: Key -> int, maxKeys: int, s: Limits, ref: map<Key, Entry>,
                                     clock: int, calls: seq<Call>)
    requires maxKeys >= 1 && Run(maxKeys, s, calls) && ClockFrom(clock, calls) && Follows(plan, calls)
    requires Agree(plan, s.entries, ref, clock)
    ensures Verdicts(maxKeys, s, calls) == Unbounded(ref, calls, Losses(maxKeys, s, calls))
    decreases |calls|
  {
    if calls != [] {
      var q := calls[0];
      var t, lost := Step(maxKeys, s, q), Lost(maxKeys, s, q);
      SameAnswer(plan, maxKeys, s, ref, clock, q);
      Simulates(plan, maxKeys, t, UStep(ref - lost, q), q.now, calls[1..]);
      assert Losses(maxKeys, s, calls)[1..] == Losses(maxKeys, t, calls[1..]);
    }
  }

  /** Until a forced pass takes something, the limiter is the unbounded table. */
  lemma UntilForced(plan: Key -> int, maxKeys: int, clock: int, calls: seq<Call>)
    requires maxKeys >= 1 && Run(maxKeys, EMPTY, calls) && ClockFrom(clock, calls) && Follows(plan, calls)
    requires forall i | 0 <= i < |calls| :: Losses(maxKeys, EMPTY, calls)[i] == {}
    ensures Verdicts(maxKeys, EMPTY, calls) == Unbounded(map[], calls, Nothing<Key>(|calls|))
  {
    Simulates(plan, maxKeys, EMPTY, map[], clock, calls);
    assert Losses(maxKeys, EMPTY, calls) == Nothing<Key>(|calls|);
  }

  // ---- spacing ----

  /** Call i presents the key and is allowed. */
  ghost predicate Emits(maxKeys: int, s: Limits, calls: seq<Call>, i: int, k: Key)
    requires maxKeys >= 1 && Run(maxKeys, s, calls)
  {
    0 <= i < |calls| && For(calls[i], k) && Verdicts(maxKeys, s, calls)[i].allow
  }

  /** No forced pass takes the key during calls i to j - 1. */
  ghost predicate Safe(maxKeys: int, s: Limits, calls: seq<Call>, i: int, j: int, k: Key)
    requires maxKeys >= 1 && Run(maxKeys, s, calls)
  {
    forall n | i <= n < j && 0 <= n < |calls| :: k !in Losses(maxKeys, s, calls)[n]
  }

  lemma Later(maxKeys: int, s: Limits, calls: seq<Call>, i: int, j: int, k: Key)
    requires maxKeys >= 1 && Run(maxKeys, s, calls) && calls != []
    ensures var t := Step(maxKeys, s, calls[0]);
            && (1 <= i && Emits(maxKeys, s, calls, i, k) ==> Emits(maxKeys, t, calls[1..], i - 1, k))
            && (0 <= i && Safe(maxKeys, s, calls, i, j, k) ==> Safe(maxKeys, t, calls[1..], i - 1, j - 1, k))
    ensures i <= 0 < j && Safe(maxKeys, s, calls, i, j, k) ==> k !in Lost(maxKeys, s, calls[0])
  {
    var t := Step(maxKeys, s, calls[0]);
    assert forall n | 0 <= n < |calls| - 1 :: Losses(maxKeys, t, calls[1..])[n] == Losses(maxKeys, s, calls)[n + 1];
    assert Losses(maxKeys, s, calls)[0] == Lost(maxKeys, s, calls[0]);
  }

  /** The entry last allowed at t0 or later. */
  predicate Recent(e: Entry, d: int, t0: int, clock: int) {
    && e.interval == d && e.lastAllow.Some?
    && t0 <= e.lastAllow.value <= e.lastSeen <= clock
  }

  /** The key was allowed at t0 or later, or its interval since then is over. */
  predicate Held(entries: map<Key, Entry>, k: Key, d: int, t0: int, clock: int) {
    if k in entries then Recent(entries[k], d, t0, clock) else clock - t0 >= d
  }

  lemma HeldStep(plan: Key -> int, maxKeys: int, s: Limits, clock: int, q: Call, k: Key, t0: int)
    requires maxKeys >= 1 && Fits(s, q) && clock <= q.now && t0 <= clock && plan(k) > 0
    requires For(q, k) ==> q.opt.value.interval == plan(k)
    requires Held(s.entries, k, plan(k), t0, clock) && k !in Lost(maxKeys, s, q)
    ensures Held(Step(maxKeys, s, q).entries, k, plan(k), t0, q.now)
  {
    RoomIsPart(maxKeys, s, q);
  }

  lemma {:induction false} ApartFrom(plan: Key -> int, maxKeys: int, s: Limits, clock: int,
                                     calls: seq<Call>, j: nat, k: Key, t0: int)
    requires maxKeys >= 1 && Run(maxKeys, s, calls) && ClockFrom(clock, calls) && Follows(plan, calls)
    requires t0 <= clock && plan(k) > 0 && Held(s.entries, k, plan(k), t0, clock)
    requires Emits(maxKeys, s, calls, j, k) && Safe(maxKeys, s, calls, 0, j, k)
    ensures calls[j].now - t0 >= plan(k)
    decreases j
  {
    if j > 0 {
      Later(maxKeys, s, calls, j, j, k);
      Later(maxKeys, s, calls, 0, j, k);
      HeldStep(plan, maxKeys, s, clock, calls[0], k, t0);
      FollowsTail(plan, calls);
      ApartFrom(plan, maxKeys, Step(maxKeys, s, calls[0]), calls[0].now, calls[1..], j - 1, k, t0);
    }
  }

  lemma FollowsTail(plan: Key -> int, calls: seq<Call>)
    requires Follows(plan, calls) && calls != []
    ensures Follows(plan, calls[1..])
  {
  }

  /** A key with one positive interval is emitted at most once per interval, in every
      run whose clock does not go back, unless a forced pass took it between. */
  lemma {:induction false} Spacing(plan: Key -> int, maxKeys: int, s: Limits, ref: map<Key, Entry>, clock: int,
                                   calls: seq<Call>, i: nat, j: nat, k: Key)
    requires maxKeys >= 1 && Run(maxKeys, s, calls) && ClockFrom(clock, calls) && Follows(plan, calls)
    requires Agree(plan, s.entries, ref, clock) && plan(k) > 0
    requires i < j && Emits(maxKeys, s, calls, i, k) && Emits(maxKeys, s, calls, j, k)
    requires Safe(maxKeys, s, calls, i + 1, j, k)
    ensures calls[j].now - calls[i].now >= plan(k)
    decreases i
  {
    var q, rest := calls[0], calls[1..];
    var t, next := Step(maxKeys, s, q), UStep(ref - Lost(maxKeys, s, q), q);
    SameAnswer(plan, maxKeys, s, ref, clock, q);
    Later(maxKeys, s, calls, i, j, k);
    Later(maxKeys, s, calls, j, j, k);
    Later(maxKeys, s, calls, i + 1, j, k);
    FollowsTail(plan, calls);
    if i == 0 {
      EmittedNow(plan, maxKeys, s, ref, clock, q);
      ApartFrom(plan, maxKeys, t, q.now, rest, j - 1, k, q.now);
    } else {
      Spacing(plan, maxKeys, t, next, q.now, rest, i - 1, j - 1, k);
    }
  }

  lemma EmittedNow(plan: Key -> int, maxKeys: int, s: Limits, ref: map<Key, Entry>, clock: int, q: Call)
    requires maxKeys >= 1 && Fits(s, q) && Agree(plan, s.entries, ref, clock) && clock <= q.now
    requires Limited(q) && q.opt.value.interval == plan(q.opt.value.key) > 0 && Answer(s.entries, q).allow
    ensures var k := q.opt.value.key;
            var e := Step(maxKeys, s, q).entries[k];
            Recent(e, plan(k), q.now, q.now)
  {
  }
}
