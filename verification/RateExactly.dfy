/** When exactly the rate limiter lets a call through, over whole runs: in terms of the
    calls, their times and their intervals alone. */
module RateExactly {
  import opened Basics
  import opened Counting
  import opened Rate
  import opened RateRuns
  import opened RateDebt

  predicate Asks(q: Call, k: Key) {
    q.opt.Some? && q.opt.value.key == k
  }

  predicate OneInterval(calls: seq<Call>, k: Key, d: int) {
    forall n | 0 <= n < |calls| && Asks(calls[n], k) :: calls[n].opt.value.interval == d
  }

  // ---- untracked keys ----

  lemma UntrackedStep(maxKeys: int, s: Limits, q: Call, k: Key)
    requires maxKeys >= 1 && Fits(s, q) && k !in s.entries && !Asks(q, k)
    ensures k !in Step(maxKeys, s, q).entries
  {
    RoomIsPart(maxKeys, s, q);
  }

  /** The first call for an untracked key is allowed and reports nothing, whatever its
      interval and whatever the clock does. */
  lemma {:induction false} FirstIsAllowed(maxKeys: int, s: Limits, calls: seq<Call>, j: nat, k: Key)
    requires maxKeys >= 1 && Run(maxKeys, s, calls) && k !in s.entries
    requires j < |calls| && Asks(calls[j], k) && forall n | 0 <= n < j :: !Asks(calls[n], k)
    ensures Verdicts(maxKeys, s, calls)[j] == Verdict(true, 0, false)
    decreases j
  {
    if j > 0 {
      UntrackedStep(maxKeys, s, calls[0], k);
      FirstIsAllowed(maxKeys, Step(maxKeys, s, calls[0]), calls[1..], j - 1, k);
    }
  }

  // ---- a clock that does not go back ----

  /** A tracked key has its one interval and was not seen in the future. */
  predicate Fixed(entries: map<Key, Entry>, k: Key, d: int, clock: int) {
    k in entries ==> entries[k].interval == d && entries[k].lastSeen <= clock
  }

  /** The key was last allowed at t0, or was dropped with its interval over. */
  predicate AllowedAt(entries: map<Key, Entry>, k: Key, d: int, t0: int, clock: int) {
    if k in entries
    then entries[k].interval == d && entries[k].lastAllow == Some(t0) && t0 <= entries[k].lastSeen <= clock
    else clock - t0 >= d
  }

  lemma FixedStep(maxKeys: int, s: Limits, q: Call, k: Key, d: int, clock: int)
    requires maxKeys >= 1 && Fits(s, q) && clock <= q.now && Fixed(s.entries, k, d, clock)
    requires Asks(q, k) ==> q.opt.value.interval == d
    ensures Fixed(Step(maxKeys, s, q).entries, k, d, q.now)
  {
    RoomIsPart(maxKeys, s, q);
  }

  lemma AllowedNow(maxKeys: int, s: Limits, q: Call, k: Key, d: int, clock: int)
    requires maxKeys >= 1 && Fits(s, q) && clock <= q.now && Fixed(s.entries, k, d, clock)
    requires Asks(q, k) && k.text != "" && q.opt.value.interval == d > 0 && Answer(s.entries, q).allow
    ensures AllowedAt(Step(maxKeys, s, q).entries, k, d, q.now, q.now)
  {
  }

  lemma AllowedStep(maxKeys: int, s: Limits, q: Call, k: Key, d: int, t0: int, clock: int)
    requires maxKeys >= 1 && Fits(s, q) && clock <= q.now && d > 0 && k.text != ""
    requires AllowedAt(s.entries, k, d, t0, clock) && k !in Lost(maxKeys, s, q)
    requires Asks(q, k) ==> q.opt.value.interval == d && !Answer(s.entries, q).allow
    ensures AllowedAt(Step(maxKeys, s, q).entries, k, d, t0, q.now)
  {
    RoomIsPart(maxKeys, s, q);
  }

  lemma {:induction false} ExactFrom(maxKeys: int, s: Limits, clock: int, calls: seq<Call>,
                                     j: nat, k: Key, d: int, t0: int)
    requires maxKeys >= 1 && Run(maxKeys, s, calls) && ClockFrom(clock, calls) && d > 0 && k.text != ""
    requires OneInterval(calls, k, d) && AllowedAt(s.entries, k, d, t0, clock)
    requires j < |calls| && Asks(calls[j], k)
    requires forall n | 0 <= n < j && Asks(calls[n], k) :: !Verdicts(maxKeys, s, calls)[n].allow
    requires forall n | 0 <= n < j :: k !in Losses(maxKeys, s, calls)[n]
    ensures Verdicts(maxKeys, s, calls)[j].allow <==> calls[j].now - t0 >= d
    decreases j
  {
    if j > 0 {
      var q, rest := calls[0], calls[1..];
      var t := Step(maxKeys, s, q);
      assert k !in Losses(maxKeys, s, calls)[0] && (Asks(q, k) ==> !Verdicts(maxKeys, s, calls)[0].allow);
      AllowedStep(maxKeys, s, q, k, d, t0, clock);
      assert Losses(maxKeys, s, calls)[1..] == Losses(maxKeys, t, rest);
      assert Verdicts(maxKeys, s, calls)[1..] == Verdicts(maxKeys, t, rest);
      ExactFrom(maxKeys, t, q.now, rest, j - 1, k, d, t0);
    }
  }

  /** With a clock that does not go back and one positive interval for the key: after an
      emission the next one is the first call that comes a whole interval later, neither
      before nor after, as long as no forced pass takes the key. */
  lemma {:induction false} EmitsExactly(maxKeys: int, s: Limits, clock: int, calls: seq<Call>,
                                        i: nat, j: nat, k: Key, d: int)
    requires maxKeys >= 1 && Run(maxKeys, s, calls) && ClockFrom(clock, calls) && d > 0 && k.text != ""
    requires OneInterval(calls, k, d) && Fixed(s.entries, k, d, clock)
    requires i < j < |calls| && Asks(calls[i], k) && Asks(calls[j], k) && Verdicts(maxKeys, s, calls)[i].allow
    requires forall n | i < n < j && Asks(calls[n], k) :: !Verdicts(maxKeys, s, calls)[n].allow
    requires forall n | i < n < j :: k !in Losses(maxKeys, s, calls)[n]
    ensures Verdicts(maxKeys, s, calls)[j].allow <==> calls[j].now - calls[i].now >= d
    decreases i
  {
    var q, rest := calls[0], calls[1..];
    var t := Step(maxKeys, s, q);
    assert Losses(maxKeys, s, calls)[1..] == Losses(maxKeys, t, rest);
    assert Verdicts(maxKeys, s, calls)[1..] == Verdicts(maxKeys, t, rest);
    if i == 0 {
      AllowedNow(maxKeys, s, q, k, d, clock);
      ExactFrom(maxKeys, t, q.now, rest, j - 1, k, d, q.now);
    } else {
      FixedStep(maxKeys, s, q, k, d, clock);
      EmitsExactly(maxKeys, t, q.now, rest, i - 1, j - 1, k, d);
    }
  }

  // ---- any clock ----

  /** The latest time a key was seen: m, or a later call among the first n. */
  function Latest(m: int, calls: seq<Call>, k: Key, n: nat): int
    requires n <= |calls|
    decreases n
  {
    if n == 0 then m
    else Latest(if Asks(calls[0], k) && calls[0].now > m then calls[0].now else m, calls[1..], k, n - 1)
  }

  /** A tracked entry's clock never goes back: it shows the latest time its key was
      seen. */
  lemma {:induction false} SeenIsLatest(maxKeys: int, s: Limits, calls: seq<Call>, k: Key)
    requires maxKeys >= 1 && Run(maxKeys, s, calls) && Tracked(maxKeys, s, calls, k) && k.text != ""
    ensures k in After(maxKeys, s, calls).entries
    ensures After(maxKeys, s, calls).entries[k].lastSeen == Latest(s.entries[k].lastSeen, calls, k, |calls|)
    decreases |calls|
  {
    if calls != [] {
      RoomIsPart(maxKeys, s, calls[0]);
      SeenIsLatest(maxKeys, Step(maxKeys, s, calls[0]), calls[1..], k);
    }
  }

  lemma TrackedStep(maxKeys: int, s: Limits, q: Call, k: Key)
    requires maxKeys >= 1 && Fits(s, q) && k.text != "" && k in s.entries && k in Step(maxKeys, s, q).entries
    ensures var e, f := s.entries[k], Step(maxKeys, s, q).entries[k];
            && f.interval == e.interval && f.lastSeen == Latest(e.lastSeen, [q], k, 1)
            && (e.interval > 0 ==>
                  f.lastAllow == if Asks(q, k) && Answer(s.entries, q).allow then Some(f.lastSeen) else e.lastAllow)
  {
    RoomIsPart(maxKeys, s, q);
  }

  lemma {:induction false} TrackedFrom(maxKeys: int, s: Limits, calls: seq<Call>, j: nat, k: Key, t0: int)
    requires maxKeys >= 1 && Run(maxKeys, s, calls) && Tracked(maxKeys, s, calls, k) && k.text != ""
    requires s.entries[k].interval > 0 && s.entries[k].lastAllow == Some(t0)
    requires j < |calls| && Asks(calls[j], k)
    requires forall n | 0 <= n < j && Asks(calls[n], k) :: !Verdicts(maxKeys, s, calls)[n].allow
    ensures (Verdicts(maxKeys, s, calls)[j].allow
             <==> Latest(s.entries[k].lastSeen, calls, k, j + 1) - t0 >= s.entries[k].interval)
    decreases j
  {
    var q, rest := calls[0], calls[1..];
    if j == 0 {
      assert Latest(s.entries[k].lastSeen, calls, k, 1) == EntryFor(s.entries, q).lastSeen;
    } else {
      var t := Step(maxKeys, s, q);
      assert Asks(q, k) ==> !Verdicts(maxKeys, s, calls)[0].allow;
      TrackedStep(maxKeys, s, q, k);
      assert Verdicts(maxKeys, s, calls)[1..] == Verdicts(maxKeys, t, rest);
      TrackedFrom(maxKeys, t, rest, j - 1, k, t0);
    }
  }

  /** The same for any clock and whatever intervals the calls present, while the key is
      tracked: time is the latest time the key was seen, the interval is the entry's. */
  lemma {:induction false} TrackedExactly(maxKeys: int, s: Limits, calls: seq<Call>, i: nat, j: nat, k: Key)
    requires maxKeys >= 1 && Run(maxKeys, s, calls) && Tracked(maxKeys, s, calls, k) && k.text != ""
    requires s.entries[k].interval > 0
    requires i < j < |calls| && Asks(calls[i], k) && Asks(calls[j], k) && Verdicts(maxKeys, s, calls)[i].allow
    requires forall n | i < n < j && Asks(calls[n], k) :: !Verdicts(maxKeys, s, calls)[n].allow
    ensures var from := s.entries[k].lastSeen;
            (Verdicts(maxKeys, s, calls)[j].allow
             <==> Latest(from, calls, k, j + 1) - Latest(from, calls, k, i + 1) >= s.entries[k].interval)
    decreases i
  {
    var q, rest := calls[0], calls[1..];
    var t := Step(maxKeys, s, q);
    assert Verdicts(maxKeys, s, calls)[1..] == Verdicts(maxKeys, t, rest);
    TrackedStep(maxKeys, s, q, k);
    if i == 0 {
      TrackedFrom(maxKeys, t, rest, j - 1, k, t.entries[k].lastSeen);
    } else {
      TrackedExactly(maxKeys, t, rest, i - 1, j - 1, k);
    }
  }

  // ---- what is never limited ----

  /** An entry made with a non-positive interval limits nothing as long as it is tracked,
      whatever intervals later calls present. */
  lemma {:induction false} InvalidNeverLimits(maxKeys: int, s: Limits, calls: seq<Call>, j: nat, k: Key)
    requires maxKeys >= 1 && Run(maxKeys, s, calls) && Tracked(maxKeys, s, calls, k) && s.entries[k].interval <= 0
    requires j < |calls| && Asks(calls[j], k)
    ensures Verdicts(maxKeys, s, calls)[j] == Verdict(true, 0, false)
    decreases j
  {
    if j > 0 {
      RoomIsPart(maxKeys, s, calls[0]);
      InvalidNeverLimits(maxKeys, Step(maxKeys, s, calls[0]), calls[1..], j - 1, k);
    }
  }

  function Without<T>(s: seq<T>, j: nat): seq<T>
    requires j < |s|
  {
    s[..j] + s[j + 1..]
  }

  /** A call with no rate limit, or with an empty key, is allowed and leaves no trace:
      every other verdict and the final state are those of the run without it. */
  lemma {:induction false} UnlimitedLeavesNoTrace(maxKeys: int, s: Limits, calls: seq<Call>, j: nat)
    requires maxKeys >= 1 && Run(maxKeys, s, calls)
    requires j < |calls| && (calls[j].opt.Some? ==> calls[j].opt.value.key.text == "")
    ensures Verdicts(maxKeys, s, calls)[j] == Verdict(true, 0, false)
    ensures Run(maxKeys, s, Without(calls, j)) && After(maxKeys, s, Without(calls, j)) == After(maxKeys, s, calls)
    ensures Verdicts(maxKeys, s, Without(calls, j)) == Without(Verdicts(maxKeys, s, calls), j)
    decreases j
  {
    var rest := calls[1..];
    if j == 0 {
      assert Without(calls, 0) == rest;
    } else {
      var t := Step(maxKeys, s, calls[0]);
      UnlimitedLeavesNoTrace(maxKeys, t, rest, j - 1);
      assert Without(calls, j)[1..] == Without(rest, j - 1);
      assert Verdicts(maxKeys, s, calls)[1..] == Verdicts(maxKeys, t, rest);
    }
  }

  // ---- what is reported about the calls ----

  /** Calls that create an entry with a non-positive interval. */
  ghost function Misconfigured(maxKeys: int, s: Limits, calls: seq<Call>): nat
    requires maxKeys >= 1 && Run(maxKeys, s, calls)
    decreases |calls|
  {
    if calls == [] then 0 else
    var o := calls[0].opt;
    One(o.Some? && o.value.key.text != "" && o.value.key !in s.entries && o.value.interval <= 0)
    + Misconfigured(maxKeys, Step(maxKeys, s, calls[0]), calls[1..])
  }

  /** Calls that present another interval than the one their key is tracked with. */
  ghost function Differing(maxKeys: int, s: Limits, calls: seq<Call>): nat
    requires maxKeys >= 1 && Run(maxKeys, s, calls)
    decreases |calls|
  {
    if calls == [] then 0 else
    var o := calls[0].opt;
    One(o.Some? && o.value.key.text != "" && o.value.key in s.entries
        && o.value.interval != s.entries[o.value.key].interval)
    + Differing(maxKeys, Step(maxKeys, s, calls[0]), calls[1..])
  }

  function InvalidReports(w: seq<Warning>): nat {
    if w == [] then 0 else InvalidReports(w[..|w| - 1]) + One(w[|w| - 1].InvalidInterval?)
  }

  lemma OneWarning(maxKeys: int, s: Limits, q: Call)
    requires maxKeys >= 1 && Fits(s, q)
    ensures var t := Step(maxKeys, s, q);
            InvalidReports(t.warnings) - InvalidReports(s.warnings) == t.invalidConfigs - s.invalidConfigs
  {
    var t := Step(maxKeys, s, q);
    if Limited(q) && Warns(s, q) != [] {
      assert t.warnings == s.warnings + [Warns(s, q)[0]];
      assert t.warnings[..|t.warnings| - 1] == s.warnings;
    } else {
      assert t.warnings == s.warnings;
    }
  }

  /** The two counters count exactly these calls, and every invalid interval is warned
      about as often as it is counted. */
  lemma {:induction false} ReportsCounted(maxKeys: int, s: Limits, calls: seq<Call>)
    requires maxKeys >= 1 && Run(maxKeys, s, calls)
    ensures var t := After(maxKeys, s, calls);
            && t.invalidConfigs == s.invalidConfigs + Misconfigured(maxKeys, s, calls)
            && t.conflicts == s.conflicts + Differing(maxKeys, s, calls)
            && InvalidReports(t.warnings) - InvalidReports(s.warnings) == t.invalidConfigs - s.invalidConfigs
    decreases |calls|
  {
    if calls != [] {
      OneWarning(maxKeys, s, calls[0]);
      ReportsCounted(maxKeys, Step(maxKeys, s, calls[0]), calls[1..]);
    }
  }

  // ---- what making room may take ----

  /** Nothing is evicted while there is room, or by a call for a tracked key. */
  lemma NothingEvictedWithRoom(maxKeys: int, s: Limits, q: Call)
    requires maxKeys >= 1 && Fits(s, q)
    requires |s.entries| < maxKeys || (q.opt.Some? && q.opt.value.key in s.entries)
    ensures var t := Step(maxKeys, s, q);
            t.evicted == s.evicted && forall k | k in s.entries :: k in t.entries
  {
  }
}
