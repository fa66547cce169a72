/** Where the suppressed calls go: every refusal is reported, still owed by a live
    entry, or was lost with an entry that a forced pass took. No clock assumption. */
module RateDebt {
  import opened Counting
  import opened Eviction
  import opened Rate
  import opened RateRuns

  ghost function Debt(m: map<Key, Entry>): nat
    decreases |m|
  {
    if m == map[] then 0 else
    var k :| k in m;
    m[k].suppressed + Debt(m - {k})
  }

  lemma {:induction false} DebtRemove(m: map<Key, Entry>, k: Key)
    requires k in m
    ensures Debt(m) == m[k].suppressed + Debt(m - {k})
    decreases |m|
  {
    var x :| x in m && Debt(m) == m[x].suppressed + Debt(m - {x});
    if x != k {
      DebtRemove(m - {x}, k);
      DebtRemove(m - {k}, x);
      assert m - {x} - {k} == m - {k} - {x};
    }
  }

  lemma DebtPut(m: map<Key, Entry>, k: Key, e: Entry)
    ensures Debt(m[k := e]) == Debt(m - {k}) + e.suppressed
  {
    DebtRemove(m[k := e], k);
    assert m[k := e] - {k} == m - {k};
  }

  lemma SplitMaps(m: map<Key, Entry>, keys: set<Key>, k: Key)
    requires k in m
    ensures k in keys ==> k in Restrict(m, keys) && Restrict(m, keys) - {k} == Restrict(m - {k}, keys)
    ensures k in keys ==> m - keys == m - {k} - keys
    ensures k !in keys ==> Restrict(m, keys) == Restrict(m - {k}, keys)
    ensures k !in keys ==> k in m - keys && m - keys - {k} == m - {k} - keys
  {
  }

  lemma {:induction false} DebtSplit(m: map<Key, Entry>, keys: set<Key>)
    ensures Debt(m) == Debt(Restrict(m, keys)) + Debt(m - keys)
    decreases |m|
  {
    if m == map[] {
      assert Restrict(m, keys) == map[] && m - keys == map[];
    } else {
      var k :| k in m;
      DebtRemove(m, k);
      DebtSplit(m - {k}, keys);
      SplitMaps(m, keys, k);
      DebtRemove(if k in keys then Restrict(m, keys) else m - keys, k);
    }
  }

  lemma {:induction false} DebtFree(m: map<Key, Entry>)
    requires forall k | k in m :: m[k].suppressed == 0
    ensures Debt(m) == 0
    decreases |m|
  {
    if m != map[] {
      var k :| k in m;
      DebtRemove(m, k);
      DebtFree(m - {k});
    }
  }

  /** What the lost entries still owed. */
  ghost function Forgiven(maxKeys: int, s: Limits, q: Call): nat
    requires maxKeys >= 1 && Fits(s, q)
  {
    Debt(Restrict(s.entries, Lost(maxKeys, s, q)))
  }

  lemma RestrictSelf(m: map<Key, Entry>, r: map<Key, Entry>)
    requires forall k | k in r :: k in m && r[k] == m[k]
    ensures Restrict(m, r.Keys) == r
  {
  }

  lemma RestrictMinus(m: map<Key, Entry>, a: set<Key>, b: set<Key>)
    requires a !! b
    ensures Restrict(m - a, b) == Restrict(m, b)
  {
  }

  lemma StaleOweNothing(maxKeys: int, s: Limits, q: Call)
    requires maxKeys >= 1 && Fits(s, q)
    ensures Debt(s.entries - Room(maxKeys, s, q).Keys - Lost(maxKeys, s, q)) == 0
  {
    RoomIsPart(maxKeys, s, q);
    var rest := s.entries - Room(maxKeys, s, q).Keys - Lost(maxKeys, s, q);
    forall k | k in rest ensures rest[k].suppressed == 0 {
      assert Stale(s.entries[k], q.now);
    }
    DebtFree(rest);
  }

  /** Making room costs exactly the debt of the lost entries; the first pass, which
      takes only entries with nothing to report, costs none. */
  lemma RoomDebt(maxKeys: int, s: Limits, q: Call)
    requires maxKeys >= 1 && Fits(s, q)
    ensures Debt(s.entries) == Debt(Room(maxKeys, s, q)) + Forgiven(maxKeys, s, q)
  {
    var room, lost := Room(maxKeys, s, q), Lost(maxKeys, s, q);
    var all := s.entries;
    RoomIsPart(maxKeys, s, q);
    calc {
      Debt(all);
      { DebtSplit(all, room.Keys); RestrictSelf(all, room); }
      Debt(room) + Debt(all - room.Keys);
      { DebtSplit(all - room.Keys, lost); RestrictMinus(all, room.Keys, lost); }
      Debt(room) + Debt(Restrict(all, lost)) + Debt(all - room.Keys - lost);
      { StaleOweNothing(maxKeys, s, q); }
      Debt(room) + Forgiven(maxKeys, s, q);
    }
  }

  lemma EntryDebt(e: Entry, now: int)
    ensures One(!Judge(e, now).allow) + e.suppressed == Judge(e, now).suppressed + Judged(e, now).suppressed
  {
  }

  lemma StepConserves(maxKeys: int, s: Limits, q: Call)
    requires maxKeys >= 1 && Fits(s, q)
    ensures (One(!Answer(s.entries, q).allow) + Debt(s.entries)
             == Answer(s.entries, q).suppressed + Debt(Step(maxKeys, s, q).entries) + Forgiven(maxKeys, s, q))
  {
    RoomDebt(maxKeys, s, q);
    if Limited(q) {
      var room, k, e := Room(maxKeys, s, q), q.opt.value.key, EntryFor(s.entries, q);
      RoomIsPart(maxKeys, s, q);
      EntryDebt(e, e.lastSeen);
      DebtPut(room, k, Judged(e, e.lastSeen));
      if k in room {
        DebtRemove(room, k);
      } else {
        assert room - {k} == room;
      }
    }
  }

  function Denied(v: seq<Verdict>): nat {
    if v == [] then 0 else One(!v[0].allow) + Denied(v[1..])
  }

  function Reported(v: seq<Verdict>): nat {
    if v == [] then 0 else v[0].suppressed + Reported(v[1..])
  }

  ghost function AllForgiven(maxKeys: int, s: Limits, calls: seq<Call>): nat
    requires maxKeys >= 1 && Run(maxKeys, s, calls)
    decreases |calls|
  {
    if calls == [] then 0 else
    Forgiven(maxKeys, s, calls[0]) + AllForgiven(maxKeys, Step(maxKeys, s, calls[0]), calls[1..])
  }

  /** Over any run: refusals == reported + still owed + lost to forced passes. */
  lemma {:induction false} Conserved(maxKeys: int, s: Limits, calls: seq<Call>)
    requires maxKeys >= 1 && Run(maxKeys, s, calls)
    ensures (Denied(Verdicts(maxKeys, s, calls)) + Debt(s.entries)
             == (Reported(Verdicts(maxKeys, s, calls)) + Debt(After(maxKeys, s, calls).entries)
                 + AllForgiven(maxKeys, s, calls)))
    decreases |calls|
  {
    if calls != [] {
      var t := Step(maxKeys, s, calls[0]);
      StepConserves(maxKeys, s, calls[0]);
      Conserved(maxKeys, t, calls[1..]);
      assert Verdicts(maxKeys, s, calls)[1..] == Verdicts(maxKeys, t, calls[1..]);
    }
  }

  // ---- one key ----

  /** What the next emission of the key would report. */
  function Owed(entries: map<Key, Entry>, k: Key): nat {
    if k in entries then entries[k].suppressed else 0
  }

  /** How many of the first n calls present the key. */
  function Hits(calls: seq<Call>, k: Key, n: nat): nat
    requires n <= |calls|
    decreases n
  {
    if n == 0 then 0 else One(For(calls[0], k)) + Hits(calls[1..], k, n - 1)
  }

  predicate InvalidOweNothing(entries: map<Key, Entry>) {
    forall k | k in entries && entries[k].interval <= 0 :: entries[k].suppressed == 0
  }

  lemma OwedStep(maxKeys: int, s: Limits, q: Call, k: Key)
    requires maxKeys >= 1 && Fits(s, q) && InvalidOweNothing(s.entries) && k !in Lost(maxKeys, s, q)
    ensures InvalidOweNothing(Step(maxKeys, s, q).entries)
    ensures var v, owes := Answer(s.entries, q), Owed(Step(maxKeys, s, q).entries, k);
            if !For(q, k) then owes == Owed(s.entries, k)
            else if v.allow then owes == 0 && v.suppressed == Owed(s.entries, k)
            else owes == Owed(s.entries, k) + 1
    ensures Answer(s.entries, q).addField <==> Answer(s.entries, q).suppressed > 0
  {
    RoomIsPart(maxKeys, s, q);
  }

  /** Up to the next emission of a key, nothing but that key's own refusals changes
      what it will report. */
  lemma {:induction false} OwedUntil(maxKeys: int, s: Limits, calls: seq<Call>, j: nat, k: Key)
    requires maxKeys >= 1 && Run(maxKeys, s, calls) && InvalidOweNothing(s.entries)
    requires j < |calls| && For(calls[j], k) && Verdicts(maxKeys, s, calls)[j].allow
    requires forall i | 0 <= i < j && For(calls[i], k) :: !Verdicts(maxKeys, s, calls)[i].allow
    requires forall i | 0 <= i < j :: k !in Losses(maxKeys, s, calls)[i]
    ensures Verdicts(maxKeys, s, calls)[j].suppressed == Owed(s.entries, k) + Hits(calls, k, j)
    ensures Verdicts(maxKeys, s, calls)[j].addField <==> Verdicts(maxKeys, s, calls)[j].suppressed > 0
    decreases j
  {
    var q, rest := calls[0], calls[1..];
    if j == 0 {
      OwedNow(maxKeys, s, q, k);
    } else {
      var t := Step(maxKeys, s, q);
      assert Losses(maxKeys, s, calls)[1..] == Losses(maxKeys, t, rest);
      assert Verdicts(maxKeys, s, calls)[1..] == Verdicts(maxKeys, t, rest);
      assert k !in Losses(maxKeys, s, calls)[0];
      OwedStep(maxKeys, s, q, k);
      forall i | 0 <= i < j - 1 && For(rest[i], k) ensures !Verdicts(maxKeys, t, rest)[i].allow {
        assert For(calls[i + 1], k) && !Verdicts(maxKeys, s, calls)[i + 1].allow;
      }
      OwedUntil(maxKeys, t, rest, j - 1, k);
    }
  }

  lemma OwedNow(maxKeys: int, s: Limits, q: Call, k: Key)
    requires maxKeys >= 1 && Fits(s, q) && InvalidOweNothing(s.entries)
    requires For(q, k) && Answer(s.entries, q).allow
    ensures Answer(s.entries, q).suppressed == Owed(s.entries, k)
    ensures Answer(s.entries, q).addField <==> Answer(s.entries, q).suppressed > 0
  {
  }

  /** An emission reports exactly the refusals of its key since the previous emission
      of that key, whatever the clock does, unless a forced pass took the key between. */
  lemma {:induction false} ReportsSinceLast(maxKeys: int, s: Limits, calls: seq<Call>, i: nat, j: nat, k: Key)
    requires maxKeys >= 1 && Run(maxKeys, s, calls) && InvalidOweNothing(s.entries)
    requires i < j < |calls| && For(calls[i], k) && For(calls[j], k)
    requires Verdicts(maxKeys, s, calls)[i].allow && Verdicts(maxKeys, s, calls)[j].allow
    requires forall n | i < n < j && For(calls[n], k) :: !Verdicts(maxKeys, s, calls)[n].allow
    requires forall n | i < n < j :: k !in Losses(maxKeys, s, calls)[n]
    ensures Verdicts(maxKeys, s, calls)[j].suppressed == Hits(calls[i + 1..], k, j - i - 1)
    decreases i
  {
    var q, rest := calls[0], calls[1..];
    var t := Step(maxKeys, s, q);
    assert Losses(maxKeys, s, calls)[1..] == Losses(maxKeys, t, rest);
    assert Verdicts(maxKeys, s, calls)[1..] == Verdicts(maxKeys, t, rest);
    if i == 0 {
      NotLostByOwnCall(maxKeys, s, q, k);
      OwedStep(maxKeys, s, q, k);
      OwedUntil(maxKeys, t, rest, j - 1, k);
    } else {
      InvalidStep(maxKeys, s, q);
      ReportsSinceLast(maxKeys, t, rest, i - 1, j - 1, k);
      assert rest[i..] == calls[i + 1..];
    }
  }

  lemma NotLostByOwnCall(maxKeys: int, s: Limits, q: Call, k: Key)
    requires maxKeys >= 1 && Fits(s, q) && For(q, k)
    ensures k !in Lost(maxKeys, s, q)
  {
  }

  lemma InvalidStep(maxKeys: int, s: Limits, q: Call)
    requires maxKeys >= 1 && Fits(s, q) && InvalidOweNothing(s.entries)
    ensures InvalidOweNothing(Step(maxKeys, s, q).entries)
  {
    RoomIsPart(maxKeys, s, q);
  }

  /** The key stays tracked throughout the run. */
  ghost predicate Tracked(maxKeys: int, s: Limits, calls: seq<Call>, k: Key)
    requires maxKeys >= 1 && Run(maxKeys, s, calls)
    decreases |calls|
  {
    k in s.entries && (calls == [] || Tracked(maxKeys, Step(maxKeys, s, calls[0]), calls[1..], k))
  }

  /** An entry keeps the interval it was created with for its whole life, whatever
      intervals later calls present. */
  lemma {:induction false} IntervalFixed(maxKeys: int, s: Limits, calls: seq<Call>, k: Key)
    requires maxKeys >= 1 && Run(maxKeys, s, calls) && Tracked(maxKeys, s, calls, k)
    ensures k in After(maxKeys, s, calls).entries
    ensures After(maxKeys, s, calls).entries[k].interval == s.entries[k].interval
    decreases |calls|
  {
    if calls != [] {
      RoomIsPart(maxKeys, s, calls[0]);
      IntervalFixed(maxKeys, Step(maxKeys, s, calls[0]), calls[1..], k);
    }
  }

  /** How often a differing interval was reported for the key. */
  function ConflictReports(w: seq<Warning>, k: Key): nat {
    if w == [] then 0 else
    ConflictReports(w[..|w| - 1], k) + One(w[|w| - 1].Conflict? && w[|w| - 1].key == k)
  }

  lemma ReportsStep(maxKeys: int, s: Limits, q: Call, k: Key)
    requires maxKeys >= 1 && Fits(s, q) && k in s.entries && k in Step(maxKeys, s, q).entries
    ensures var e, t := s.entries[k], Step(maxKeys, s, q);
            && t.entries[k].conflictWarned == (e.conflictWarned || (For(q, k) && q.opt.value.interval != e.interval))
            && (ConflictReports(t.warnings, k) + One(e.conflictWarned)
                == ConflictReports(s.warnings, k) + One(t.entries[k].conflictWarned))
            && t.conflicts == s.conflicts + One(Conflicts(s, q))
  {
    RoomIsPart(maxKeys, s, q);
    var t := Step(maxKeys, s, q);
    if Limited(q) && Warns(s, q) != [] {
      assert t.warnings == s.warnings + [Warns(s, q)[0]];
      assert t.warnings[..|t.warnings| - 1] == s.warnings;
    } else {
      assert t.warnings == s.warnings;
    }
  }

  /** A differing interval is reported once in the life of an entry, namely when the
      first call that presents one arrives. */
  lemma {:induction false} ReportedOncePerEntry(maxKeys: int, s: Limits, calls: seq<Call>, k: Key)
    requires maxKeys >= 1 && Run(maxKeys, s, calls) && Tracked(maxKeys, s, calls, k)
    ensures k in After(maxKeys, s, calls).entries
    ensures (ConflictReports(After(maxKeys, s, calls).warnings, k)
             == ConflictReports(s.warnings, k)
                + One(!s.entries[k].conflictWarned
                      && exists i | 0 <= i < |calls| ::
                           For(calls[i], k) && calls[i].opt.value.interval != s.entries[k].interval))
    decreases |calls|
  {
    if calls != [] {
      var q, rest := calls[0], calls[1..];
      ReportsStep(maxKeys, s, q, k);
      IntervalFixed(maxKeys, s, [q], k);
      ReportedOncePerEntry(maxKeys, Step(maxKeys, s, q), rest, k);
      assert calls == [q] + rest;
    }
  }

  // ---- the bound and the counters ----

  ghost function Insertions(maxKeys: int, s: Limits, calls: seq<Call>): nat
    requires maxKeys >= 1 && Run(maxKeys, s, calls)
    decreases |calls|
  {
    if calls == [] then 0 else
    One(Inserts(s, calls[0])) + Insertions(maxKeys, Step(maxKeys, s, calls[0]), calls[1..])
  }

  lemma StepAccounts(maxKeys: int, s: Limits, q: Call)
    requires maxKeys >= 1 && Fits(s, q) && |s.entries| <= maxKeys
    ensures var t := Step(maxKeys, s, q);
            && |t.entries| <= maxKeys
            && t.evicted + |t.entries| == s.evicted + |s.entries| + One(Inserts(s, q))
    ensures Lost(maxKeys, s, q) != {} ==>
              |s.entries| == maxKeys && forall k | k in s.entries :: !Stale(s.entries[k], q.now)
  {
    RoomIsPart(maxKeys, s, q);
    if Inserts(s, q) {
      var kept := Live(s.entries, q.now);
      if |kept| >= maxKeys && |s.entries| >= maxKeys {
        SameKeys(kept, s.entries);
      }
    }
  }

  lemma SameKeys(a: map<Key, Entry>, b: map<Key, Entry>)
    requires (forall k | k in a :: k in b) && |a| >= |b|
    ensures a.Keys == b.Keys
  {
    assert |a| == |a.Keys| && |b| == |b.Keys|;
    assert a.Keys <= b.Keys;
    assert b.Keys == a.Keys + (b.Keys - a.Keys);
  }

  /** Whatever the clock does: never more than maxKeys entries, and every insertion is
      still tracked or counted as evicted. */
  lemma {:induction false} Accounts(maxKeys: int, s: Limits, calls: seq<Call>)
    requires maxKeys >= 1 && Run(maxKeys, s, calls) && |s.entries| <= maxKeys
    ensures var t := After(maxKeys, s, calls);
            && |t.entries| <= maxKeys
            && t.evicted + |t.entries| == s.evicted + |s.entries| + Insertions(maxKeys, s, calls)
    decreases |calls|
  {
    if calls != [] {
      StepAccounts(maxKeys, s, calls[0]);
      Accounts(maxKeys, Step(maxKeys, s, calls[0]), calls[1..]);
    }
  }

  /** A forced pass happens only to a full table in which every entry can still suppress
      or owes a report, and takes a quarter of it, at least one. */
  lemma ForcedOnlyWhenFull(maxKeys: int, calls: seq<Call>, q: Call)
    requires maxKeys >= 1 && Run(maxKeys, EMPTY, calls) && Fits(After(maxKeys, EMPTY, calls), q)
    requires Lost(maxKeys, After(maxKeys, EMPTY, calls), q) != {}
    ensures var s := After(maxKeys, EMPTY, calls);
            && |s.entries| == maxKeys
            && (forall k | k in s.entries ::
                  var e := s.entries[k];
                  e.suppressed > 0 || (e.interval > 0 && q.now - e.lastSeen < e.interval))
            && (var dropped := |s.entries| - |Room(maxKeys, s, q)|;
                1 <= dropped && maxKeys < 4 * (dropped + 1) && (dropped == 1 || 4 * dropped <= maxKeys))
  {
    var s := After(maxKeys, EMPTY, calls);
    TargetsAgree(maxKeys);
    QuarterGoes(maxKeys);
    Accounts(maxKeys, EMPTY, calls);
    StepAccounts(maxKeys, s, q);
    ForcedRoom(maxKeys, s, q);
  }

  lemma ForcedRoom(maxKeys: int, s: Limits, q: Call)
    requires maxKeys >= 1 && Fits(s, q) && Inserts(s, q)
    requires |s.entries| == maxKeys && forall k | k in s.entries :: !Stale(s.entries[k], q.now)
    ensures |Room(maxKeys, s, q)| == LimiterTarget(maxKeys)
  {
    assert Live(s.entries, q.now) == s.entries;
    ForcedLeavesRoom(s.entries, maxKeys, q.order);
  }
}
