/** The rate limiter as it is stored: a map from keys to entry objects that a decision
    and an eviction change in place. Every method is proved to make the pure step. */
module RateState {
  import opened Basics
  import opened Eviction
  import opened Rate

  class RateEntry {
    const interval: int
    const limited: bool             // whether the entry owns a limiter
    var lastAllow: Option<int>      // the limiter's own memory
    var suppressed: nat
    var lastSeen: int
    var conflictWarned: bool

    constructor (interval: int, now: int)
      ensures View() == Entry(interval, None, 0, now, false) && limited == (interval > 0)
    {
      this.interval, limited, lastAllow := interval, interval > 0, None;
      suppressed, lastSeen, conflictWarned := 0, now, false;
    }

    function View(): Entry
      reads this
    {
      Entry(interval, lastAllow, suppressed, lastSeen, conflictWarned)
    }

    /** AllowN(now, 1) of the burst-1 limiter. */
    method AllowN(now: int) returns (ok: bool)
      modifies this`lastAllow
      ensures ok <==> old(lastAllow).None? || now - old(lastAllow).value >= interval
      ensures lastAllow == if ok then Some(now) else old(lastAllow)
    {
      ok := lastAllow.None? || now - lastAllow.value >= interval;
      if ok {
        lastAllow := Some(now);
      }
    }

    /** The second half of shouldLog. */
    method Decide(now: int) returns (v: Verdict)
      requires limited == (interval > 0)
      modifies this`lastAllow, this`suppressed
      ensures v == Judge(old(View()), now) && View() == Judged(old(View()), now)
    {
      if !limited {
        return UNLIMITED;
      }
      var allow := AllowN(now);
      if allow {
        v := Verdict(true, suppressed, false);
        if suppressed > 0 {
          v := v.(addField := true);
          suppressed := 0;
        }
      } else {
        suppressed := suppressed + 1;
        v := Verdict(false, 0, false);
      }
    }
  }

  function Views(limiters: map<Key, RateEntry>): map<Key, Entry>
    reads limiters.Values
  {
    map k | k in limiters :: limiters[k].View()
  }

  /** No two keys share an entry object, and exactly the valid entries own a limiter. */
  ghost predicate Separate(limiters: map<Key, RateEntry>) {
    && (forall j, k | j in limiters && k in limiters && j != k :: limiters[j] != limiters[k])
    && (forall k | k in limiters :: limiters[k].limited == (limiters[k].interval > 0))
  }

  /** a is what is left of b after deletions. */
  predicate Part(a: map<Key, RateEntry>, b: map<Key, RateEntry>) {
    forall k | k in a :: k in b && a[k] == b[k]
  }

  /** views shows the tracked entries as they are. */
  ghost predicate Mirrors(limiters: map<Key, RateEntry>, views: map<Key, Entry>)
    reads limiters.Values
  {
    && (forall k :: k in views <==> k in limiters)
    && (forall k | k in limiters :: views[k] == limiters[k].View())
  }

  class RateState {
    var limiters: map<Key, RateEntry>
    const maxKeys: int
    var evictBuf: seq<int>
    var evicted: int
    var invalidConfigs: int
    var conflicts: int
    var warnings: seq<Warning>      // what warn was called with

    constructor (maxKeys: int)
      ensures Valid() && Contents() == EMPTY && limiters == map[] && this.maxKeys == NewMaxKeys(maxKeys)
    {
      this.maxKeys := if maxKeys <= 0 then DEFAULT_MAX_KEYS else maxKeys;
      limiters, evictBuf, evicted, invalidConfigs, conflicts, warnings := map[], [], 0, 0, 0, [];
    }

    ghost predicate Valid()
      reads this
    {
      maxKeys >= 1 && Separate(limiters)
    }

    function Contents(): Limits
      reads this, limiters.Values
    {
      Limits(Views(limiters), evicted, invalidConfigs, conflicts, warnings)
    }

    method EvictLocked(now: int, ghost views: map<Key, Entry>) returns (ghost order: seq<Key>)
      requires maxKeys >= 1 && Mirrors(limiters, views)
      modifies this`limiters, this`evictBuf, this`evicted
      ensures Enumerates(order, Live(views, now).Keys)
      ensures Part(limiters, old(limiters)) && limiters.Keys == Evict(views, maxKeys, now, order).Keys
      ensures evicted == old(evicted) + |old(limiters)| - |limiters|
    {
      MirrorsCount(limiters, views);
      if |limiters| < maxKeys {
        order := Enumeration(Live(views, now).Keys);
        return;
      }
      var before := |limiters|;
      var left, buffer;
      left, buffer, order := Shrink(limiters, maxKeys, now, views);
      MirrorsCount(left, Evict(views, maxKeys, now, order));
      limiters, evictBuf := left, if buffer.Some? then buffer.value else evictBuf;
      evicted := evicted + before - |limiters|;
    }

    /** A call for a tracked key: clamps the clock, refreshes recency, and reports an
        interval that differs from the first one. */
    method Touch(e: RateEntry, opt: RateLimitOpt, now: int) returns (seen: int)
      modifies this`conflicts, this`warnings, e`lastSeen, e`conflictWarned
      ensures e.View() == Seen(old(e.View()), opt, now) && seen == e.lastSeen
      ensures conflicts == old(conflicts) + (if opt.interval != e.interval then 1 else 0)
      ensures warnings == old(warnings) + WarnsOn(old(e.View()), opt)
    {
      seen := now;
      if seen < e.lastSeen {
        seen := e.lastSeen;
      }
      e.lastSeen := seen;
      if e.interval != opt.interval {
        conflicts := conflicts + 1;
        if !e.conflictWarned {
          e.conflictWarned := true;
          warnings := warnings + [Conflict(opt.key, opt.interval, e.interval)];
        }
      }
    }

    /** A call for a new key: makes room, and starts tracking it. kept is the map
        between the two. */
    method Track(opt: RateLimitOpt, now: int, ghost views: map<Key, Entry>)
      returns (e: RateEntry, ghost kept: map<Key, RateEntry>, ghost order: seq<Key>)
      requires maxKeys >= 1 && opt.key !in limiters && Mirrors(limiters, views)
      modifies this`limiters, this`evictBuf, this`evicted, this`invalidConfigs, this`warnings
      ensures Enumerates(order, Live(views, now).Keys)
      ensures fresh(e) && e.View() == NewEntry(opt, now) && e.limited == (opt.interval > 0)
      ensures Part(kept, old(limiters)) && kept.Keys == Evict(views, maxKeys, now, order).Keys
      ensures limiters == kept[opt.key := e]
      ensures evicted == old(evicted) + |old(limiters)| - |kept|
      ensures invalidConfigs == old(invalidConfigs) + (if opt.interval <= 0 then 1 else 0)
      ensures warnings == old(warnings) + (if opt.interval <= 0 then [InvalidInterval(opt.key, opt.interval)] else [])
    {
      order := EvictLocked(now, views);
      kept := limiters;
      e := new RateEntry(opt.interval, now);
      if opt.interval <= 0 {
        invalidConfigs := invalidConfigs + 1;
        warnings := warnings + [InvalidInterval(opt.key, opt.interval)];
      }
      limiters := limiters[opt.key := e];
    }

    method LogTracked(opt: RateLimitOpt, now: int, ghost views: map<Key, Entry>) returns (v: Verdict)
      requires Valid() && opt.key in limiters && Mirrors(limiters, views)
      modifies this`conflicts, this`warnings, limiters.Values
      ensures Valid()
      ensures var e := Seen(views[opt.key], opt, now);
              && v == Judge(e, e.lastSeen) && Mirrors(limiters, views[opt.key := Judged(e, e.lastSeen)])
      ensures conflicts == old(conflicts) + (if opt.interval != views[opt.key].interval then 1 else 0)
      ensures warnings == old(warnings) + WarnsOn(views[opt.key], opt)
    {
      var e := limiters[opt.key];
      var seen := Touch(e, opt, now);
      v := e.Decide(seen);
    }

    method LogNew(opt: RateLimitOpt, now: int, ghost views: map<Key, Entry>) returns (v: Verdict, ghost order: seq<Key>)
      requires Valid() && opt.key !in limiters && Mirrors(limiters, views)
      modifies this`limiters, this`evictBuf, this`evicted, this`invalidConfigs, this`warnings
      ensures Valid() && fresh(limiters.Values - old(limiters.Values))
      ensures Enumerates(order, Live(views, now).Keys)
      ensures var e := NewEntry(opt, now);
              && v == Judge(e, now)
              && Mirrors(limiters, Evict(views, maxKeys, now, order)[opt.key := Judged(e, now)])
      ensures evicted == old(evicted) + |views| - |Evict(views, maxKeys, now, order)|
      ensures invalidConfigs == old(invalidConfigs) + (if opt.interval <= 0 then 1 else 0)
      ensures warnings == old(warnings) + (if opt.interval <= 0 then [InvalidInterval(opt.key, opt.interval)] else [])
    {
      MirrorsCount(limiters, views);
      var e;
      ghost var before, kept := limiters, limiters;
      e, kept, order := Track(opt, now, views);
      ghost var room := Evict(views, maxKeys, now, order);
      EvictIsPart(views, maxKeys, now, order);
      CountsAgree(kept, room);
      MirrorsPart(kept, before, views, room);
      SeparatePut(before, kept, opt.key, e);
      v := e.Decide(now);
      assert Mirrors(kept, room) by {
        assert forall k | k in kept :: kept[k] == before[k] != e;
      }
      MirrorsPut(kept, room, opt.key, e);
    }

    /** The state shows s. */
    ghost predicate Shows(s: Limits)
      reads this, limiters.Values
    {
      && Mirrors(limiters, s.entries)
      && evicted == s.evicted && invalidConfigs == s.invalidConfigs
      && conflicts == s.conflicts && warnings == s.warnings
    }

    method Log(opt: RateLimitOpt, now: int, ghost s: Limits) returns (v: Verdict, ghost order: seq<Key>)
      requires Valid() && Shows(s) && opt.key.text != ""
      modifies this, limiters.Values
      ensures Valid() && fresh(limiters.Values - old(limiters.Values))
      ensures Enumerates(order, Live(s.entries, now).Keys)
      ensures v == Answer(s.entries, Call(Some(opt), now, order))
      ensures Shows(Step(maxKeys, s, Call(Some(opt), now, order)))
    {
      if opt.key in limiters {
        order := Enumeration(Live(s.entries, now).Keys);
        StepTracked(maxKeys, s, opt, now, order);
        v := LogTracked(opt, now, s.entries);
      } else {
        v, order := LogNew(opt, now, s.entries);
        StepNew(maxKeys, s, opt, now, order);
      }
    }

    /** shouldLog. */
    method ShouldLog(opt: Option<RateLimitOpt>, now: int) returns (v: Verdict, ghost order: seq<Key>)
      requires Valid()
      modifies this, limiters.Values
      ensures Valid() && fresh(limiters.Values - old(limiters.Values))
      ensures var q := Call(opt, now, order);
              && Fits(old(Contents()), q)
              && v == Answer(old(Contents()).entries, q)
              && Contents() == Step(maxKeys, old(Contents()), q)
    {
      ghost var s := Contents();
      if opt.None? || opt.value.key.text == "" {
        order := Enumeration(Live(s.entries, now).Keys);
        return UNLIMITED, order;
      }
      v, order := Log(opt.value, now, s);
      MirrorsViews(limiters, Step(maxKeys, s, Call(opt, now, order)).entries);
    }
  }

  /** shouldLog on a state that may be missing: a logger assembled by hand has no limiters
      and limits nothing. */
  method ShouldLogOn(s: RateState?, opt: Option<RateLimitOpt>, now: int) returns (v: Verdict, ghost order: seq<Key>)
    requires s != null ==> s.Valid()
    modifies s, if s == null then {} else s.limiters.Values
    ensures s == null ==> v == UNLIMITED
    ensures s != null ==>
              && s.Valid() && Fits(old(s.Contents()), Call(opt, now, order))
              && v == Answer(old(s.Contents()).entries, Call(opt, now, order))
              && s.Contents() == Step(s.maxKeys, old(s.Contents()), Call(opt, now, order))
  {
    if s == null {
      return UNLIMITED, [];
    }
    v, order := s.ShouldLog(opt, now);
  }

  /** Both passes over a full map; a buffer comes back when the forced one ran. */
  method Shrink(limiters: map<Key, RateEntry>, maxKeys: int, now: int, ghost views: map<Key, Entry>)
    returns (left: map<Key, RateEntry>, buffer: Option<seq<int>>, ghost order: seq<Key>)
    requires 1 <= maxKeys <= |views| && Mirrors(limiters, views)
    ensures Enumerates(order, Live(views, now).Keys)
    ensures Part(left, limiters) && Mirrors(left, Evict(views, maxKeys, now, order))
  {
    ghost var kept := Live(views, now);
    var live := DropStale(limiters, now, views);
    MirrorsCount(live, kept);
    if |live| < maxKeys {
      order := Enumeration(kept.Keys);
      return live, None, order;
    }
    var forced, buf;
    forced, buf, order := ForcePass(live, maxKeys, kept);
    EvictByForce(views, maxKeys, now, order);
    MirrorsPart(forced, live, kept, Evict(views, maxKeys, now, order));
    return forced, Some(buf), order;
  }

  // The loops of an eviction. Each deletes from the map it is given, meeting the keys
  // in an arbitrary order; the entries themselves stay as they are.

  method DropStale(limiters: map<Key, RateEntry>, now: int, ghost views: map<Key, Entry>)
    returns (left: map<Key, RateEntry>)
    requires Mirrors(limiters, views)
    ensures Part(left, limiters) && Mirrors(left, Live(views, now))
  {
    left := limiters;
    var todo := limiters.Keys;
    while todo != {}
      invariant todo <= limiters.Keys && Part(left, limiters)
      invariant forall k | k in limiters :: k in left <==> k in todo || !Stale(views[k], now)
      decreases |todo|
    {
      var k :| k in todo;
      var e := left[k];
      var elapsed := now - e.lastSeen;
      if elapsed < 0 {
        elapsed := 0;
      }
      if elapsed >= e.interval && e.suppressed == 0 {
        left := left - {k};
      }
      todo := todo - {k};
    }
  }

  method SortStamps(limiters: map<Key, RateEntry>, ghost views: map<Key, Entry>)
    returns (evictBuf: seq<int>, ghost order: seq<Key>)
    requires Mirrors(limiters, views)
    ensures Enumerates(order, views.Keys) && evictBuf == Sorted(Along(Stamps(views), order))
  {
    evictBuf := [];
    order := [];
    ghost var stamps := Stamps(views);
    var todo := limiters.Keys;
    while todo != {}
      invariant todo <= stamps.Keys && Enumerates(order, stamps.Keys - todo)
      invariant evictBuf == Along(stamps, order)
      decreases |todo|
    {
      var k :| k in todo;
      AlongSnoc(stamps, order, k);
      evictBuf := evictBuf + [limiters[k].lastSeen];
      order := order + [k];
      todo := todo - {k};
    }
    evictBuf := Sorted(evictBuf);
  }

  method DropOlder(limiters: map<Key, RateEntry>, cutoff: int, ghost views: map<Key, Entry>)
    returns (left: map<Key, RateEntry>)
    requires Mirrors(limiters, views)
    ensures Part(left, limiters)
    ensures forall k | k in limiters :: k in left <==> views[k].lastSeen >= cutoff
  {
    left := limiters;
    var todo := limiters.Keys;
    while todo != {}
      invariant todo <= limiters.Keys && Part(left, limiters)
      invariant forall k | k in limiters :: k in left <==> k in todo || views[k].lastSeen >= cutoff
      decreases |todo|
    {
      var k :| k in todo;
      if left[k].lastSeen < cutoff {
        left := left - {k};
      }
      todo := todo - {k};
    }
  }

  method DropArbitrary(limiters: map<Key, RateEntry>, target: int)
    returns (left: map<Key, RateEntry>, ghost gone: seq<Key>)
    requires 0 <= target <= |limiters|
    ensures Drops(limiters, gone, target) && left == Without(limiters, gone)
  {
    left := limiters;
    gone := [];
    var todo := limiters.Keys;
    while todo != {}
      invariant todo == left.Keys && |left| >= target
      invariant Distinct(gone) && left == Without(limiters, gone)
      invariant forall k | k in gone :: k in limiters
      decreases |todo|
    {
      var k :| k in todo;
      if |left| <= target {
        break;
      }
      left := left - {k};
      gone := gone + [k];
      todo := todo - {k};
    }
  }

  /** Sorts, finds the cutoff, drops what is older, and falls back on a tie. */
  method KeepNewest(limiters: map<Key, RateEntry>, target: int, ghost views: map<Key, Entry>)
    returns (left: map<Key, RateEntry>, evictBuf: seq<int>, ghost order: seq<Key>)
    requires 0 < target <= |views| && Mirrors(limiters, views)
    ensures Enumerates(order, views.Keys) && |order| == |views|
    ensures Part(left, limiters) && left.Keys == Forced(Stamps(views), order, target).Keys
  {
    ghost var filled;
    evictBuf, filled := SortStamps(limiters, views);
    BufferFacts(views, filled, evictBuf, target);
    var cutoff := evictBuf[|evictBuf| - target];
    var recent := DropOlder(limiters, cutoff, views);
    RecentKeys(limiters, recent, views, cutoff);
    assert target <= |recent|;
    ghost var gone;
    left, gone := DropArbitrary(recent, target);
    order := ForceDone(recent, views, filled, cutoff, gone, target);
  }

  /** The pass that must leave room although nothing is stale. */
  method ForcePass(limiters: map<Key, RateEntry>, maxKeys: int, ghost views: map<Key, Entry>)
    returns (left: map<Key, RateEntry>, evictBuf: seq<int>, ghost order: seq<Key>)
    requires 1 <= maxKeys <= |views| && Mirrors(limiters, views)
    ensures Enumerates(order, views.Keys) && |order| == |views|
    ensures 0 <= LimiterTarget(maxKeys) <= |order|
    ensures Part(left, limiters) && left.Keys == Forced(Stamps(views), order, LimiterTarget(maxKeys)).Keys
  {
    var target := maxKeys - maxKeys / 4;
    if target > maxKeys - 1 {
      target := maxKeys - 1;
    }
    if target < 0 {
      target := 0;
    }
    if target == 0 {
      order := Enumeration(views.Keys);
      EnumeratesLength(order, views.Keys);
      return map[], [], order;
    }
    left, evictBuf, order := KeepNewest(limiters, target, views);
  }

  lemma BufferFacts(views: map<Key, Entry>, filled: seq<Key>, buffer: seq<int>, target: int)
    requires Enumerates(filled, views.Keys) && 0 < target <= |views|
    requires buffer == Sorted(Along(Stamps(views), filled))
    ensures |filled| == |views| == |buffer| && Stamps(views).Keys == views.Keys
    ensures buffer[|buffer| - target] == Cutoff(Stamps(views), filled, target)
    ensures |NotOlder(Stamps(views), buffer[|buffer| - target])| >= target
  {
    var stamps := Stamps(views);
    StampsKeys(views);
    EnumeratesLength(filled, views.Keys);
    CutoffIs(stamps, filled, target);
    CutoffCardinalities(stamps, filled, target);
  }

  /** The order the fallback followed, completed to one of all the keys. */
  lemma ForceDone(recent: map<Key, RateEntry>, views: map<Key, Entry>, filled: seq<Key>,
                  cutoff: int, gone: seq<Key>, target: int)
    returns (order: seq<Key>)
    requires Enumerates(filled, views.Keys) && 0 < target <= |filled| == |views|
    requires cutoff == Cutoff(Stamps(views), filled, target)
    requires recent.Keys == NotOlder(Stamps(views), cutoff).Keys && Drops(recent, gone, target)
    ensures Enumerates(order, views.Keys) && |order| == |views|
    ensures Without(recent, gone).Keys == Forced(Stamps(views), order, target).Keys
  {
    var stamps := Stamps(views);
    StampsKeys(views);
    DropsByKey(recent, NotOlder(stamps, cutoff), gone, target);
    order := CompleteOrder(stamps, NotOlder(stamps, cutoff), gone, target);
    CutoffIgnoresOrder(stamps, filled, order, target);
    EnumeratesLength(order, stamps.Keys);
  }

  lemma StampsKeys(views: map<Key, Entry>)
    ensures Stamps(views).Keys == views.Keys && |Stamps(views)| == |views|
  {
    assert Stamps(views).Keys == views.Keys;
    CountsAgree(Stamps(views), views);
  }

  lemma MirrorsCount(limiters: map<Key, RateEntry>, views: map<Key, Entry>)
    requires Mirrors(limiters, views)
    ensures limiters.Keys == views.Keys && |limiters| == |views|
  {
    assert limiters.Keys == views.Keys;
    CountsAgree(limiters, views);
  }

  lemma RecentKeys(limiters: map<Key, RateEntry>, recent: map<Key, RateEntry>, views: map<Key, Entry>, cutoff: int)
    requires Mirrors(limiters, views) && Part(recent, limiters)
    requires forall k | k in limiters :: k in recent <==> views[k].lastSeen >= cutoff
    ensures recent.Keys == NotOlder(Stamps(views), cutoff).Keys && |recent| == |NotOlder(Stamps(views), cutoff)|
  {
    assert recent.Keys == NotOlder(Stamps(views), cutoff).Keys;
    CountsAgree(recent, NotOlder(Stamps(views), cutoff));
  }

  lemma CountsAgree<V, W>(a: map<Key, V>, b: map<Key, W>)
    requires a.Keys == b.Keys
    ensures |a| == |b|
  {
    assert |a| == |a.Keys| && |b| == |b.Keys|;
  }

  lemma EvictByForce(views: map<Key, Entry>, maxKeys: int, now: int, order: seq<Key>)
    requires maxKeys >= 1 && Enumerates(order, Live(views, now).Keys)
    requires |views| >= maxKeys && |Live(views, now)| >= maxKeys
    ensures 0 <= LimiterTarget(maxKeys) <= |order| == |Live(views, now)|
    ensures var after := Evict(views, maxKeys, now, order);
            && after.Keys == Forced(Stamps(Live(views, now)), order, LimiterTarget(maxKeys)).Keys
            && forall k | k in after :: k in Live(views, now) && after[k] == Live(views, now)[k]
  {
    StampsKeys(Live(views, now));
    TargetsAgree(maxKeys);
    EnumeratesLength(order, Stamps(Live(views, now)).Keys);
    ForcedExact(Stamps(Live(views, now)), order, LimiterTarget(maxKeys));
  }

  lemma MirrorsPart(left: map<Key, RateEntry>, before: map<Key, RateEntry>,
                    kept: map<Key, Entry>, after: map<Key, Entry>)
    requires Mirrors(before, kept) && Part(left, before) && left.Keys == after.Keys
    requires forall k | k in after :: k in kept && after[k] == kept[k]
    ensures Mirrors(left, after)
  {
  }

  lemma DropsByKey<V, W>(a: map<Key, V>, b: map<Key, W>, gone: seq<Key>, target: int)
    requires a.Keys == b.Keys && Drops(a, gone, target)
    ensures Drops(b, gone, target) && Without(a, gone).Keys == Without(b, gone).Keys
  {
    assert Without(a, gone).Keys == Without(b, gone).Keys;
    assert |Without(a, gone)| == |Without(a, gone).Keys|;
  }

  lemma EvictIsPart(entries: map<Key, Entry>, maxKeys: int, now: int, order: seq<Key>)
    requires maxKeys >= 1 && Enumerates(order, Live(entries, now).Keys)
    ensures forall k | k in Evict(entries, maxKeys, now, order) ::
              k in entries && Evict(entries, maxKeys, now, order)[k] == entries[k]
  {
  }

  lemma SeparatePut(before: map<Key, RateEntry>, kept: map<Key, RateEntry>, key: Key, e: RateEntry)
    requires Separate(before) && Part(kept, before) && e !in before.Values && e.limited == (e.interval > 0)
    ensures Separate(kept[key := e])
  {
    var after := kept[key := e];
    forall j, k | j in after && k in after && j != k ensures after[j] != after[k] {
      assert j != key ==> after[j] == before[j] && before[j] in before.Values;
      assert k != key ==> after[k] == before[k] && before[k] in before.Values;
    }
  }

  lemma MirrorsPut(kept: map<Key, RateEntry>, room: map<Key, Entry>, key: Key, e: RateEntry)
    requires Mirrors(kept, room)
    ensures Mirrors(kept[key := e], room[key := e.View()])
  {
  }

  lemma MirrorsViews(limiters: map<Key, RateEntry>, views: map<Key, Entry>)
    requires Mirrors(limiters, views)
    ensures Views(limiters) == views
  {
  }

  lemma StepTracked(maxKeys: int, s: Limits, opt: RateLimitOpt, now: int, order: seq<Key>)
    requires maxKeys >= 1 && opt.key in s.entries && opt.key.text != "" && Enumerates(order, Live(s.entries, now).Keys)
    ensures var q, e := Call(Some(opt), now, order), Seen(s.entries[opt.key], opt, now);
            && Answer(s.entries, q) == Judge(e, e.lastSeen)
            && Step(maxKeys, s, q) == Limits(
              s.entries[opt.key := Judged(e, e.lastSeen)], s.evicted, s.invalidConfigs,
              s.conflicts + (if opt.interval != s.entries[opt.key].interval then 1 else 0),
              s.warnings + WarnsOn(s.entries[opt.key], opt))
  {
  }

  lemma StepNew(maxKeys: int, s: Limits, opt: RateLimitOpt, now: int, order: seq<Key>)
    requires maxKeys >= 1 && opt.key !in s.entries && opt.key.text != "" && Enumerates(order, Live(s.entries, now).Keys)
    ensures var q, e := Call(Some(opt), now, order), NewEntry(opt, now);
            var room := Evict(s.entries, maxKeys, now, order);
            && Answer(s.entries, q) == Judge(e, now)
            && Step(maxKeys, s, q) == Limits(
              room[opt.key := Judged(e, now)], s.evicted + |s.entries| - |room|,
              s.invalidConfigs + (if opt.interval <= 0 then 1 else 0), s.conflicts,
              s.warnings + (if opt.interval <= 0 then [InvalidInterval(opt.key, opt.interval)] else []))
  {
  }
}
