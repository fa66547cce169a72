/** The sampling handler: at most one record per key and interval, over a table of
    bounded size. The probability gate's verdict and the clock reading arrive with
    each record; the iteration order of a forced pass is any order at all. */
module Sampling {
  import opened Basics
  import opened Eviction

  datatype Key = Key(level: int, text: string)

  datatype Config = Config(interval: int, minLevel: int, maxKeys: int, probability: real)

  const DEFAULT_MAX_KEYS := 4096

  /** newSamplingHandler never refuses a configuration: it clamps it, interval and
      probability toward emitting, the bound toward a bounded table. */
  function NewConfig(interval: int, minLevel: int, maxKeys: int, probability: real): (c: Config)
    ensures c.interval >= 0 && c.maxKeys >= 1 && 0.0 < c.probability <= 1.0 && c.minLevel == minLevel
    ensures if interval >= 0 then c.interval == interval else c.interval == 0
    ensures if maxKeys >= 1 then c.maxKeys == maxKeys else c.maxKeys == 4096
    ensures if 0.0 < probability <= 1.0 then c.probability == probability else c.probability == 1.0
  {
    Config(if interval < 0 then 0 else interval,
           minLevel,
           if maxKeys <= 0 then DEFAULT_MAX_KEYS else maxKeys,
           if probability <= 0.0 || probability > 1.0 then 1.0 else probability)
  }

  /** The probability gate's verdict on a draw from [0, 1). */
  predicate Gated(c: Config, draw: real) {
    c.probability < 1.0 && draw >= c.probability
  }

  /** A gate that was left unset or set to nonsense holds nothing back. */
  lemma BadProbabilityEmits(interval: int, minLevel: int, maxKeys: int, probability: real, draw: real)
    requires 0.0 <= draw < 1.0
    ensures Gated(NewConfig(interval, minLevel, maxKeys, probability), draw) <==> 0.0 < probability <= draw
  {
  }

  datatype Table = Table(last: map<Key, int>, suppressed: int, evicted: int)

  const EMPTY := Table(map[], 0, 0)

  /** gated is the verdict of the probability gate, order the one in which a forced
      pass would meet the keys that are left. */
  datatype Req = Req(level: int, key: Key, gated: bool, now: int, order: seq<Key>)

  function Elapsed(now: int, last: int): int {
    if now < last then 0 else now - last
  }

  /** Past the level check, past the gate, and with an interval to keep. */
  predicate Sampled(c: Config, r: Req) {
    r.level >= c.minLevel && !r.gated && c.interval > 0
  }

  /** The entries the first eviction pass leaves. */
  function Unexpired(last: map<Key, int>, now: int, interval: int): map<Key, int> {
    map k | k in last && now - last[k] < interval :: last[k]
  }

  /** evictLocked. */
  ghost function Evict(last: map<Key, int>, maxKeys: int, now: int, interval: int, order: seq<Key>): map<Key, int>
    requires maxKeys >= 1 && Enumerates(order, Unexpired(last, now, interval).Keys)
  {
    if |last| < maxKeys then last else
    var kept := Unexpired(last, now, interval);
    if |kept| < maxKeys then kept else
    EnumeratesLength(order, kept.Keys);
    Forced(kept, order, SamplerTarget(maxKeys))
  }

  ghost predicate Fits(c: Config, s: Table, r: Req) {
    Enumerates(r.order, Unexpired(s.last, r.now, c.interval).Keys)
  }

  predicate Allows(c: Config, s: Table, r: Req) {
    if r.level < c.minLevel then true
    else if r.gated then false
    else if c.interval <= 0 || r.key !in s.last then true
    else Elapsed(r.now, s.last[r.key]) >= c.interval
  }

  predicate Inserts(c: Config, s: Table, r: Req) {
    Sampled(c, r) && r.key !in s.last
  }

  /** The table after one record: its new entry, whom the eviction took, and the
      two counters. */
  ghost function Step(c: Config, s: Table, r: Req): Table
    requires c.maxKeys >= 1 && Fits(c, s, r)
  {
    if !Allows(c, s, r) then s.(suppressed := s.suppressed + 1)
    else if !Sampled(c, r) then s
    else if r.key in s.last then s.(last := s.last[r.key := r.now])
    else
      var left := Evict(s.last, c.maxKeys, r.now, c.interval, r.order);
      Table(left[r.key := r.now], s.suppressed, s.evicted + |s.last| - |left|)
  }

  // ---- the handler itself ----

  class SamplingState {
    var last: map<Key, int>
    const maxKeys: int
    var evictBuf: seq<int>
    var suppressed: int
    var evicted: int

    constructor (maxKeys: int)
      requires maxKeys >= 1
      ensures this.maxKeys == maxKeys && Contents() == EMPTY
    {
      this.maxKeys := maxKeys;
      last, evictBuf, suppressed, evicted := map[], [], 0, 0;
    }

    function Contents(): Table
      reads this
    {
      Table(last, suppressed, evicted)
    }

    /** Deletes what has expired; the iteration order makes no difference. */
    method DropExpired(now: int, interval: int)
      modifies this`last
      ensures last == Unexpired(old(last), now, interval)
    {
      var todo := last.Keys;
      while todo != {}
        invariant todo <= old(last).Keys
        invariant last == map k | k in old(last) && (k in todo || now - old(last)[k] < interval) :: old(last)[k]
        decreases |todo|
      {
        var k :| k in todo;
        if now - last[k] >= interval {
          last := last - {k};
        }
        todo := todo - {k};
      }
    }

    /** Fills the buffer with every timestamp and sorts it. */
    method SortStamps() returns (ghost order: seq<Key>)
      modifies this`evictBuf
      ensures Enumerates(order, last.Keys) && evictBuf == Sorted(Along(last, order))
    {
      evictBuf := [];
      order := [];
      var todo := last.Keys;
      while todo != {}
        invariant todo <= last.Keys && Enumerates(order, last.Keys - todo)
        invariant evictBuf == Along(last, order)
        decreases |todo|
      {
        var k :| k in todo;
        AlongSnoc(last, order, k);
        evictBuf := evictBuf + [last[k]];
        order := order + [k];
        todo := todo - {k};
      }
      evictBuf := Sorted(evictBuf);
    }

    method DropOlder(cutoff: int)
      modifies this`last
      ensures last == NotOlder(old(last), cutoff)
    {
      var todo := last.Keys;
      while todo != {}
        invariant todo <= old(last).Keys
        invariant last == map k | k in old(last) && (k in todo || old(last)[k] >= cutoff) :: old(last)[k]
        decreases |todo|
      {
        var k :| k in todo;
        if last[k] < cutoff {
          last := last - {k};
        }
        todo := todo - {k};
      }
    }

    /** The fallback: entries go in whatever order the iteration meets them. */
    method DropArbitrary(target: int) returns (ghost gone: seq<Key>)
      requires 0 <= target <= |last|
      modifies this`last
      ensures Drops(old(last), gone, target) && last == Without(old(last), gone)
    {
      gone := [];
      var todo := last.Keys;
      while todo != {}
        invariant todo <= last.Keys && |last| >= target
        invariant todo == last.Keys
        invariant Distinct(gone) && (forall k | k in gone :: k in old(last)) && last == Without(old(last), gone)
        decreases |todo|
      {
        var k :| k in todo;
        if |last| <= target {
          break;
        }
        last := last - {k};
        gone := gone + [k];
        todo := todo - {k};
      }
    }

    /** The pass that must leave room although nothing has expired. */
    method ForcePass() returns (ghost order: seq<Key>)
      requires 1 <= maxKeys <= |last|
      modifies this`last, this`evictBuf
      ensures Enumerates(order, old(last).Keys) && |order| == |old(last)|
      ensures SamplerTarget(maxKeys) <= |order| && last == Forced(old(last), order, SamplerTarget(maxKeys))
    {
      var target := SamplerTarget(maxKeys);
      if target == 0 {
        order := Enumeration(last.Keys);
        EnumeratesLength(order, last.Keys);
        last := map[];
        return;
      }
      ghost var kept := last;
      ghost var filled := SortStamps();
      EnumeratesLength(filled, kept.Keys);
      AlongLength(kept, filled);
      SortedOk(Along(kept, filled));
      var cutoff := evictBuf[|evictBuf| - target];
      CutoffCardinalities(kept, filled, target);
      DropOlder(cutoff);
      ghost var gone := DropArbitrary(target);
      order := CompleteOrder(kept, NotOlder(kept, cutoff), gone, target);
      CutoffIgnoresOrder(kept, filled, order, target);
    }

    method EvictLocked(now: int, interval: int) returns (ghost order: seq<Key>)
      requires maxKeys >= 1
      modifies this
      ensures Enumerates(order, Unexpired(old(last), now, interval).Keys)
      ensures last == Evict(old(last), maxKeys, now, interval, order)
      ensures evicted == old(evicted) + |old(last)| - |last| && suppressed == old(suppressed)
    {
      if |last| < maxKeys {
        order := Enumeration(Unexpired(last, now, interval).Keys);
        return;
      }
      var before := |last|;
      DropExpired(now, interval);
      if |last| < maxKeys {
        order := Enumeration(last.Keys);
        evicted := evicted + before - |last|;
        return;
      }
      order := ForcePass();
      evicted := evicted + before - |last|;
    }

    /** allow: true when the record may go on. */
    method Allow(c: Config, draw: real, key: Key, now: int) returns (ok: bool, ghost order: seq<Key>)
      requires c.maxKeys == maxKeys >= 1
      modifies this
      ensures var r := Req(c.minLevel, key, Gated(c, draw), now, order);
              && Fits(c, old(Contents()), r)
              && ok == Allows(c, old(Contents()), r)
              && Contents() == Step(c, old(Contents()), r)
    {
      order := Enumeration(Unexpired(last, now, c.interval).Keys);
      if c.probability < 1.0 && draw >= c.probability {
        suppressed := suppressed + 1;
        return false, order;
      }
      if c.interval <= 0 {
        return true, order;
      }
      if key in last {
        var elapsed := now - last[key];
        if elapsed < 0 {
          elapsed := 0;
        }
        if elapsed < c.interval {
          suppressed := suppressed + 1;
          return false, order;
        }
        last := last[key := now];
        return true, order;
      }
      order := EvictLocked(now, c.interval);
      last := last[key := now];
      return true, order;
    }

    /** Handle: whether the wrapped handler sees the record. */
    method Handle(c: Config, level: int, draw: real, key: Key, now: int)
      returns (forwarded: bool, ghost order: seq<Key>)
      requires c.maxKeys == maxKeys >= 1
      modifies this
      ensures var r := Req(level, key, Gated(c, draw), now, order);
              && Fits(c, old(Contents()), r)
              && forwarded == Allows(c, old(Contents()), r)
              && Contents() == Step(c, old(Contents()), r)
    {
      order := Enumeration(Unexpired(last, now, c.interval).Keys);
      if level < c.minLevel {
        return true, order;
      }
      forwarded, order := Allow(c, draw, key, now);
    }
  }
}
