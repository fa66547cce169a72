/** The per-key rate limiter as a pure step over its table. Each key owns a burst-1
    bucket, idealised: it allows when it never allowed before or when a whole interval
    has gone by since it last did. */
module Rate {
  import opened Basics
  import opened Eviction

  datatype Key = Key(text: string)

  datatype RateLimitOpt = RateLimitOpt(key: Key, interval: int)

  /** One tracked key. A non-positive interval marks the entry as invalid: it has no
      bucket and limits nothing. */
  datatype Entry = Entry(
    interval: int,
    lastAllow: Option<int>,
    suppressed: nat,
    lastSeen: int,
    conflictWarned: bool)

  datatype Warning =
    | Conflict(key: Key, given: int, kept: int)
    | InvalidInterval(key: Key, given: int)

  datatype Limits = Limits(
    entries: map<Key, Entry>,
    evicted: int,
    invalidConfigs: int,
    conflicts: int,
    warnings: seq<Warning>)

  const EMPTY := Limits(map[], 0, 0, 0, [])

  const DEFAULT_MAX_KEYS := 4096

  function NewMaxKeys(maxKeys: int): (n: int)
    ensures n == if maxKeys >= 1 then maxKeys else 4096
  {
    if maxKeys <= 0 then DEFAULT_MAX_KEYS else maxKeys
  }

  /** opt is None for a call without a rate limit; order is the one in which a forced
      pass would meet the keys that are left. */
  datatype Call = Call(opt: Option<RateLimitOpt>, now: int, order: seq<Key>)

  datatype Verdict = Verdict(allow: bool, suppressed: nat, addField: bool)

  const UNLIMITED := Verdict(true, 0, false)

  predicate Limited(q: Call) {
    q.opt.Some? && q.opt.value.key.text != ""
  }

  predicate For(q: Call, key: Key) {
    Limited(q) && q.opt.value.key == key
  }

  // ---- one entry ----

  predicate BucketAllows(e: Entry, now: int) {
    e.lastAllow.None? || now - e.lastAllow.value >= e.interval
  }

  function Judge(e: Entry, now: int): Verdict {
    if e.interval <= 0 then UNLIMITED
    else if BucketAllows(e, now) then Verdict(true, e.suppressed, e.suppressed > 0)
    else Verdict(false, 0, false)
  }

  function Judged(e: Entry, now: int): Entry {
    if e.interval <= 0 then e
    else if BucketAllows(e, now) then e.(lastAllow := Some(now), suppressed := 0)
    else e.(suppressed := e.suppressed + 1)
  }

  /** The clock as this entry sees it: never behind its own last hit. */
  function Clamped(e: Entry, now: int): int {
    if now < e.lastSeen then e.lastSeen else now
  }

  function Seen(e: Entry, opt: RateLimitOpt, now: int): Entry {
    e.(lastSeen := Clamped(e, now), conflictWarned := e.conflictWarned || e.interval != opt.interval)
  }

  function NewEntry(opt: RateLimitOpt, now: int): Entry {
    Entry(opt.interval, None, 0, now, false)
  }

  // ---- eviction ----

  /** What the first pass reclaims: elapsed and with nothing left to report. */
  predicate Stale(e: Entry, now: int) {
    (if now < e.lastSeen then 0 else now - e.lastSeen) >= e.interval && e.suppressed == 0
  }

  function Live(entries: map<Key, Entry>, now: int): map<Key, Entry> {
    map k | k in entries && !Stale(entries[k], now) :: entries[k]
  }

  function Stamps(entries: map<Key, Entry>): map<Key, int> {
    map k | k in entries :: entries[k].lastSeen
  }

  function Restrict(entries: map<Key, Entry>, keys: set<Key>): map<Key, Entry> {
    map k | k in entries && k in keys :: entries[k]
  }

  ghost function Evict(entries: map<Key, Entry>, maxKeys: int, now: int, order: seq<Key>): map<Key, Entry>
    requires maxKeys >= 1 && Enumerates(order, Live(entries, now).Keys)
  {
    if |entries| < maxKeys then entries else
    var kept := Live(entries, now);
    if |kept| < maxKeys then kept else
    EnumeratesLength(order, kept.Keys);
    TargetsAgree(maxKeys);
    Restrict(kept, Forced(Stamps(kept), order, LimiterTarget(maxKeys)).Keys)
  }

  // ---- shouldLog ----

  ghost predicate Fits(s: Limits, q: Call) {
    Enumerates(q.order, Live(s.entries, q.now).Keys)
  }

  /** The entry the call is judged by: the tracked one, touched, or a new one. */
  function EntryFor(entries: map<Key, Entry>, q: Call): Entry
    requires Limited(q)
  {
    var opt := q.opt.value;
    if opt.key in entries then Seen(entries[opt.key], opt, q.now) else NewEntry(opt, q.now)
  }

  function Answer(entries: map<Key, Entry>, q: Call): Verdict {
    if !Limited(q) then UNLIMITED else Judge(EntryFor(entries, q), EntryFor(entries, q).lastSeen)
  }

  predicate Conflicts(s: Limits, q: Call) {
    Limited(q) && q.opt.value.key in s.entries && s.entries[q.opt.value.key].interval != q.opt.value.interval
  }

  predicate Inserts(s: Limits, q: Call) {
    Limited(q) && q.opt.value.key !in s.entries
  }

  /** A differing interval is reported once per entry. */
  function WarnsOn(e: Entry, opt: RateLimitOpt): seq<Warning> {
    if e.interval == opt.interval || e.conflictWarned then [] else [Conflict(opt.key, opt.interval, e.interval)]
  }

  function Warns(s: Limits, q: Call): seq<Warning>
    requires Limited(q)
  {
    var opt := q.opt.value;
    if opt.key in s.entries then WarnsOn(s.entries[opt.key], opt)
    else if opt.interval <= 0 then [InvalidInterval(opt.key, opt.interval)]
    else []
  }

  ghost function Room(maxKeys: int, s: Limits, q: Call): map<Key, Entry>
    requires maxKeys >= 1 && Fits(s, q)
  {
    if Inserts(s, q) then Evict(s.entries, maxKeys, q.now, q.order) else s.entries
  }

  ghost function Step(maxKeys: int, s: Limits, q: Call): Limits
    requires maxKeys >= 1 && Fits(s, q)
  {
    if !Limited(q) then s else
    var e := EntryFor(s.entries, q);
    Limits(Room(maxKeys, s, q)[q.opt.value.key := Judged(e, e.lastSeen)],
           s.evicted + |s.entries| - |Room(maxKeys, s, q)|,
           s.invalidConfigs + (if Inserts(s, q) && q.opt.value.interval <= 0 then 1 else 0),
           s.conflicts + (if Conflicts(s, q) then 1 else 0),
           s.warnings + Warns(s, q))
  }

  // ---- extractLogOptions ----

  datatype Arg = Plain(id: nat) | Limit(opt: RateLimitOpt) | Counter(metric: string)

  function Plains(args: seq<Arg>): seq<Arg> {
    if args == [] then []
    else Plains(args[..|args| - 1]) + (if args[|args| - 1].Plain? then [args[|args| - 1]] else [])
  }

  /** a is at position i and no option of its kind comes later. */
  predicate LastAt(args: seq<Arg>, a: Arg, i: int) {
    && 0 <= i < |args| && args[i] == a
    && forall j | i < j < |args| :: (a.Limit? ==> !args[j].Limit?) && (a.Counter? ==> !args[j].Counter?)
  }

  /** Filters the options out, keeping every other argument in place; of several
      options of a kind the last one counts. */
  method ExtractLogOptions(args: seq<Arg>)
    returns (filtered: seq<Arg>, rateLimit: Option<RateLimitOpt>, counter: Option<string>)
    ensures filtered == Plains(args)
    ensures rateLimit.None? <==> forall i | 0 <= i < |args| :: !args[i].Limit?
    ensures rateLimit.Some? ==> exists i :: LastAt(args, Limit(rateLimit.value), i)
    ensures counter.None? <==> forall i | 0 <= i < |args| :: !args[i].Counter?
    ensures counter.Some? ==> exists i :: LastAt(args, Counter(counter.value), i)
  {
    filtered, rateLimit, counter := [], None, None;
    ghost var atLimit, atCounter := 0, 0;
    for n := 0 to |args|
      invariant filtered == Plains(args[..n])
      invariant rateLimit.None? <==> forall i | 0 <= i < n :: !args[i].Limit?
      invariant rateLimit.Some? ==> LastAt(args[..n], Limit(rateLimit.value), atLimit)
      invariant counter.None? <==> forall i | 0 <= i < n :: !args[i].Counter?
      invariant counter.Some? ==> LastAt(args[..n], Counter(counter.value), atCounter)
    {
      assert args[..n + 1][..n] == args[..n];
      match args[n]
      case Limit(o) => rateLimit, atLimit := Some(o), n;
      case Counter(m) => counter, atCounter := Some(m), n;
      case Plain(_) => filtered := filtered + [args[n]];
    }
    assert args[..|args|] == args;
  }

  lemma {:induction false} PlainsKeepOrder(a: seq<Arg>, b: seq<Arg>)
    ensures Plains(a + b) == Plains(a) + Plains(b)
    decreases |b|
  {
    if b == [] {
      assert a + b == a;
    } else {
      var n := |b| - 1;
      PlainsKeepOrder(a, b[..n]);
      assert (a + b)[..|a + b| - 1] == a + b[..n];
    }
  }

  /** Exactly the options go, wherever they stand; the other arguments keep their order. */
  lemma PlainsExactly(a: seq<Arg>, x: Arg, b: seq<Arg>)
    ensures Plains([]) == [] && Plains(a + [x] + b) == Plains(a) + (if x.Plain? then [x] else []) + Plains(b)
  {
    PlainsKeepOrder(a + [x], b);
    assert (a + [x])[..|a|] == a;
  }
}
