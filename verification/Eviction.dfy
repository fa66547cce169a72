/** What both bounded caches do when every slot is taken and nothing has expired:
    sort the timestamps, drop what is older than a cutoff, and if a tie at the cutoff
    leaves too much, drop arbitrary entries. Map iteration order is a parameter. */
module Eviction {
  import opened Basics

  /** evictionTarget of the sampler. */
  function SamplerTarget(maxKeys: int): int
    requires maxKeys >= 1
  {
    maxKeys - (if maxKeys / 4 > 1 then maxKeys / 4 else 1)
  }

  /** The same quantity as the rate limiter computes it. */
  function LimiterTarget(maxKeys: int): int
    requires maxKeys >= 1
  {
    var t := maxKeys - maxKeys / 4;
    var u := if t > maxKeys - 1 then maxKeys - 1 else t;
    if u < 0 then 0 else u
  }

  lemma TargetsAgree(maxKeys: int)
    requires maxKeys >= 1
    ensures SamplerTarget(maxKeys) == LimiterTarget(maxKeys)
    ensures 0 <= SamplerTarget(maxKeys) <= maxKeys - 1
    ensures SamplerTarget(maxKeys) == 0 <==> maxKeys == 1
  {
  }

  /** Three quarters are kept: what goes is a quarter, rounded down, but at least one. */
  lemma QuarterGoes(maxKeys: int)
    requires maxKeys >= 1
    ensures var dropped := maxKeys - SamplerTarget(maxKeys);
            && 1 <= dropped && maxKeys < 4 * (dropped + 1)
            && (dropped == 1 || 4 * dropped <= maxKeys)
  {
  }

  // ---- sorting ----

  predicate Ascending(s: seq<int>) {
    forall i, j | 0 <= i < j < |s| :: s[i] <= s[j]
  }

  function InsertSorted(x: int, s: seq<int>): seq<int> {
    if s == [] || x <= s[0] then [x] + s else [s[0]] + InsertSorted(x, s[1..])
  }

  /** slices.SortFunc by Time.Compare. */
  function Sorted(s: seq<int>): seq<int> {
    if s == [] then [] else InsertSorted(s[0], Sorted(s[1..]))
  }

  lemma {:induction false} InsertSortedOk(x: int, s: seq<int>)
    requires Ascending(s)
    ensures Ascending(InsertSorted(x, s))
    ensures forall y :: y in InsertSorted(x, s) <==> y == x || y in s
    ensures |InsertSorted(x, s)| == |s| + 1
  {
    if s != [] && x > s[0] {
      var rest := s[1..];
      assert s == [s[0]] + rest;
      InsertSortedOk(x, rest);
      AscendingCons(s[0], InsertSorted(x, rest));
    } else {
      AscendingCons(x, s);
    }
  }

  lemma AscendingCons(x: int, s: seq<int>)
    requires Ascending(s) && forall y | y in s :: x <= y
    ensures Ascending([x] + s)
  {
    var t := [x] + s;
    forall i, j | 0 <= i < j < |t| ensures t[i] <= t[j] {
      assert t[j] == s[j - 1] && t[j] in s;
    }
  }

  lemma {:induction false} SortedOk(s: seq<int>)
    ensures Ascending(Sorted(s)) && |Sorted(s)| == |s|
    ensures forall y :: y in Sorted(s) <==> y in s
  {
    if s != [] {
      SortedOk(s[1..]);
      InsertSortedOk(s[0], Sorted(s[1..]));
      assert s == [s[0]] + s[1..];
    }
  }

  // ---- counting ----

  /** How many of the values are at least c. */
  function AtLeast(s: seq<int>, c: int): nat {
    if s == [] then 0 else (if s[0] >= c then 1 else 0) + AtLeast(s[1..], c)
  }

  lemma {:induction false} AtLeastInsert(x: int, s: seq<int>, c: int)
    ensures AtLeast(InsertSorted(x, s), c) == AtLeast([x] + s, c)
  {
    assert ([x] + s)[1..] == s;
    if s != [] && x > s[0] {
      AtLeastInsert(x, s[1..], c);
      assert ([x] + s[1..])[1..] == s[1..];
    }
  }

  lemma {:induction false} AtLeastSorted(s: seq<int>, c: int)
    ensures AtLeast(Sorted(s), c) == AtLeast(s, c)
  {
    if s != [] {
      AtLeastSorted(s[1..], c);
      AtLeastInsert(s[0], Sorted(s[1..]), c);
      assert ([s[0]] + Sorted(s[1..]))[1..] == Sorted(s[1..]);
    }
  }

  lemma {:induction false} AtLeastConcat(a: seq<int>, b: seq<int>, c: int)
    ensures AtLeast(a + b, c) == AtLeast(a, c) + AtLeast(b, c)
  {
    if a == [] {
      assert a + b == b;
    } else {
      AtLeastConcat(a[1..], b, c);
      assert (a + b)[1..] == a[1..] + b;
    }
  }

  lemma {:induction false} AtLeastBounds(s: seq<int>, c: int)
    ensures AtLeast(s, c) <= |s|
    ensures AtLeast(s, c) == |s| <==> forall i | 0 <= i < |s| :: s[i] >= c
    ensures AtLeast(s, c) == 0 <==> forall i | 0 <= i < |s| :: s[i] < c
  {
    if s != [] {
      AtLeastBounds(s[1..], c);
      assert s == [s[0]] + s[1..];
    }
  }

  lemma AtLeastSplit(b: seq<int>, i: nat, c: int)
    requires Ascending(b) && i <= |b|
    ensures (forall j | i <= j < |b| :: b[j] >= c) ==> AtLeast(b, c) >= |b| - i
    ensures (forall j | 0 <= j < i :: b[j] < c) ==> AtLeast(b, c) <= |b| - i
    ensures 0 < i && b[i - 1] >= c ==> AtLeast(b, c) >= |b| - i + 1
  {
    var low, high := b[..i], b[i..];
    assert b == low + high;
    AtLeastConcat(low, high, c);
    AtLeastBounds(low, c);
    AtLeastBounds(high, c);
    assert forall j | 0 <= j < |high| :: high[j] == b[i + j];
    if 0 < i && b[i - 1] >= c {
      assert low[i - 1] >= c;
    }
  }

  /** In an ascending buffer the value target places from the end has at least target
      values at or above it, fewer than target strictly above it, and exactly target
      at or above it when the value before is smaller. */
  lemma CutoffCounts(b: seq<int>, target: int)
    requires Ascending(b) && 0 < target <= |b|
    ensures var n := |b| - target;
            && AtLeast(b, b[n]) >= target
            && AtLeast(b, b[n] + 1) < target
            && (AtLeast(b, b[n]) == target <==> n == 0 || b[n - 1] < b[n])
  {
    var n := |b| - target;
    AtLeastSplit(b, n, b[n]);
    AtLeastSplit(b, n + 1, b[n] + 1);
  }

  // ---- the forced pass ----

  /** order lists each tracked key once: the runtime's iteration order. */
  ghost predicate Enumerates<K(!new)>(order: seq<K>, keys: set<K>) {
    && Distinct(order)
    && (forall k :: k in order <==> k in keys)
  }

  /** The values of m along the given keys. */
  function Along<K>(m: map<K, int>, order: seq<K>): seq<int>
    requires forall k | k in order :: k in m
  {
    if order == [] then [] else [m[order[0]]] + Along(m, order[1..])
  }

  /** The arbitrary fallback: keys go in iteration order until target are left. */
  function DropUntil<K(==)>(m: map<K, int>, order: seq<K>, target: int): map<K, int> {
    if order == [] || |m| <= target then m else DropUntil(m - {order[0]}, order[1..], target)
  }

  function Cutoff<K>(m: map<K, int>, order: seq<K>, target: int): int
    requires forall k | k in order :: k in m
    requires 0 < target <= |order|
  {
    SortedLength(Along(m, order));
    AlongLength(m, order);
    Sorted(Along(m, order))[|order| - target]
  }

  lemma SortedLength(s: seq<int>)
    ensures |Sorted(s)| == |s|
  {
    SortedOk(s);
  }

  lemma {:induction false} AlongLength<K>(m: map<K, int>, order: seq<K>)
    requires forall k | k in order :: k in m
    ensures |Along(m, order)| == |order|
  {
    if order != [] {
      AlongLength(m, order[1..]);
    }
  }

  lemma CutoffIs<K>(m: map<K, int>, order: seq<K>, target: int)
    requires forall k | k in order :: k in m
    requires 0 < target <= |order|
    ensures var buffer := Sorted(Along(m, order));
            |buffer| == |order| && Cutoff(m, order, target) == buffer[|buffer| - target]
  {
    AlongLength(m, order);
    SortedLength(Along(m, order));
  }

  function NotOlder<K>(m: map<K, int>, cutoff: int): map<K, int> {
    map k | k in m && m[k] >= cutoff :: m[k]
  }

  /** What a forced pass leaves of the timestamps. */
  function Forced<K(==)>(m: map<K, int>, order: seq<K>, target: int): map<K, int>
    requires forall k | k in order :: k in m
    requires 0 <= target <= |order|
  {
    if target == 0 then map[] else DropUntil(NotOlder(m, Cutoff(m, order, target)), order, target)
  }

  ghost function Above<K(!new)>(m: map<K, int>, order: seq<K>, c: int): set<K>
    requires forall k | k in order :: k in m
  {
    set k | k in order && m[k] >= c
  }

  lemma AboveCons<K(!new)>(m: map<K, int>, order: seq<K>, c: int)
    requires order != [] && forall k | k in order :: k in m
    requires order[0] !in order[1..]
    ensures |Above(m, order, c)| == (if m[order[0]] >= c then 1 else 0) + |Above(m, order[1..], c)|
  {
    var k, less := order[0], Above(m, order[1..], c);
    assert k !in less;
    assert forall x :: x in order <==> x == k || x in order[1..];
    if m[k] >= c {
      assert Above(m, order, c) == less + {k};
    } else {
      assert Above(m, order, c) == less;
    }
  }

  lemma {:induction false} CountAlong<K(!new)>(m: map<K, int>, order: seq<K>, c: int)
    requires forall k | k in order :: k in m
    requires forall i, j | 0 <= i < j < |order| :: order[i] != order[j]
    ensures AtLeast(Along(m, order), c) == |Above(m, order, c)|
  {
    if order != [] {
      var rest := order[1..];
      assert order[0] !in rest by {
        assert forall j | 0 <= j < |rest| :: rest[j] == order[j + 1];
      }
      CountAlong(m, rest, c);
      AboveCons(m, order, c);
      assert Along(m, order) == [m[order[0]]] + Along(m, rest);
      assert Along(m, order)[1..] == Along(m, rest);
    }
  }

  lemma CountNotOlder<K(!new)>(m: map<K, int>, order: seq<K>, c: int)
    requires Enumerates(order, m.Keys)
    ensures |NotOlder(m, c)| == AtLeast(Along(m, order), c)
  {
    CountAlong(m, order, c);
    assert NotOlder(m, c).Keys == Above(m, order, c);
  }

  /** r is part of m. */
  ghost predicate Within<K(!new)>(r: map<K, int>, m: map<K, int>) {
    forall k | k in r :: k in m && r[k] == m[k]
  }

  lemma {:induction false} DropUntilExact<K(!new)>(m: map<K, int>, order: seq<K>, target: int)
    requires 0 <= target <= |m| && forall k | k in m :: k in order
    ensures |DropUntil(m, order, target)| == target && Within(DropUntil(m, order, target), m)
  {
    if order != [] && |m| > target {
      var k := order[0];
      assert order == [k] + order[1..];
      assert (m - {k}).Keys == m.Keys - {k};
      DropUntilExact(m - {k}, order[1..], target);
    } else if order == [] {
      assert m.Keys == {};
    }
  }

  /** The forced pass leaves exactly target entries, all of them at or after the
      cutoff, for every iteration order. */
  lemma ForcedExact<K(!new)>(m: map<K, int>, order: seq<K>, target: int)
    requires Enumerates(order, m.Keys) && 0 <= target <= |m|
    ensures |order| == |m|
    ensures |Forced(m, order, target)| == target && Within(Forced(m, order, target), m)
    ensures target > 0 ==> forall k | k in Forced(m, order, target) :: m[k] >= Cutoff(m, order, target)
  {
    EnumeratesLength(order, m.Keys);
    if target > 0 {
      var c := Cutoff(m, order, target);
      SortedOk(Along(m, order));
      AlongLength(m, order);
      AtLeastSorted(Along(m, order), c);
      CutoffCounts(Sorted(Along(m, order)), target);
      CountNotOlder(m, order, c);
      DropUntilExact(NotOlder(m, c), order, target);
    }
  }

  lemma {:induction false} EnumeratesLength<K(!new)>(order: seq<K>, keys: set<K>)
    requires Enumerates(order, keys)
    ensures |order| == |keys|
  {
    if order == [] {
      assert keys == {};
    } else {
      var rest := order[1..];
      assert order == [order[0]] + rest && order[0] !in rest;
      EnumeratesLength(rest, keys - {order[0]});
    }
  }

  /** No dropped entry is newer than a kept one. */
  ghost predicate KeepsNewest<K(!new)>(m: map<K, int>, r: map<K, int>) {
    forall k, j | k in r && k in m && j in m && j !in r :: m[j] <= m[k]
  }

  /** Every dropped entry is older than every kept one. */
  ghost predicate KeepsPrecisely<K(!new)>(m: map<K, int>, r: map<K, int>) {
    forall k, j | k in r && k in m && j in m && j !in r :: m[j] < m[k]
  }

  /** Nothing is tied with the cutoff from below: the cutoff pass alone leaves target
      entries and the fallback has nothing to do. */
  ghost predicate NoTie<K(!new)>(m: map<K, int>, order: seq<K>, target: int)
    requires Enumerates(order, m.Keys) && 0 < target <= |order|
  {
    |NotOlder(m, Cutoff(m, order, target))| == target
  }

  /** At least target entries are not older than the cutoff, fewer than target are
      strictly newer. */
  lemma CutoffCardinalities<K(!new)>(m: map<K, int>, order: seq<K>, target: int)
    requires Enumerates(order, m.Keys) && 0 < target <= |order|
    ensures |NotOlder(m, Cutoff(m, order, target))| >= target
    ensures |NotOlder(m, Cutoff(m, order, target) + 1)| < target
  {
    var c, b := Cutoff(m, order, target), Along(m, order);
    SortedOk(b);
    AlongLength(m, order);
    AtLeastSorted(b, c);
    AtLeastSorted(b, c + 1);
    CutoffCounts(Sorted(b), target);
    CountNotOlder(m, order, c);
    CountNotOlder(m, order, c + 1);
  }

  lemma OneMore<K>(more: set<K>, less: set<K>)
    requires less <= more && forall x, y | x in more - less && y in more - less :: x == y
    ensures |more| <= |less| + 1
  {
    var extra := more - less;
    assert more == less + extra;
    if extra != {} {
      var x :| x in extra;
      assert extra == {x};
    }
  }

  lemma NoTieWhenDistinct<K(!new)>(m: map<K, int>, order: seq<K>, target: int)
    requires Enumerates(order, m.Keys) && 0 < target <= |m|
    requires forall j, k | j in m && k in m && j != k :: m[j] != m[k]
    ensures |order| == |m| && NoTie(m, order, target)
  {
    EnumeratesLength(order, m.Keys);
    var c := Cutoff(m, order, target);
    CutoffCardinalities(m, order, target);
    OneMore(NotOlder(m, c).Keys, NotOlder(m, c + 1).Keys);
  }

  /** Without a tie at the cutoff the survivors are precisely the newest target
      entries, whatever the iteration order. */
  lemma NoTieKeepsNewest<K(!new)>(m: map<K, int>, order: seq<K>, target: int)
    requires Enumerates(order, m.Keys) && 0 < target <= |order| && NoTie(m, order, target)
    ensures Forced(m, order, target) == NotOlder(m, Cutoff(m, order, target))
    ensures KeepsPrecisely(m, Forced(m, order, target))
  {
  }

  // ---- the iteration order ----

  lemma SameCounts(a: seq<int>, b: seq<int>, i: nat)
    requires Ascending(a) && Ascending(b) && i < |a| == |b|
    requires forall c :: AtLeast(a, c) == AtLeast(b, c)
    ensures a[i] == b[i]
  {
    AtLeastSplit(a, i, a[i]);
    AtLeastSplit(b, i, b[i]);
    AtLeastSplit(a, i + 1, b[i]);
    AtLeastSplit(b, i + 1, a[i]);
  }

  /** The order in which the buffer is filled does not matter: it is sorted. */
  lemma CutoffIgnoresOrder<K(!new)>(m: map<K, int>, one: seq<K>, two: seq<K>, target: int)
    requires Enumerates(one, m.Keys) && Enumerates(two, m.Keys) && 0 < target <= |one|
    ensures |one| == |two| && Cutoff(m, one, target) == Cutoff(m, two, target)
  {
    EnumeratesLength(one, m.Keys);
    EnumeratesLength(two, m.Keys);
    AlongLength(m, one);
    AlongLength(m, two);
    SortedOk(Along(m, one));
    SortedOk(Along(m, two));
    forall c ensures AtLeast(Sorted(Along(m, one)), c) == AtLeast(Sorted(Along(m, two)), c) {
      AtLeastSorted(Along(m, one), c);
      AtLeastSorted(Along(m, two), c);
      CountNotOlder(m, one, c);
      CountNotOlder(m, two, c);
    }
    SameCounts(Sorted(Along(m, one)), Sorted(Along(m, two)), |one| - target);
  }

  ghost predicate AlwaysKeepsNewest<K(!new)>(m: map<K, int>, target: int)
    requires 0 <= target <= |m|
  {
    forall order | Enumerates(order, m.Keys) && |order| == |m| :: KeepsNewest(m, Forced(m, order, target))
  }

  /** Exactly when the forced pass drops by age for certain: when the cutoff pass alone
      reaches the target, or when nothing is newer than the cutoff. Otherwise some
      iteration order makes the fallback drop an entry newer than one it keeps. */
  lemma FallbackMayDropNewer<K(!new)>(m: map<K, int>, some: seq<K>, target: int)
    requires Enumerates(some, m.Keys) && 0 < target <= |some| && target <= |m|
    ensures (AlwaysKeepsNewest(m, target)
             <==> (NoTie(m, some, target) || forall k | k in m :: m[k] <= Cutoff(m, some, target)))
  {
    var c := Cutoff(m, some, target);
    CutoffCardinalities(m, some, target);
    if NoTie(m, some, target) || forall k | k in m :: m[k] <= c {
      forall order | Enumerates(order, m.Keys) && |order| == |m|
        ensures KeepsNewest(m, Forced(m, order, target))
      {
        CutoffIgnoresOrder(m, some, order, target);
        ForcedExact(m, order, target);
      }
    } else {
      var j :| j in m && m[j] > c;
      var order := NewerFirst(m, j);
      CutoffIgnoresOrder(m, some, order, target);
      DropsFirst(m, order, target);
    }
  }

  lemma NewerFirst<K(!new)>(m: map<K, int>, j: K) returns (order: seq<K>)
    requires j in m
    ensures Enumerates(order, m.Keys) && |order| == |m| && order[0] == j
  {
    var rest := Enumeration(m.Keys - {j});
    order := [j] + rest;
    EnumeratesLength(order, m.Keys);
  }

  lemma Enumeration<K(!new)>(keys: set<K>) returns (order: seq<K>)
    ensures Enumerates(order, keys)
    decreases |keys|
  {
    if keys == {} {
      order := [];
    } else {
      var k :| k in keys;
      var rest := Enumeration(keys - {k});
      order := [k] + rest;
    }
  }

  lemma SomeNotNewer<K(!new)>(m: map<K, int>, r: map<K, int>, c: int) returns (k: K)
    requires Within(r, m) && |NotOlder(m, c + 1)| < |r|
    ensures k in r && k in m && m[k] <= c
  {
    if forall x | x in r :: m[x] > c {
      assert r.Keys <= NotOlder(m, c + 1).Keys;
      Subset(r.Keys, NotOlder(m, c + 1).Keys);
      assert false;
    }
    k :| k in r && m[k] <= c;
  }

  lemma FirstGoes<K(!new)>(m: map<K, int>, order: seq<K>, target: int)
    requires order != [] && order[0] in m && 0 <= target < |m| && forall k | k in m :: k in order
    ensures order[0] !in DropUntil(m, order, target)
  {
    var j := order[0];
    assert order == [j] + order[1..];
    assert (m - {j}).Keys == m.Keys - {j};
    DropUntilExact(m - {j}, order[1..], target);
  }

  /** With a tie, an iteration that meets a newer entry first drops it and keeps one
      that is exactly as old as the cutoff. */
  lemma DropsFirst<K(!new)>(m: map<K, int>, order: seq<K>, target: int)
    requires Enumerates(order, m.Keys) && 0 < target <= |order| == |m| && !NoTie(m, order, target)
    requires m[order[0]] > Cutoff(m, order, target)
    ensures !KeepsNewest(m, Forced(m, order, target))
  {
    FirstIsDropped(m, order, target);
    var k := OldIsKept(m, order, target);
    assert order[0] in m;
  }

  lemma FirstIsDropped<K(!new)>(m: map<K, int>, order: seq<K>, target: int)
    requires Enumerates(order, m.Keys) && 0 < target <= |order| == |m| && !NoTie(m, order, target)
    requires m[order[0]] > Cutoff(m, order, target)
    ensures order[0] !in Forced(m, order, target)
  {
    CutoffCardinalities(m, order, target);
    FirstGoes(NotOlder(m, Cutoff(m, order, target)), order, target);
  }

  lemma OldIsKept<K(!new)>(m: map<K, int>, order: seq<K>, target: int) returns (k: K)
    requires Enumerates(order, m.Keys) && 0 < target <= |order| == |m|
    ensures k in Forced(m, order, target) && k in m && m[k] <= Cutoff(m, order, target)
  {
    CutoffCardinalities(m, order, target);
    ForcedExact(m, order, target);
    k := SomeNotNewer(m, Forced(m, order, target), Cutoff(m, order, target));
  }

  lemma Subset<K>(a: set<K>, b: set<K>)
    requires a <= b
    ensures |a| <= |b|
  {
    assert b == a + (b - a);
  }

  // ---- what the loops of an eviction need ----

  lemma {:induction false} AlongSnoc<K>(m: map<K, int>, order: seq<K>, k: K)
    requires (forall x | x in order :: x in m) && k in m
    ensures Along(m, order + [k]) == Along(m, order) + [m[k]]
  {
    if order != [] {
      AlongSnoc(m, order[1..], k);
      assert (order + [k])[1..] == order[1..] + [k];
    }
  }

  function Without<K(==), V>(m: map<K, V>, gone: seq<K>): map<K, V> {
    m - (set k | k in gone)
  }

  /** Deleting gone, each key of m once, reaches the target exactly. */
  ghost predicate Drops<K(!new), V>(m: map<K, V>, gone: seq<K>, target: int) {
    && Distinct(gone)
    && (forall k | k in gone :: k in m)
    && |Without(m, gone)| == target
  }

  lemma WithoutCons<K(!new)>(m: map<K, int>, k: K, tail: seq<K>)
    ensures Without(m - {k}, tail) == Without(m, [k] + tail)
  {
    var one, two := Without(m - {k}, tail), Without(m, [k] + tail);
    assert forall x :: x in [k] + tail <==> x == k || x in tail;
    assert forall x :: x in one <==> x in two;
  }

  lemma DropsTail<K(!new)>(m: map<K, int>, gone: seq<K>, target: int)
    requires Drops(m, gone, target) && gone != []
    ensures var less := m - {gone[0]};
            && Drops(less, gone[1..], target)
            && Without(less, gone[1..]) == Without(m, gone)
            && target < |m|
  {
    var k, tail := gone[0], gone[1..];
    var less := m - {k};
    assert gone == [k] + tail;
    assert less.Keys == m.Keys - {k} && |less| == |m| - 1;
    WithoutCons(m, k, tail);
    Subset(Without(m, gone).Keys, less.Keys);
  }

  lemma DropUntilStep<K(!new)>(m: map<K, int>, k: K, rest: seq<K>, target: int)
    requires target < |m|
    ensures DropUntil(m, [k] + rest, target) == DropUntil(m - {k}, rest, target)
  {
    assert ([k] + rest)[1..] == rest;
  }

  lemma {:induction false} DropUntilPrefix<K(!new)>(m: map<K, int>, gone: seq<K>, rest: seq<K>, target: int)
    requires Drops(m, gone, target)
    ensures DropUntil(m, gone + rest, target) == Without(m, gone)
    decreases |gone|
  {
    if gone == [] {
      assert Without(m, gone) == m && gone + rest == rest;
      assert DropUntil(m, rest, target) == m;
    } else {
      var k, tail := gone[0], gone[1..];
      assert gone + rest == [k] + (tail + rest);
      calc {
        DropUntil(m, gone + rest, target);
        { DropsTail(m, gone, target); DropUntilStep(m, k, tail + rest, target); }
        DropUntil(m - {k}, tail + rest, target);
        { DropsTail(m, gone, target); DropUntilPrefix(m - {k}, tail, rest, target); }
        Without(m - {k}, tail);
        { DropsTail(m, gone, target); }
        Without(m, gone);
      }
    }
  }

  lemma DistinctConcat<K(!new)>(a: seq<K>, b: seq<K>)
    requires Distinct(a) && Distinct(b) && forall k | k in a :: k !in b
    ensures Distinct(a + b)
  {
    var c := a + b;
    forall i, j | 0 <= i < j < |c| ensures c[i] != c[j] {
      if i < |a| <= j {
        assert c[i] in a && c[j] in b;
      }
    }
  }

  /** An order of all the kept keys that begins with the ones the fallback met. */
  lemma CompleteOrder<K(!new)>(kept: map<K, int>, left: map<K, int>, gone: seq<K>, target: int) returns (order: seq<K>)
    requires left.Keys <= kept.Keys && Drops(left, gone, target)
    ensures Enumerates(order, kept.Keys) && DropUntil(left, order, target) == Without(left, gone)
  {
    var rest := Enumeration(kept.Keys - (set k | k in gone));
    order := gone + rest;
    DistinctConcat(gone, rest);
    DropUntilPrefix(left, gone, rest, target);
  }

  /** Nothing lost in any of n steps. */
  function Nothing<K>(n: nat): (l: seq<set<K>>)
    ensures |l| == n && forall i | 0 <= i < n :: l[i] == {}
  {
    seq(n, i => {})
  }
}
