/** Counting the entries of a finite map that satisfy a predicate, and how one
    update changes the count. */
module Counting {

  ghost function Matching<K(!new), V(!new)>(m: map<K, V>, p: V -> bool): set<K> {
    set k | k in m && p(m[k])
  }
  ghost function Count<K(!new), V(!new)>(m: map<K, V>, p: V -> bool): nat {
    |Matching(m, p)|
  }
  function One(b: bool): nat { if b then 1 else 0 }

  lemma CardUpdate<K(!new)>(before: set<K>, after: set<K>, k: K)
    requires after - {k} == before - {k}
    ensures |after| == |before| - One(k in before) + One(k in after)
  {
    assert before == (before - {k}) + (if k in before then {k} else {});
    assert after == (before - {k}) + (if k in after then {k} else {});
  }

  /** Overwriting (or adding) one key moves the count by what that key held before
      and what it holds after. */
  lemma CountUpdate<K(!new), V(!new)>(m: map<K, V>, k: K, v: V, p: V -> bool)
    ensures Count(m[k := v], p) == Count(m, p) - One(k in m && p(m[k])) + One(p(v))
  {
    var m' := m[k := v];
    var before, after := Matching(m, p), Matching(m', p);
    forall x ensures x in after - {k} <==> x in before - {k} {
    }
    CardUpdate(before, after, k);
    assert k in after <==> p(m'[k]);
  }

  lemma CountZero<K(!new), V(!new)>(m: map<K, V>, p: V -> bool)
    ensures Count(m, p) == 0 <==> forall k | k in m :: !p(m[k])
  {
    assert forall k :: k in m && p(m[k]) ==> k in Matching(m, p);
    if Count(m, p) != 0 {
      var k :| k in Matching(m, p);
    }
  }

  lemma CardFourWay<K>(all: set<K>, a: set<K>, b: set<K>, c: set<K>, d: set<K>)
    requires all == a + b + c + d
    requires a !! b && (a + b) !! c && (a + b + c) !! d
    ensures |all| == |a| + |b| + |c| + |d|
  {
    assert |a + b| == |a| + |b|;
    assert |a + b + c| == |a + b| + |c|;
  }

  predicate ExactlyOne(a: bool, b: bool, c: bool, d: bool) {
    if a then !b && !c && !d else if b then !c && !d else if c then !d else d
  }

  /** Four predicates of which each entry satisfies exactly one split the map. */
  lemma CountFourWay<K(!new), V(!new)>(m: map<K, V>, p: V -> bool, q: V -> bool, r: V -> bool, s: V -> bool)
    requires forall k | k in m :: ExactlyOne(p(m[k]), q(m[k]), r(m[k]), s(m[k]))
    ensures |m| == Count(m, p) + Count(m, q) + Count(m, r) + Count(m, s)
  {
    CardFourWay(m.Keys, Matching(m, p), Matching(m, q), Matching(m, r), Matching(m, s));
    assert |m| == |m.Keys|;
  }
}
