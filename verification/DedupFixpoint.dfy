/** The dedup handler's fast path against its slow one, and deduplicating an output
    again. */
module DedupFixpoint {
  import opened Basics
  import opened Attrs
  import opened Dedup
  import opened DedupShape
  import opened DedupMeaning
  import opened DedupPins

  function RenameAll(attrs: seq<Attr>, reserved: set<string>): seq<Attr> {
    seq(|attrs|, i requires 0 <= i < |attrs| => Attr(Rename(reserved, attrs[i].key), attrs[i].value))
  }

  /** Already in the form the handler prints below the top: nothing to inline or drop and
      no key twice, inside any group. */
  ghost predicate CanonicalBelow(attrs: seq<Attr>)
    decreases attrs
  {
    forall i | 0 <= i < |attrs| && attrs[i].value.Group? ::
      var ms := attrs[i].value.members;
      Plain(ms) && Distinct(Keys(ms)) && CanonicalBelow(ms)
  }

  lemma SplitLast(attrs: seq<Attr>, init: seq<Attr>, a: Attr)
    requires attrs == init + [a]
    ensures Keys(attrs) == Keys(init) + [a.key]
    ensures forall i | 0 <= i < |init| :: init[i] == attrs[i] && Keys(init)[i] == Keys(attrs)[i]
    ensures forall reserved ::
              RenameAll(attrs, reserved) == RenameAll(init, reserved) + [Attr(Rename(reserved, a.key), a.value)]
  {
  }

  /** Fresh canonical attributes are printed as they are, after what was there. */
  lemma {:induction false} CanonicalPrints(n: Node, attrs: seq<Attr>, pinned: bool, reserved: set<string>)
    requires WF(n) && Fresh(n, attrs) && CanonicalBelow(attrs)
    ensures Materialize(InsertAll(n, attrs, pinned), reserved) == Materialize(n, reserved) + RenameAll(attrs, reserved)
    decreases attrs, 0
  {
    if attrs == [] {
      assert Materialize(n, reserved) + [] == Materialize(n, reserved);
    } else {
      var init, a := attrs[..|attrs| - 1], attrs[|attrs| - 1];
      SplitLast(attrs, init, a);
      CanonicalPrints(n, init, pinned, reserved);
      if a.value.Group? {
        GroupPrints(a.value.members, pinned);
      }
      LastPrints(n, init, a, pinned, reserved);
    }
  }

  lemma LastPrints(n: Node, init: seq<Attr>, a: Attr, pinned: bool, reserved: set<string>)
    requires WF(n) && Fresh(n, init + [a])
    requires a.value.Group? ==>
               && a.value.members != []
               && Materialize(InsertAll(EMPTY, a.value.members, pinned), {}) == a.value.members
    ensures Materialize(InsertAll(n, init + [a], pinned), reserved)
         == Materialize(InsertAll(n, init, pinned), reserved) + [Attr(Rename(reserved, a.key), a.value)]
  {
    var m := InsertAll(n, init, pinned);
    SplitLast(init + [a], init, a);
    InsertAllKeepsWF(n, init, pinned);
    FreshInserts(n, init, pinned);
    AppendOne(n, init, a, pinned, m);
    InsertAllConcat(n, init, [a], pinned);
    assert (init + [a])[|init|] == a;
    InsertFresh(m, a, pinned);
    assert [a][1..] == [];
    PutPrints(m, a, pinned, reserved);
  }

  lemma GroupPrints(members: seq<Attr>, pinned: bool)
    requires Plain(members) && Distinct(Keys(members)) && CanonicalBelow(members)
    ensures Materialize(InsertAll(EMPTY, members, pinned), {}) == members
    decreases members, 1
  {
    CanonicalPrints(EMPTY, members, pinned, {});
    assert Materialize(EMPTY, {}) + RenameAll(members, {}) == members;
  }

  lemma PutPrints(m: Node, a: Attr, pinned: bool, reserved: set<string>)
    requires WF(m) && a.key !in m.entries
    requires a.value.Group? ==>
               && a.value.members != []
               && Materialize(InsertAll(EMPTY, a.value.members, pinned), {}) == a.value.members
    ensures Materialize(Put(m, a.key, EntryOf(a, pinned)), reserved)
         == Materialize(m, reserved) + [Attr(Rename(reserved, a.key), a.value)]
  {
    var m' := Put(m, a.key, EntryOf(a, pinned));
    RenderCompare(m', m, m.keys, a.key, reserved);
    RenderConcat(m', m.keys, [a.key], reserved);
    assert Render(m', [a.key], reserved) == RenderOne(m', a.key, reserved);
  }

  // ---- the fast path ----

  function WithoutZeros(attrs: seq<Attr>): seq<Attr> {
    if attrs == [] then [] else (if attrs[0] == ZERO then [] else [attrs[0]]) + WithoutZeros(attrs[1..])
  }

  lemma {:induction false} InlineScalars(attrs: seq<Attr>)
    requires forall i | 0 <= i < |attrs| :: !attrs[i].value.Group?
    ensures Inline(attrs) == WithoutZeros(attrs)
    ensures forall a | a in WithoutZeros(attrs) :: a in attrs && a != ZERO
  {
    if attrs != [] {
      InlineScalars(attrs[1..]);
    }
  }

  lemma {:induction false} WithoutZerosDistinct(attrs: seq<Attr>)
    requires Distinct(Keys(attrs))
    ensures Distinct(Keys(WithoutZeros(attrs)))
    ensures forall k | k in Keys(WithoutZeros(attrs)) :: k in Keys(attrs)
  {
    if attrs != [] {
      var a, rest := attrs[0], attrs[1..];
      assert Keys(attrs) == [a.key] + Keys(rest);
      DistinctCons(a.key, Keys(rest));
      WithoutZerosDistinct(rest);
      if a != ZERO {
        DistinctCons(a.key, Keys(WithoutZeros(rest)));
        assert WithoutZeros(attrs) == [a] + WithoutZeros(rest);
        KeysConcat([a], WithoutZeros(rest));
        assert Keys([a]) == [a.key];
      } else {
        assert WithoutZeros(attrs) == [] + WithoutZeros(rest) == WithoutZeros(rest);
      }
    }
  }

  lemma RenameNothing(attrs: seq<Attr>, reserved: set<string>)
    requires forall i | 0 <= i < |attrs| :: attrs[i].key !in reserved
    ensures RenameAll(attrs, reserved) == attrs
  {
  }

  /** For every record isClean accepts the slow path would forward the same
      attributes in the same order, less the zero ones: the two paths agree exactly
      when the record has no zero attribute. */
  lemma FastPathAgrees(h: Handler, record: seq<Attr>)
    requires h.ops == [] && h.pinned == [] && Clean(h.reserved, record)
    ensures Output(h, record) == record
    ensures SlowPath(h, record) == WithoutZeros(record)
    ensures SlowPath(h, record) == Output(h, record) <==> ZERO !in record
  {
    var list := WithoutZeros(record);
    assert Distinct(Keys(record));
    InlineScalars(record);
    WithoutZerosDistinct(record);
    InlineInserts(EMPTY, record, false);
    forall i | 0 <= i < |list| ensures !list[i].value.Group? && list[i] != ZERO && list[i].key !in h.reserved {
      assert list[i] in record;
    }
    CanonicalPrints(EMPTY, list, false, h.reserved);
    RenameNothing(list, h.reserved);
    assert Materialize(EMPTY, h.reserved) + list == list;
    ZerosOnly(record);
  }

  lemma {:induction false} ZerosOnly(attrs: seq<Attr>)
    ensures |WithoutZeros(attrs)| <= |attrs|
    ensures WithoutZeros(attrs) == attrs <==> ZERO !in attrs
  {
    if attrs != [] {
      ZerosOnly(attrs[1..]);
      assert attrs == [attrs[0]] + attrs[1..];
    }
  }

  // ---- idempotence ----

  lemma {:induction false} PrintsCanonical(n: Node, keys: seq<string>, reserved: set<string>)
    requires WF(n) && forall k | k in keys :: k in n.entries
    ensures Plain(Render(n, keys, reserved)) && CanonicalBelow(Render(n, keys, reserved))
    decreases n, |keys|
  {
    if keys != [] {
      var k, tail := keys[0], keys[1..];
      PrintsCanonical(n, tail, reserved);
      assert EntryWF(n, k);
      if n.entries[k].Sub? {
        var m := n.entries[k].node;
        assert WF(m) && RenameInjective(m, m.keys, {});
        LevelDistinct(m, m.keys, {});
        PrintsCanonical(m, m.keys, {});
      }
      CanonicalCons(RenderOne(n, k, reserved), Render(n, tail, reserved));
    }
  }

  lemma CanonicalCons(one: seq<Attr>, rest: seq<Attr>)
    requires Plain(one) && CanonicalBelow(one) && Plain(rest) && CanonicalBelow(rest)
    ensures Plain(one + rest) && CanonicalBelow(one + rest)
  {
    var all := one + rest;
    forall i | 0 <= i < |all| ensures all[i] == if i < |one| then one[i] else rest[i - |one|] {
    }
  }

  /** Renaming a reserved key gives one that is not reserved. */
  ghost predicate RenameSettles(reserved: set<string>) {
    forall k | k in reserved :: "attr." + k !in reserved
  }

  lemma DefaultSettles()
    ensures DEFAULT_RESERVED == {"time", "level", "msg"} && RenameSettles(DEFAULT_RESERVED)
  {
    forall k | k in DEFAULT_RESERVED ensures "attr." + k !in DEFAULT_RESERVED {
      assert |"attr." + k| == 5 + |k| && |"time"| == 4 && |"level"| == 5 && |"msg"| == 3;
    }
  }

  lemma NothingReserved(n: Node, keys: seq<string>, reserved: set<string>)
    requires RenameSettles(reserved)
    ensures forall i | 0 <= i < |Render(n, keys, reserved)| :: Render(n, keys, reserved)[i].key !in reserved
  {
    var out := Render(n, keys, reserved);
    PrintedKeys(n, keys, reserved);
    forall i | 0 <= i < |out| ensures out[i].key !in reserved {
      assert Keys(out)[i] in Keys(out);
    }
  }

  ghost predicate PlainPins(attrs: seq<Attr>, reserved: set<string>) {
    forall i | 0 <= i < |attrs| :: !attrs[i].value.Group? && attrs[i].key !in reserved
  }

  /** Every entry is a pinned scalar under a key that is not reserved. */
  ghost predicate ScalarPins(p: Node, reserved: set<string>) {
    forall k | k in p.entries :: p.entries[k].Leaf? && p.entries[k].pinned && k !in reserved
  }

  lemma {:induction false} PlainPinsTree(n: Node, attrs: seq<Attr>, reserved: set<string>)
    requires ScalarPins(n, reserved) && PlainPins(attrs, reserved)
    ensures ScalarPins(InsertAll(n, attrs, true), reserved)
    decreases |attrs|
  {
    if attrs != [] {
      PlainPinsTree(Insert(n, attrs[0], true), attrs[1..], reserved);
    }
  }

  /** Printing the pinned scalars and inserting them again changes nothing. */
  lemma {:induction false} PinsAbsorb(p: Node, keys: seq<string>, reserved: set<string>)
    requires WF(p) && ScalarPins(p, reserved) && forall k | k in keys :: k in p.entries
    ensures InsertAll(p, Render(p, keys, reserved), false) == p
    ensures Keys(Render(p, keys, reserved)) == keys
    decreases |keys|
  {
    if keys != [] {
      var one, rest := RenderOne(p, keys[0], reserved), Render(p, keys[1..], reserved);
      assert one == [Attr(keys[0], p.entries[keys[0]].value)];
      PinsAbsorb(p, keys[1..], reserved);
      assert one + rest == [one[0]] + rest && (one + rest)[1..] == rest;
      assert Keys(one + rest) == [keys[0]] + Keys(rest);
      assert EntryWF(p, keys[0]) && PinnedAt(p, keys[0]);
    }
  }

  lemma DistinctSplit(a: seq<string>, b: seq<string>)
    requires Distinct(a + b)
    ensures Distinct(b) && forall x | x in b :: x !in a
  {
    forall i, j | 0 <= i < j < |b| ensures b[i] != b[j] {
      assert (a + b)[|a| + i] == b[i] && (a + b)[|a| + j] == b[j];
    }
    forall i, j | 0 <= i < |a| && 0 <= j < |b| ensures a[i] != b[j] {
      assert (a + b)[i] == a[i] && (a + b)[|a| + j] == b[j];
    }
  }

  /** The printed line is the pinned scalars followed by attributes fresh to them. */
  lemma PinsThenRest(p: Node, n: Node, reserved: set<string>) returns (rest: seq<Attr>)
    requires WF(p) && WF(n) && KeepsPins(p, n) && ScalarPins(p, reserved)
    requires Distinct(Keys(Materialize(n, reserved)))
    ensures Materialize(n, reserved) == Materialize(p, reserved) + rest
    ensures Fresh(p, rest) && CanonicalBelow(rest)
  {
    var tail := n.keys[|p.keys|..];
    assert n.keys == p.keys + tail;
    rest := Render(n, tail, reserved);
    RenderConcat(n, p.keys, tail, reserved);
    SameEntriesPrint(p, n, p.keys, reserved);
    PrintsCanonical(n, tail, reserved);
    PinsAbsorb(p, p.keys, reserved);
    KeysConcat(Materialize(p, reserved), rest);
    DistinctSplit(p.keys, Keys(rest));
    KeysApart(p, rest);
  }

  lemma KeysConcat(a: seq<Attr>, b: seq<Attr>)
    ensures Keys(a + b) == Keys(a) + Keys(b)
  {
  }

  lemma KeysApart(p: Node, rest: seq<Attr>)
    requires WF(p) && forall x | x in Keys(rest) :: x !in p.keys
    ensures forall i | 0 <= i < |rest| :: rest[i].key !in p.entries
  {
    forall i | 0 <= i < |rest| ensures rest[i].key !in p.entries {
      assert rest[i].key == Keys(rest)[i];
    }
  }

  ghost predicate KeepsPins(p: Node, n: Node) {
    p.keys <= n.keys && forall k | k in p.entries :: k in n.entries && n.entries[k] == p.entries[k]
  }

  lemma {:induction false} SameEntriesPrint(p: Node, n: Node, keys: seq<string>, reserved: set<string>)
    requires KeepsPins(p, n) && forall k | k in keys :: k in p.entries
    ensures Render(n, keys, reserved) == Render(p, keys, reserved)
    decreases |keys|
  {
    if keys != [] {
      SameEntriesPrint(p, n, keys[1..], reserved);
    }
  }

  lemma {:induction false} KeysFrom(n: Node, attrs: seq<Attr>)
    requires Plain(attrs)
    ensures forall k | k in InsertAll(n, attrs, false).entries :: k in n.entries || k in Keys(attrs)
    decreases |attrs|
  {
    if attrs != [] {
      KeysFrom(Insert(n, attrs[0], false), attrs[1..]);
      assert Keys(attrs) == [attrs[0].key] + Keys(attrs[1..]);
    }
  }

  /** Deduplicating an output again changes nothing exactly when the rename did not
      collide, given scalar pinned attributes under unreserved keys and a reserved
      set whose renamings are not themselves reserved (the default one is such). */
  lemma Idempotent(h: Handler, record: seq<Attr>)
    requires GroupsNamed(h.ops) && RenameSettles(h.reserved) && PlainPins(h.pinned, h.reserved)
    ensures Output(h.(ops := []), Output(h, record)) == Output(h, record) <==>
              || (h.ops == [] && h.pinned == [] && Clean(h.reserved, record))
              || !Collides(Replay(PinnedTree(h), h.ops, record), h.reserved)
  {
    if !(h.ops == [] && h.pinned == [] && Clean(h.reserved, record)) {
      var p, n := PinnedTree(h), Replay(PinnedTree(h), h.ops, record);
      InsertAllKeepsWF(EMPTY, h.pinned, true);
      TreeWF(h, record);
      CollisionsOnly(n, h.reserved);
      LevelDistinct(n, n.keys, h.reserved);
      PlainPinsTree(EMPTY, h.pinned, h.reserved);
      ReplayKeepsPins(p, h.ops, record);
      assert forall k | k in p.entries :: n.entries[k] == p.entries[k];
      NothingReserved(n, n.keys, h.reserved);
      if Collides(n, h.reserved) {
        SecondTimeDistinct(h, p, n);
      } else {
        OutputAgain(p, n, h.reserved);
      }
    }
  }

  lemma SecondTimeDistinct(h: Handler, p: Node, n: Node)
    requires p == PinnedTree(h) && WF(p) && WF(n) && ScalarPins(p, h.reserved)
    requires forall i | 0 <= i < |Materialize(n, h.reserved)| :: Materialize(n, h.reserved)[i].key !in h.reserved
    ensures Distinct(Keys(Output(h.(ops := []), Materialize(n, h.reserved))))
  {
    var out := Materialize(n, h.reserved);
    PrintsCanonical(n, n.keys, h.reserved);
    KeysFrom(p, out);
    assert !Collides(InsertAll(p, out, false), h.reserved);
    KeysUnique(h.(ops := []), out);
  }

  lemma OutputAgain(p: Node, n: Node, reserved: set<string>)
    requires WF(p) && WF(n) && KeepsPins(p, n) && ScalarPins(p, reserved)
    requires Distinct(Keys(Materialize(n, reserved)))
    requires forall i | 0 <= i < |Materialize(n, reserved)| :: Materialize(n, reserved)[i].key !in reserved
    ensures Materialize(InsertAll(p, Materialize(n, reserved), false), reserved) == Materialize(n, reserved)
  {
    var out, first := Materialize(n, reserved), Materialize(p, reserved);
    var rest := PinsThenRest(p, n, reserved);
    InsertAllConcat(p, first, rest, false);
    PinsAbsorb(p, p.keys, reserved);
    CanonicalPrints(p, rest, false, reserved);
    forall i | 0 <= i < |rest| ensures rest[i].key !in reserved {
      assert out[|first| + i] == rest[i];
    }
    RenameNothing(rest, reserved);
  }
}
