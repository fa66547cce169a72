/** What every tree the dedup handler builds looks like, and when the line it prints
    has unique keys. */
module DedupShape {
  import opened Basics
  import opened Attrs
  import opened Dedup

  ghost predicate WF(n: Node)
    decreases n, 1
  {
    && Distinct(n.keys)
    && (forall k :: k in n.keys <==> k in n.entries)
    && (forall k | k in n.entries :: EntryWF(n, k))
  }

  ghost predicate EntryWF(n: Node, k: string)
    requires k in n.entries
    decreases n, 0
  {
    match n.entries[k]
    case Leaf(v, _) => !v.Group? && Attr(k, v) != ZERO
    case Sub(m, _) => k != "" && WF(m)
  }

  lemma PutKeepsWF(n: Node, k: string, e: Entry)
    requires WF(n)
    requires e.Leaf? ==> !e.value.Group? && Attr(k, e.value) != ZERO
    requires e.Sub? ==> k != "" && WF(e.node)
    ensures WF(Put(n, k, e))
  {
  }

  lemma {:induction false} InsertKeepsWF(n: Node, a: Attr, pinned: bool)
    requires WF(n)
    ensures WF(Insert(n, a, pinned))
    decreases a, 0
  {
    match a.value
    case Group(members) =>
      if a.key == "" {
        InsertAllKeepsWF(n, members, pinned);
      } else {
        InsertAllKeepsWF(Child(n, a.key), members, pinned);
        PutKeepsWF(n, a.key, Sub(InsertAll(Child(n, a.key), members, pinned), PinnedAt(n, a.key) || pinned));
      }
    case _ =>
  }

  lemma {:induction false} InsertAllKeepsWF(n: Node, attrs: seq<Attr>, pinned: bool)
    requires WF(n)
    ensures WF(InsertAll(n, attrs, pinned))
    decreases attrs, 1
  {
    if attrs != [] {
      InsertKeepsWF(n, attrs[0], pinned);
      InsertAllKeepsWF(Insert(n, attrs[0], pinned), attrs[1..], pinned);
    }
  }

  lemma {:induction false} ReplayKeepsWF(n: Node, ops: seq<Op>, record: seq<Attr>)
    requires WF(n) && GroupsNamed(ops)
    ensures WF(Replay(n, ops, record))
    decreases |ops|
  {
    if ops == [] {
      InsertAllKeepsWF(n, record, false);
    } else {
      match ops[0]
      case Held(attrs) =>
        InsertAllKeepsWF(n, attrs, false);
        ReplayKeepsWF(InsertAll(n, attrs, false), ops[1..], record);
      case Open(g) =>
        if !Detached(n, g) {
          ReplayKeepsWF(Child(n, g), ops[1..], record);
          PutKeepsWF(n, g, Sub(Replay(Child(n, g), ops[1..], record), PinnedAt(n, g)));
        }
    }
  }

  lemma TreeWF(h: Handler, record: seq<Attr>)
    requires GroupsNamed(h.ops)
    ensures WF(Replay(PinnedTree(h), h.ops, record))
  {
    InsertAllKeepsWF(EMPTY, h.pinned, true);
    ReplayKeepsWF(PinnedTree(h), h.ops, record);
  }

  // ---- what is printed ----

  /** Whether the entry prints anything: a scalar does, a group when something in
      it does. */
  predicate Emitted(n: Node, k: string)
    decreases n
  {
    k in n.entries &&
    match n.entries[k]
    case Leaf(_, _) => true
    case Sub(m, _) => exists j | j in m.keys :: Emitted(m, j)
  }

  lemma {:induction false} EmittedPrints(n: Node, k: string, reserved: set<string>)
    ensures Emitted(n, k) <==> RenderOne(n, k, reserved) != []
    decreases n, 0
  {
    if k in n.entries && n.entries[k].Sub? {
      var m := n.entries[k].node;
      SomePrints(m, m.keys);
    }
  }

  lemma {:induction false} SomePrints(n: Node, keys: seq<string>)
    ensures (exists j | j in keys :: Emitted(n, j)) <==> Render(n, keys, {}) != []
    decreases n, |keys|
  {
    if keys != [] {
      EmittedPrints(n, keys[0], {});
      SomePrints(n, keys[1..]);
    }
  }

  /** The renaming of reserved keys never maps two printed entries to one key. */
  ghost predicate RenameInjective(n: Node, keys: seq<string>, reserved: set<string>) {
    forall a, b | a in keys && b in keys && a != b && Emitted(n, a) && Emitted(n, b) ::
      Rename(reserved, a) != Rename(reserved, b)
  }

  /** A printed key is the renaming of an emitted one. */
  lemma {:induction false} PrintedKeys(n: Node, keys: seq<string>, reserved: set<string>)
    ensures forall x :: x in Keys(Render(n, keys, reserved)) <==>
              exists k :: k in keys && Emitted(n, k) && x == Rename(reserved, k)
    decreases |keys|
  {
    if keys != [] {
      EmittedPrints(n, keys[0], reserved);
      PrintedKeys(n, keys[1..], reserved);
      var one, rest := RenderOne(n, keys[0], reserved), Render(n, keys[1..], reserved);
      assert Keys(one + rest) == Keys(one) + Keys(rest);
      assert keys == [keys[0]] + keys[1..];
      forall x ensures x in Keys(one) <==> Emitted(n, keys[0]) && x == Rename(reserved, keys[0]) {
        if one != [] {
          assert Keys(one) == [Rename(reserved, keys[0])];
        }
      }
      forall x ensures x in Keys(Render(n, keys, reserved)) <==>
              exists k :: k in keys && Emitted(n, k) && x == Rename(reserved, k)
      {
        assert x in Keys(one) + Keys(rest) <==> x in Keys(one) || x in Keys(rest);
      }
    }
  }

  /** Unique keys at one level, exactly when the renaming is injective there. */
  lemma {:induction false} LevelDistinct(n: Node, keys: seq<string>, reserved: set<string>)
    requires Distinct(keys)
    ensures Distinct(Keys(Render(n, keys, reserved))) <==> RenameInjective(n, keys, reserved)
    decreases |keys|
  {
    if keys != [] {
      var k, tail := keys[0], keys[1..];
      assert keys == [k] + tail && k !in tail;
      LevelDistinct(n, tail, reserved);
      PrintedKeys(n, tail, reserved);
      EmittedPrints(n, k, reserved);
      var one, rest := RenderOne(n, k, reserved), Render(n, tail, reserved);
      assert Keys(one + rest) == Keys(one) + Keys(rest);
      if one == [] {
        assert one + rest == rest;
      } else {
        assert Keys(one) == [Rename(reserved, k)];
        DistinctCons(Rename(reserved, k), Keys(rest));
      }
      InjectiveCons(n, k, tail, reserved);
    }
  }

  lemma DistinctCons(x: string, xs: seq<string>)
    ensures Distinct([x] + xs) <==> x !in xs && Distinct(xs)
  {
    var all := [x] + xs;
    assert all[1..] == xs;
    if Distinct(all) {
      forall i, j | 0 <= i < j < |xs| ensures xs[i] != xs[j] {
        assert xs[i] == all[i + 1] && xs[j] == all[j + 1];
      }
      forall i | 0 <= i < |xs| ensures xs[i] != x {
        assert xs[i] == all[i + 1] && x == all[0];
      }
    }
  }

  lemma InjectiveCons(n: Node, k: string, tail: seq<string>, reserved: set<string>)
    requires k !in tail
    ensures RenameInjective(n, [k] + tail, reserved) <==>
              && RenameInjective(n, tail, reserved)
              && (Emitted(n, k) ==> forall b | b in tail && Emitted(n, b) :: Rename(reserved, b) != Rename(reserved, k))
  {
    assert forall x :: x in [k] + tail <==> x == k || x in tail;
  }

  /** No key twice inside any group, at any depth. */
  ghost predicate NestedDistinct(attrs: seq<Attr>) {
    forall i | 0 <= i < |attrs| && attrs[i].value.Group? ::
      Distinct(Keys(attrs[i].value.members)) && NestedDistinct(attrs[i].value.members)
  }

  lemma {:induction false} BelowTopDistinct(n: Node, keys: seq<string>, reserved: set<string>)
    requires WF(n) && forall k | k in keys :: k in n.entries
    ensures NestedDistinct(Render(n, keys, reserved))
    decreases n, |keys|
  {
    if keys != [] {
      BelowTopDistinct(n, keys[1..], reserved);
      assert EntryWF(n, keys[0]);
      if n.entries[keys[0]].Sub? {
        var m := n.entries[keys[0]].node;
        assert WF(m);
        assert RenameInjective(m, m.keys, {});
        LevelDistinct(m, m.keys, {});
        BelowTopDistinct(m, m.keys, {});
      }
    }
  }

  /** Two printed entries share a key exactly when some reserved key k is printed
      next to an unreserved "attr.k". */
  ghost predicate Collides(n: Node, reserved: set<string>) {
    exists k :: k in reserved && "attr." + k !in reserved && Emitted(n, k) && Emitted(n, "attr." + k)
  }

  lemma PrefixInjective(p: string, a: string, b: string)
    ensures p + a == p + b ==> a == b
  {
    assert (p + a)[|p|..] == a && (p + b)[|p|..] == b;
  }

  lemma CollisionsOnly(n: Node, reserved: set<string>)
    requires WF(n)
    ensures RenameInjective(n, n.keys, reserved) <==> !Collides(n, reserved)
  {
    if !RenameInjective(n, n.keys, reserved) {
      var a, b :| a in n.keys && b in n.keys && a != b && Emitted(n, a) && Emitted(n, b) &&
                  Rename(reserved, a) == Rename(reserved, b);
      PrefixInjective("attr.", a, b);
      var k := if a in reserved then a else b;
      assert k in reserved && Emitted(n, k) && Emitted(n, "attr." + k);
    }
    if Collides(n, reserved) {
      var k :| k in reserved && "attr." + k !in reserved && Emitted(n, k) && Emitted(n, "attr." + k);
      assert Rename(reserved, k) == Rename(reserved, "attr." + k);
      assert |"attr." + k| != |k|;
    }
  }

  /** The line a record ends up as carries no key twice inside any group, and none
      twice at the top exactly when the handler forwarded the record untouched or
      no reserved key k was emitted beside an unreserved "attr.k". */
  lemma KeysUnique(h: Handler, record: seq<Attr>)
    requires GroupsNamed(h.ops)
    ensures NestedDistinct(Output(h, record))
    ensures Distinct(Keys(Output(h, record))) <==>
              || (h.ops == [] && h.pinned == [] && Clean(h.reserved, record))
              || !Collides(Replay(PinnedTree(h), h.ops, record), h.reserved)
  {
    var n := Replay(PinnedTree(h), h.ops, record);
    TreeWF(h, record);
    LevelDistinct(n, n.keys, h.reserved);
    BelowTopDistinct(n, n.keys, h.reserved);
    CollisionsOnly(n, h.reserved);
  }

  /** The rename does collide: a record with both level and attr.level. */
  lemma RenameCollision()
    ensures var h := NewHandler([], []);
            var record := [Attr("level", Scalar("a")), Attr("attr.level", Scalar("b"))];
            Output(h, record) == [Attr("attr.level", Scalar("a")), Attr("attr.level", Scalar("b"))]
  {
    var h := NewHandler([], []);
    var a, b := Attr("level", Scalar("a")), Attr("attr.level", Scalar("b"));
    assert |"attr.level"| == 10 && |"time"| == 4 && |"level"| == 5 && |"msg"| == 3;
    assert h.reserved == {"time", "level", "msg"};
    assert [a, b][0].key in h.reserved;
    var n1 := Node(["level"], map["level" := Leaf(Scalar("a"), false)]);
    var n2 := Node(["level", "attr.level"],
                   map["level" := Leaf(Scalar("a"), false), "attr.level" := Leaf(Scalar("b"), false)]);
    assert Insert(EMPTY, a, false) == n1 && Insert(n1, b, false) == n2;
    assert [a, b][1..] == [b] && [b][1..] == [];
    assert InsertAll(n2, [], false) == n2 && InsertAll(n1, [b], false) == n2 && InsertAll(EMPTY, [a, b], false) == n2;
    assert PinnedTree(h) == EMPTY && Replay(EMPTY, [], [a, b]) == n2;
    assert n2.keys[1..] == ["attr.level"] && ["attr.level"][1..] == [];
    assert Render(n2, [], h.reserved) == [];
    assert Render(n2, ["attr.level"], h.reserved) == [b];
    assert Rename(h.reserved, "level") == "attr.level";
  }
}
