/** The dedup handler's promises: holding derivations changes nothing, pinned
    attributes never lose, the fast path agrees with the slow one, and
    deduplicating twice is deduplicating once. */
module DedupMeaning {
  import opened Basics
  import opened Attrs
  import opened Dedup
  import opened DedupShape

  // ---- held derivations equal nesting ----

  /** Only scalars are pinned, at any depth. */
  ghost predicate PinsScalars(n: Node)
    decreases n
  {
    forall k | k in n.entries && n.entries[k].Sub? :: !n.entries[k].pinned && PinsScalars(n.entries[k].node)
  }

  lemma {:induction false} InsertPinsScalars(n: Node, a: Attr)
    requires PinsScalars(n)
    ensures PinsScalars(Insert(n, a, false))
    decreases a, 0
  {
    match a.value
    case Group(members) =>
      InsertAllPinsScalars(n, members);
      InsertAllPinsScalars(Child(n, a.key), members);
    case _ =>
  }

  lemma {:induction false} InsertAllPinsScalars(n: Node, attrs: seq<Attr>)
    requires PinsScalars(n)
    ensures PinsScalars(InsertAll(n, attrs, false))
    decreases attrs, 1
  {
    if attrs != [] {
      InsertPinsScalars(n, attrs[0]);
      InsertAllPinsScalars(Insert(n, attrs[0], false), attrs[1..]);
    }
  }

  lemma {:induction false} InsertAllConcat(n: Node, a: seq<Attr>, b: seq<Attr>, pinned: bool)
    ensures InsertAll(n, a + b, pinned) == InsertAll(InsertAll(n, a, pinned), b, pinned)
    decreases |a|
  {
    if a == [] {
      assert a + b == b;
    } else {
      assert (a + b)[0] == a[0] && (a + b)[1..] == a[1..] + b;
      InsertAllConcat(Insert(n, a[0], pinned), a[1..], b, pinned);
    }
  }

  /** With no pinned group and a record that is not empty, replaying the held ops
      through the moving node builds the very tree that nesting everything first
      and inserting the result would. */
  lemma {:induction false} HeldIsNested(n: Node, ops: seq<Op>, record: seq<Attr>)
    requires PinsScalars(n) && GroupsNamed(ops) && record != []
    ensures Nest(ops, record) != []
    ensures Replay(n, ops, record) == InsertAll(n, Nest(ops, record), false)
    decreases |ops|
  {
    if ops != [] {
      var rest := Nest(ops[1..], record);
      match ops[0]
      case Held(attrs) =>
        InsertAllPinsScalars(n, attrs);
        HeldIsNested(InsertAll(n, attrs, false), ops[1..], record);
        InsertAllConcat(n, attrs, rest, false);
      case Open(g) =>
        HeldIsNested(Child(n, g), ops[1..], record);
        assert [Attr(g, Group(rest))][1..] == [];
    }
  }

  // With an empty record the two can differ, in exactly one way: a WithGroup with
  // nothing after it lands on a scalar and erases it.

  /** Some held WithGroup with nothing left to nest under it opens over an unpinned
      scalar. */
  predicate Strands(n: Node, ops: seq<Op>, record: seq<Attr>)
    decreases |ops|
  {
    ops != [] &&
    match ops[0]
    case Held(attrs) => Strands(InsertAll(n, attrs, false), ops[1..], record)
    case Open(g) =>
      && !Detached(n, g)
      && ((Nest(ops[1..], record) == [] && g in n.entries && n.entries[g].Leaf?)
          || Strands(Child(n, g), ops[1..], record))
  }

  lemma SplitRender(n: Node, keys: seq<string>, reserved: set<string>)
    requires keys != []
    ensures Render(n, keys, reserved) == RenderOne(n, keys[0], reserved) + Render(n, keys[1..], reserved)
  {
  }

  /** Two nodes that differ at one key print the same line exactly when that key
      prints the same. */
  lemma {:induction false} RenderCompare(n: Node, m: Node, keys: seq<string>, k: string, reserved: set<string>)
    requires Distinct(keys)
    requires forall j | j in keys && j != k :: RenderOne(n, j, reserved) == RenderOne(m, j, reserved)
    ensures Render(n, keys, reserved) == Render(m, keys, reserved) <==>
              (k in keys ==> RenderOne(n, k, reserved) == RenderOne(m, k, reserved))
    decreases |keys|
  {
    if keys != [] {
      var tail := keys[1..];
      RenderCompare(n, m, tail, k, reserved);
      SplitRender(n, keys, reserved);
      SplitRender(m, keys, reserved);
      if keys[0] == k {
        assert k !in tail;
        CancelRight(RenderOne(n, k, reserved), RenderOne(m, k, reserved), Render(n, tail, reserved));
      } else {
        assert k in keys <==> k in tail;
        CancelLeft(RenderOne(n, keys[0], reserved), Render(n, tail, reserved), Render(m, tail, reserved));
      }
    }
  }

  lemma CancelRight<T>(a: seq<T>, b: seq<T>, c: seq<T>)
    ensures a + c == b + c <==> a == b
  {
    if a + c == b + c {
      assert |a| == |b|;
      assert (a + c)[..|a|] == a && (b + c)[..|b|] == b;
    }
  }

  lemma CancelLeft<T>(a: seq<T>, b: seq<T>, c: seq<T>)
    ensures a + b == a + c <==> b == c
  {
    if a + b == a + c {
      assert (a + b)[|a|..] == b && (a + c)[|a|..] == c;
    }
  }

  lemma {:induction false} RenderConcat(n: Node, a: seq<string>, b: seq<string>, reserved: set<string>)
    ensures Render(n, a + b, reserved) == Render(n, a, reserved) + Render(n, b, reserved)
    decreases |a|
  {
    if a == [] {
      assert a + b == b;
    } else {
      assert (a + b)[0] == a[0] && (a + b)[1..] == a[1..] + b;
      RenderConcat(n, a[1..], b, reserved);
    }
  }

  lemma PutNewGroup(n: Node, k: string, m: Node, reserved: set<string>)
    requires WF(n) && k !in n.entries
    ensures Materialize(Put(n, k, Sub(m, false)), reserved) == Materialize(n, reserved) <==> Materialize(m, {}) == []
  {
    var n' := Put(n, k, Sub(m, false));
    var was := Render(n, n.keys, reserved);
    RenderCompare(n', n, n.keys, k, reserved);
    RenderConcat(n', n.keys, [k], reserved);
    assert Render(n', [k], reserved) == RenderOne(n', k, reserved);
    CancelLeft(was, RenderOne(n', k, reserved), []);
    assert was + [] == was;
  }

  /** Replacing what the group k holds changes the line exactly when it changes what
      the group prints; a group that was not there counts as an empty one. */
  lemma PutGroupCompare(n: Node, k: string, m': Node, reserved: set<string>)
    requires WF(n) && k != "" && (k in n.entries ==> n.entries[k].Sub?)
    ensures Materialize(Put(n, k, Sub(m', PinnedAt(n, k))), reserved) == Materialize(n, reserved) <==>
              Materialize(m', {}) == Materialize(Child(n, k), {})
  {
    if k in n.entries {
      RenderCompare(Put(n, k, Sub(m', PinnedAt(n, k))), n, n.keys, k, reserved);
    } else {
      PutNewGroup(n, k, m', reserved);
    }
  }

  lemma PutTwoGroupsCompare(n: Node, k: string, m: Node, m': Node, pinned: bool, reserved: set<string>)
    requires WF(n) && k != ""
    ensures Materialize(Put(n, k, Sub(m, pinned)), reserved) == Materialize(Put(n, k, Sub(m', pinned)), reserved) <==>
              Materialize(m, {}) == Materialize(m', {})
  {
    var a, b := Put(n, k, Sub(m, pinned)), Put(n, k, Sub(m', pinned));
    assert Distinct(a.keys);
    RenderCompare(a, b, a.keys, k, reserved);
  }

  /** A scalar that became an empty group is gone from the line. */
  lemma ErasedScalarShows(n: Node, k: string, m: Node, reserved: set<string>)
    requires WF(n) && k in n.entries && n.entries[k].Leaf? && Materialize(m, {}) == []
    ensures Materialize(Put(n, k, Sub(m, false)), reserved) != Materialize(n, reserved)
  {
    RenderCompare(Put(n, k, Sub(m, false)), n, n.keys, k, reserved);
  }

  lemma {:induction false} TrailingGroups(n: Node, ops: seq<Op>)
    requires WF(n) && PinsScalars(n) && GroupsNamed(ops) && Nest(ops, []) == [] && n.keys == []
    ensures Materialize(Replay(n, ops, []), {}) == []
    ensures !Strands(n, ops, [])
    decreases |ops|
  {
    if ops != [] {
      match ops[0]
      case Held(attrs) =>
        assert attrs == [];
        TrailingGroups(n, ops[1..]);
      case Open(g) =>
        TrailingGroups(EMPTY, ops[1..]);
        var n' := Put(n, g, Sub(Replay(EMPTY, ops[1..], []), false));
        assert n'.keys == [g];
        assert Render(n', [g], {}) == RenderOne(n', g, {}) + Render(n', [], {});
    }
  }

  lemma EmptyNest(ops: seq<Op>, record: seq<Attr>)
    requires Nest(ops, record) == []
    ensures record == []
  {
    if ops != [] {
      EmptyNest(ops[1..], record);
    }
  }

  /** For every record: holding equals nesting, as printed, exactly when no held
      WithGroup with nothing under it opens over a scalar. */
  lemma {:induction false} HeldIsNestedIff(n: Node, ops: seq<Op>, record: seq<Attr>, reserved: set<string>)
    requires WF(n) && PinsScalars(n) && GroupsNamed(ops)
    ensures (Materialize(Replay(n, ops, record), reserved)
             == Materialize(InsertAll(n, Nest(ops, record), false), reserved))
              <==> !Strands(n, ops, record)
    decreases |ops|
  {
    if ops != [] {
      var rest := Nest(ops[1..], record);
      match ops[0]
      case Held(attrs) =>
        InsertAllPinsScalars(n, attrs);
        InsertAllKeepsWF(n, attrs, false);
        HeldIsNestedIff(InsertAll(n, attrs, false), ops[1..], record, reserved);
        InsertAllConcat(n, attrs, rest, false);
      case Open(g) =>
        HeldIsNestedIff(Child(n, g), ops[1..], record, {});
        assert [Attr(g, Group(rest))][1..] == [];
        var m := Replay(Child(n, g), ops[1..], record);
        if Detached(n, g) {
        } else if rest != [] {
          PutTwoGroupsCompare(n, g, m, InsertAll(Child(n, g), rest, false), false, reserved);
        } else if g in n.entries && n.entries[g].Leaf? {
          EmptyNest(ops[1..], record);
          TrailingGroups(EMPTY, ops[1..]);
          ErasedScalarShows(n, g, m, reserved);
        } else {
          PutGroupCompare(n, g, m, reserved);
        }
    }
  }

  /** The promise for the slow path of a handler whose pinned attributes are all
      scalars. */
  lemma HeldSlowPathNests(h: Handler, record: seq<Attr>)
    requires GroupsNamed(h.ops) && forall i | 0 <= i < |h.pinned| :: !h.pinned[i].value.Group?
    ensures (SlowPath(h, record) == SlowPath(h.(ops := []), Nest(h.ops, record)))
              <==> !Strands(PinnedTree(h), h.ops, record)
    ensures record != [] ==> SlowPath(h, record) == SlowPath(h.(ops := []), Nest(h.ops, record))
  {
    PinnedScalars(EMPTY, h.pinned);
    InsertAllKeepsWF(EMPTY, h.pinned, true);
    HeldIsNestedIff(PinnedTree(h), h.ops, record, h.reserved);
    if record != [] {
      HeldIsNested(PinnedTree(h), h.ops, record);
    }
  }

  lemma {:induction false} PinnedScalars(n: Node, attrs: seq<Attr>)
    requires PinsScalars(n) && forall i | 0 <= i < |attrs| :: !attrs[i].value.Group?
    ensures PinsScalars(InsertAll(n, attrs, true))
    decreases |attrs|
  {
    if attrs != [] {
      PinnedScalars(Insert(n, attrs[0], true), attrs[1..]);
    }
  }
}
