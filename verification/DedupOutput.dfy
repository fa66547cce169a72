/** What the dedup handler forwards, attribute by attribute: the printed line against
    the tree it was printed from, and the handler's promises carried over to it. */
module DedupOutput {
  import opened Basics
  import opened Attrs
  import opened Dedup
  import opened DedupShape
  import opened DedupMeaning
  import opened DedupPins
  import opened DedupFixpoint
  import T = AttrTrees

  // ---- derived handlers ----

  /** WithAttrs or WithGroup. */
  function Derive(h: Handler, call: Op): Handler {
    match call
    case Held(attrs) => WithAttrs(h, attrs)
    case Open(g) => WithGroup(h, g)
  }

  function DeriveAll(h: Handler, calls: seq<Op>): Handler
    decreases |calls|
  {
    if calls == [] then h else DeriveAll(Derive(h, calls[0]), calls[1..])
  }

  lemma DeriveOne(h: Handler, call: Op)
    ensures Derive(h, call) == h.(ops := h.ops + Kept(call))
  {
    assert h.ops + [] == h.ops;
  }

  /** A derived handler holds the calls that are not ignored ... */
  lemma {:induction false} DerivedHolds(h: Handler, calls: seq<Op>)
    ensures DeriveAll(h, calls) == h.(ops := h.ops + Effective(calls))
    decreases |calls|
  {
    if calls == [] {
      assert h.ops + [] == h.ops;
    } else {
      var kept, later := Kept(calls[0]), Effective(calls[1..]);
      DeriveOne(h, calls[0]);
      DerivedHolds(h.(ops := h.ops + kept), calls[1..]);
      assert (h.ops + kept) + later == h.ops + (kept + later);
    }
  }

  /** ... and no group without a name. */
  lemma {:induction false} HeldAreNamed(calls: seq<Op>)
    ensures GroupsNamed(Effective(calls))
    decreases |calls|
  {
    if calls != [] {
      HeldAreNamed(calls[1..]);
    }
  }

  // ---- holding calls against nesting, as forwarded ----

  /** Handle takes its fast path. */
  predicate Fast(h: Handler, record: seq<Attr>) {
    h.ops == [] && h.pinned == [] && Clean(h.reserved, record)
  }

  lemma NoZeroPrinted(n: Node, keys: seq<string>, reserved: set<string>)
    requires WF(n) && forall k | k in keys :: k in n.entries
    ensures ZERO !in Render(n, keys, reserved)
  {
    PrintsCanonical(n, keys, reserved);
  }

  /** What Handle forwards for a handler with held calls is what the underived handler
      forwards for the nested tree, exactly when no WithGroup with nothing under it
      opens over a scalar and the nested tree is not a clean one with a zero attribute:
      that one the underived handler forwards untouched. */
  lemma HeldOutputNests(h: Handler, record: seq<Attr>)
    requires GroupsNamed(h.ops) && forall i | 0 <= i < |h.pinned| :: !h.pinned[i].value.Group?
    ensures var plain, nested := h.(ops := []), Nest(h.ops, record);
            Output(h, record) == Output(plain, nested) <==>
              h.ops == [] || (!Strands(PinnedTree(h), h.ops, record) && !(Fast(plain, nested) && ZERO in nested))
  {
    if h.ops != [] {
      var plain, nested := h.(ops := []), Nest(h.ops, record);
      HeldSlowPathNests(h, record);
      if Fast(plain, nested) {
        FastPathAgrees(plain, nested);
        TreeWF(h, record);
        var n := Replay(PinnedTree(h), h.ops, record);
        NoZeroPrinted(n, n.keys, h.reserved);
      }
    }
  }

  /** The promise for handlers as callers derive them, scalars pinned. */
  lemma HeldDerivationsNest(pinned: seq<Attr>, reserved: seq<string>, calls: seq<Op>, record: seq<Attr>)
    requires forall i | 0 <= i < |pinned| :: !pinned[i].value.Group?
    ensures var plain, held := NewHandler(pinned, reserved), Effective(calls);
            var nested := Nest(held, record);
            Output(DeriveAll(plain, calls), record) == Output(plain, nested) <==>
              held == [] || (!Strands(PinnedTree(plain), held, record) && !(Fast(plain, nested) && ZERO in nested))
    ensures record != [] ==> !Strands(PinnedTree(NewHandler(pinned, reserved)), Effective(calls), record)
  {
    var plain := NewHandler(pinned, reserved);
    ValidScalars(pinned);
    DerivedHolds(plain, calls);
    HeldAreNamed(calls);
    assert [] + Effective(calls) == Effective(calls);
    var h := DeriveAll(plain, calls);
    assert h.(ops := []) == plain;
    HeldOutputNests(h, record);
    HeldSlowPathNests(h, record);
  }

  lemma {:induction false} ValidScalars(attrs: seq<Attr>)
    requires forall i | 0 <= i < |attrs| :: !attrs[i].value.Group?
    ensures forall i | 0 <= i < |Valid(attrs)| :: !Valid(attrs)[i].value.Group?
    decreases |attrs|
  {
    if attrs != [] {
      ValidScalars(attrs[1..]);
    }
  }

  /** The zero attribute does break it: held x=1 and a record with only a zero attribute
      forward x=1, the nested tree is forwarded with the zero attribute in it. */
  lemma ZeroBreaksNesting()
    ensures var plain, x, record := NewHandler([], []), Attr("x", Scalar("1")), [ZERO];
            && Output(DeriveAll(plain, [Held([x])]), record) == [x]
            && Output(plain, Nest([Held([x])], record)) == [x, ZERO]
  {
    var plain, x := NewHandler([], []), Attr("x", Scalar("1"));
    var calls, nested := [Held([x])], [x, ZERO];
    assert |"x"| == 1;
    assert [x][1..] == [] && calls[1..] == [] && [x] + [ZERO] == nested;
    assert Valid([x]) == [x] + Valid([]) == [x];
    assert Kept(calls[0]) == calls && Effective(calls) == calls + Effective([]) == calls;
    assert Nest(calls, [ZERO]) == [x] + Nest([], [ZERO]) == nested;
    DerivedHolds(plain, calls);
    assert [] + calls == calls;
    HeldAreNamed(calls);
    PlainKeeps(plain, x);
    HeldSlowPathNests(plain.(ops := calls), [ZERO]);
    assert plain.(ops := calls).(ops := []) == plain;
  }

  lemma PlainKeeps(plain: Handler, x: Attr)
    requires plain == NewHandler([], []) && x == Attr("x", Scalar("1"))
    ensures Output(plain, [x, ZERO]) == [x, ZERO] && SlowPath(plain, [x, ZERO]) == [x]
  {
    assert |"time"| == 4 && |"level"| == 5 && |"msg"| == 3 && |"x"| == 1 && |""| == 0;
    assert plain.reserved == {"time", "level", "msg"};
    assert Clean(plain.reserved, [x, ZERO]);
    FastPathAgrees(plain, [x, ZERO]);
    OnlyZeroGoes(x);
  }

  lemma OnlyZeroGoes(a: Attr)
    requires a != ZERO
    ensures WithoutZeros([a, ZERO]) == [a]
  {
    assert [a, ZERO][1..] == [ZERO] && [ZERO][1..] == [];
    assert WithoutZeros([ZERO]) == [] + WithoutZeros([]);
    assert WithoutZeros([a, ZERO]) == [a] + WithoutZeros([ZERO]);
  }

  // ---- the values printed at a path ----

  predicate IsAt(l: T.Leaf, path: seq<string>) {
    l.path + [l.key] == path
  }

  /** The values of the leaves at a path, in order. */
  function ValuesAt(leaves: seq<T.Leaf>, path: seq<string>): seq<Value> {
    if leaves == [] then [] else (if IsAt(leaves[0], path) then [leaves[0].value] else []) + ValuesAt(leaves[1..], path)
  }

  lemma {:induction false} ValuesConcat(a: seq<T.Leaf>, b: seq<T.Leaf>, path: seq<string>)
    ensures ValuesAt(a + b, path) == ValuesAt(a, path) + ValuesAt(b, path)
    decreases |a|
  {
    if a == [] {
      assert a + b == b;
    } else {
      ValuesConcat(a[1..], b, path);
      assert (a + b)[1..] == a[1..] + b;
    }
  }

  lemma {:induction false} ValuesIn(leaves: seq<T.Leaf>, path: seq<string>, v: Value)
    ensures v in ValuesAt(leaves, path) <==> exists l :: l in leaves && IsAt(l, path) && l.value == v
    decreases |leaves|
  {
    if leaves != [] {
      ValuesIn(leaves[1..], path, v);
      assert leaves == [leaves[0]] + leaves[1..];
    }
  }

  lemma {:induction false} NoneElsewhere(leaves: seq<T.Leaf>, path: seq<string>)
    requires forall l | l in leaves :: !IsAt(l, path)
    ensures ValuesAt(leaves, path) == []
    decreases |leaves|
  {
    if leaves != [] {
      NoneElsewhere(leaves[1..], path);
    }
  }

  /** Leaves under a prefix have paths that begin with it. */
  lemma {:induction false} LeavesUnder(q: seq<string>, attrs: seq<Attr>)
    ensures forall l | l in T.Leaves(q, attrs) :: q <= l.path
    decreases attrs
  {
    if attrs != [] {
      LeavesUnder(q, attrs[1..]);
      if attrs[0].value.Group? {
        LeavesUnder(q + [attrs[0].key], attrs[0].value.members);
      }
    }
  }

  lemma ApartBelow(q: seq<string>, x: string, members: seq<Attr>, path: seq<string>)
    requires path != [] && (path[0] != x || |path| == 1)
    ensures ValuesAt(T.Leaves(q + [x], members), q + path) == []
  {
    var leaves := T.Leaves(q + [x], members);
    LeavesUnder(q + [x], members);
    forall l | l in leaves ensures !IsAt(l, q + path) {
      var full := l.path + [l.key];
      assert full[|q|] == l.path[|q|] == (q + [x])[|q|] == x;
      assert |full| > |q| + 1;
      assert (q + path)[|q|] == path[0];
    }
    NoneElsewhere(leaves, q + path);
  }

  function Look(n: Node, path: seq<string>): seq<Value> {
    match Lookup(n, path)
    case None => []
    case Some(v) => [v]
  }

  /** The values at a printed path, key by key: each key whose printed form begins the
      path adds what the tree holds there. */
  function Gather(n: Node, keys: seq<string>, reserved: set<string>, path: seq<string>): seq<Value>
    requires path != []
  {
    if keys == [] then [] else
    (if Rename(reserved, keys[0]) == path[0] then Look(n, [keys[0]] + path[1..]) else [])
    + Gather(n, keys[1..], reserved, path)
  }

  lemma {:induction false} GatherNone(n: Node, keys: seq<string>, path: seq<string>)
    requires path != [] && path[0] !in keys
    ensures Gather(n, keys, {}, path) == []
    decreases |keys|
  {
    if keys != [] {
      GatherNone(n, keys[1..], path);
    }
  }

  lemma {:induction false} GatherOne(n: Node, keys: seq<string>, path: seq<string>)
    requires path != [] && Distinct(keys) && path[0] in keys
    ensures Gather(n, keys, {}, path) == Look(n, path)
    decreases |keys|
  {
    assert [path[0]] + path[1..] == path;
    assert keys == [keys[0]] + keys[1..];
    if keys[0] == path[0] {
      DistinctCons(keys[0], keys[1..]);
      GatherNone(n, keys[1..], path);
    } else {
      DistinctCons(keys[0], keys[1..]);
      GatherOne(n, keys[1..], path);
    }
  }

  lemma GatherPlain(n: Node, path: seq<string>)
    requires WF(n) && path != []
    ensures Gather(n, n.keys, {}, path) == Look(n, path)
  {
    if path[0] in n.keys {
      GatherOne(n, n.keys, path);
    } else {
      GatherNone(n, n.keys, path);
    }
  }

  lemma ScalarAt(q: seq<string>, a: Attr, path: seq<string>)
    requires !a.value.Group? && path != []
    ensures ValuesAt(T.Leaves(q, [a]), q + path) == if path == [a.key] then [a.value] else []
  {
    var l := T.Leaf(q, a.key, a.value);
    T.LeavesSingle(q, a);
    assert T.LeavesOf(q, a) == [l] && [l][1..] == [];
    assert IsAt(l, q + path) <==> path == [a.key] by {
      assert (q + path)[|q|..] == path && (q + [a.key])[|q|..] == [a.key];
    }
  }

  /** A printed group at a path: what its members hold at the rest of the path. */
  lemma GroupAt(q: seq<string>, x: string, members: seq<Attr>, path: seq<string>)
    requires path != []
    ensures (ValuesAt(T.Leaves(q, if members == [] then [] else [Attr(x, Group(members))]), q + path)
             == if x == path[0] && |path| > 1 then ValuesAt(T.Leaves(q + [x], members), q + [x] + path[1..]) else [])
  {
    if members != [] {
      T.LeavesSingle(q, Attr(x, Group(members)));
    }
    if x == path[0] && |path| > 1 {
      assert q + [x] + path[1..] == q + path;
    } else {
      ApartBelow(q, x, members, path);
    }
  }

  lemma LookScalar(n: Node, k: string, rest: seq<string>)
    requires k in n.entries && n.entries[k].Leaf?
    ensures Look(n, [k] + rest) == if rest == [] then [n.entries[k].value] else []
  {
  }

  lemma LookBelow(n: Node, k: string, rest: seq<string>)
    requires k in n.entries && n.entries[k].Sub?
    ensures Look(n, [k] + rest) == Look(n.entries[k].node, rest)
  {
    assert ([k] + rest)[1..] == rest;
  }

  /** One printed attribute at a path. */
  lemma {:induction false} ValuesOne(n: Node, k: string, reserved: set<string>, q: seq<string>, path: seq<string>)
    requires WF(n) && k in n.entries && path != []
    ensures (ValuesAt(T.Leaves(q, RenderOne(n, k, reserved)), q + path)
             == if Rename(reserved, k) == path[0] then Look(n, [k] + path[1..]) else [])
    decreases n, 0
  {
    var x := Rename(reserved, k);
    assert EntryWF(n, k);
    match n.entries[k]
    case Leaf(v, _) =>
      ScalarAt(q, Attr(x, v), path);
      LookScalar(n, k, path[1..]);
      assert path == [x] <==> path[0] == x && path[1..] == [];
    case Sub(m, _) =>
      GroupAt(q, x, Materialize(m, {}), path);
      LookBelow(n, k, path[1..]);
      if |path| > 1 {
        ValuesRendered(m, m.keys, {}, q + [x], path[1..]);
        GatherPlain(m, path[1..]);
      }
  }

  lemma {:induction false} ValuesRendered(n: Node, keys: seq<string>, reserved: set<string>,
                                          q: seq<string>, path: seq<string>)
    requires WF(n) && path != [] && forall k | k in keys :: k in n.entries
    ensures ValuesAt(T.Leaves(q, Render(n, keys, reserved)), q + path) == Gather(n, keys, reserved, path)
    decreases n, 1, |keys|
  {
    if keys != [] {
      ValuesOne(n, keys[0], reserved, q, path);
      ValuesRendered(n, keys[1..], reserved, q, path);
      var one, rest := RenderOne(n, keys[0], reserved), Render(n, keys[1..], reserved);
      T.LeavesConcat(q, one, rest);
      ValuesConcat(T.Leaves(q, one), T.Leaves(q, rest), q + path);
    }
  }
}
