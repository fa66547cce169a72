/** Attributes read as trees: their leaves with the groups they are under, and what slog
    does to groups without members. */
module AttrTrees {
  import opened Basics
  import opened Attrs

  /** An attribute that is not a group, with the groups it is under. */
  datatype Leaf = Leaf(path: seq<string>, key: string, value: Value)

  /** The leaves of a tree, in order. */
  function Leaves(path: seq<string>, attrs: seq<Attr>): seq<Leaf>
    decreases attrs
  {
    if attrs == [] then [] else LeavesOf(path, attrs[0]) + Leaves(path, attrs[1..])
  }

  function LeavesOf(path: seq<string>, a: Attr): seq<Leaf>
    decreases a
  {
    match a.value
    case Group(members) => Leaves(path + [a.key], members)
    case _ => [Leaf(path, a.key, a.value)]
  }

  lemma {:induction false} LeavesConcat(path: seq<string>, a: seq<Attr>, b: seq<Attr>)
    ensures Leaves(path, a + b) == Leaves(path, a) + Leaves(path, b)
    decreases |a|
  {
    if a == [] {
      assert a + b == b;
    } else {
      LeavesConcat(path, a[1..], b);
      assert (a + b)[1..] == a[1..] + b;
    }
  }

  lemma LeavesSingle(path: seq<string>, a: Attr)
    ensures Leaves(path, [a]) == LeavesOf(path, a)
  {
    assert [a][1..] == [];
  }

  // ---- empty groups ----

  /** slog.GroupValue leaves out members that are empty groups. */
  function GroupValue(members: seq<Attr>): Value {
    Group(NonEmpty(members))
  }

  function NonEmpty(members: seq<Attr>): seq<Attr> {
    if members == [] then []
    else (if members[0].value == Group([]) then [] else [members[0]]) + NonEmpty(members[1..])
  }

  lemma {:induction false} NonEmptyConcat(a: seq<Attr>, b: seq<Attr>)
    ensures NonEmpty(a + b) == NonEmpty(a) + NonEmpty(b)
    decreases |a|
  {
    if a == [] {
      assert a + b == b;
    } else {
      NonEmptyConcat(a[1..], b);
      assert (a + b)[0] == a[0] && (a + b)[1..] == a[1..] + b;
      Associates(if a[0].value == Group([]) then [] else [a[0]], NonEmpty(a[1..]), NonEmpty(b));
    }
  }

  /** Exactly the empty groups go, wherever they stand; the others keep their order. */
  lemma NonEmptyExactly(a: seq<Attr>, x: Attr, b: seq<Attr>)
    ensures NonEmpty([]) == []
    ensures NonEmpty(a + [x] + b) == NonEmpty(a) + (if x.value == Group([]) then [] else [x]) + NonEmpty(b)
  {
    NonEmptyConcat(a + [x], b);
    NonEmptyConcat(a, [x]);
    assert [x][1..] == [];
  }

  lemma {:induction false} LeavesNonEmpty(path: seq<string>, members: seq<Attr>)
    ensures Leaves(path, NonEmpty(members)) == Leaves(path, members)
    decreases |members|
  {
    if members != [] {
      LeavesNonEmpty(path, members[1..]);
      var a := members[0];
      if a.value != Group([]) {
        assert ([a] + NonEmpty(members[1..]))[1..] == NonEmpty(members[1..]);
      } else {
        assert LeavesOf(path, a) == [];
        assert [] + NonEmpty(members[1..]) == NonEmpty(members[1..]);
      }
    }
  }

  /** No group anywhere is empty, as slog keeps the members of a group. */
  predicate Packed(attrs: seq<Attr>)
    decreases attrs
  {
    attrs == [] || (PackedAttr(attrs[0]) && Packed(attrs[1..]))
  }

  predicate PackedAttr(a: Attr)
    decreases a
  {
    a.value.Group? ==> a.value.members != [] && Packed(a.value.members)
  }

  lemma {:induction false} NonEmptyPacked(attrs: seq<Attr>)
    requires Packed(attrs)
    ensures NonEmpty(attrs) == attrs
    decreases |attrs|
  {
    if attrs != [] {
      NonEmptyPacked(attrs[1..]);
    }
  }

  predicate PackedOps(ops: seq<Op>) {
    ops == [] || ((ops[0].Held? ==> Packed(ops[0].attrs)) && PackedOps(ops[1..]))
  }

  lemma {:induction false} PackedConcat(a: seq<Attr>, b: seq<Attr>)
    requires Packed(a) && Packed(b)
    ensures Packed(a + b)
    decreases |a|
  {
    if a == [] {
      assert a + b == b;
    } else {
      PackedConcat(a[1..], b);
      assert (a + b)[1..] == a[1..] + b;
    }
  }

  lemma {:induction false} PackedNest(ops: seq<Op>, record: seq<Attr>)
    requires PackedOps(ops) && Packed(record)
    ensures Packed(Nest(ops, record))
    decreases |ops|
  {
    if ops != [] {
      PackedNest(ops[1..], record);
      var rest := Nest(ops[1..], record);
      if ops[0].Held? {
        PackedConcat(ops[0].attrs, rest);
      } else if rest != [] {
        assert PackedAttr(Attr(ops[0].group, Group(rest)));
      }
    }
  }
}
