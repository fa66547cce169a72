/** Pinned attributes: the tree that a list of them builds, and that nothing held or
    recorded later takes anything from it. */
module DedupPins {
  import opened Basics
  import opened Attrs
  import opened Dedup
  import opened DedupMeaning

  // ---- pinned attributes ----

  /** m keeps n's keys in place, n's pinned scalars with their values and n's pinned
      groups as pinned groups that keep theirs; those may have gained members. */
  ghost predicate Keeps(n: Node, m: Node)
    decreases n
  {
    && n.keys <= m.keys
    && forall k | k in n.entries && n.entries[k].pinned ::
         k in m.entries &&
         match n.entries[k]
         case Leaf(_, _) => m.entries[k] == n.entries[k]
         case Sub(x, _) => m.entries[k].Sub? && m.entries[k].pinned && Keeps(x, m.entries[k].node)
  }

  /** ... and if nothing was opened by WithGroup they gained nothing. */
  ghost predicate KeepsExactly(n: Node, m: Node) {
    && n.keys <= m.keys
    && forall k | k in n.entries && n.entries[k].pinned :: k in m.entries && m.entries[k] == n.entries[k]
  }

  lemma {:induction false} KeepsSelf(n: Node)
    ensures Keeps(n, n)
    decreases n
  {
    forall k | k in n.entries && n.entries[k].pinned && n.entries[k].Sub?
      ensures Keeps(n.entries[k].node, n.entries[k].node)
    {
      KeepsSelf(n.entries[k].node);
    }
  }

  lemma {:induction false} KeepsOn(a: Node, b: Node, c: Node)
    requires Keeps(a, b) && Keeps(b, c)
    ensures Keeps(a, c)
    decreases a
  {
    forall k | k in a.entries && a.entries[k].pinned && a.entries[k].Sub?
      ensures Keeps(a.entries[k].node, c.entries[k].node)
    {
      KeepsOn(a.entries[k].node, b.entries[k].node, c.entries[k].node);
    }
  }

  lemma ExactlyKeeps(n: Node, m: Node)
    requires KeepsExactly(n, m)
    ensures Keeps(n, m)
  {
    forall k | k in n.entries && n.entries[k].pinned && n.entries[k].Sub?
      ensures Keeps(n.entries[k].node, n.entries[k].node)
    {
      KeepsSelf(n.entries[k].node);
    }
  }

  /** Nothing a caller inserts touches a pinned entry, group or scalar. */
  lemma {:induction false} InsertKeepsPins(n: Node, a: Attr)
    ensures KeepsExactly(n, Insert(n, a, false))
    decreases a, 0
  {
    if a.value.Group? && a.key == "" {
      InsertAllKeepsPins(n, a.value.members);
    }
  }

  lemma {:induction false} InsertAllKeepsPins(n: Node, attrs: seq<Attr>)
    ensures KeepsExactly(n, InsertAll(n, attrs, false))
    decreases attrs, 1
  {
    if attrs != [] {
      InsertKeepsPins(n, attrs[0]);
      InsertAllKeepsPins(Insert(n, attrs[0], false), attrs[1..]);
    }
  }

  lemma {:induction false} ReplayKeepsPins(n: Node, ops: seq<Op>, record: seq<Attr>)
    ensures Keeps(n, Replay(n, ops, record))
    ensures (forall i | 0 <= i < |ops| :: ops[i].Held?) ==> KeepsExactly(n, Replay(n, ops, record))
    decreases |ops|
  {
    if ops == [] {
      InsertAllKeepsPins(n, record);
      ExactlyKeeps(n, InsertAll(n, record, false));
    } else {
      match ops[0]
      case Held(attrs) =>
        var m := InsertAll(n, attrs, false);
        InsertAllKeepsPins(n, attrs);
        ExactlyKeeps(n, m);
        ReplayKeepsPins(m, ops[1..], record);
        KeepsOn(n, m, Replay(m, ops[1..], record));
      case Open(g) =>
        KeepsSelf(n);
        if !Detached(n, g) {
          ReplayKeepsPins(Child(n, g), ops[1..], record);
          OpenKeepsPins(n, g, Replay(Child(n, g), ops[1..], record));
        }
    }
  }

  lemma OpenKeepsPins(n: Node, g: string, m: Node)
    requires !Detached(n, g) && Keeps(Child(n, g), m)
    ensures Keeps(n, Put(n, g, Sub(m, PinnedAt(n, g))))
  {
    KeepsSelf(n);
  }

  /** The scalar at a path of group keys. */
  function Lookup(n: Node, path: seq<string>): Option<Value>
    decreases |path|
  {
    if path == [] || path[0] !in n.entries then None else
    match n.entries[path[0]]
    case Leaf(v, _) => if |path| == 1 then Some(v) else None
    case Sub(m, _) => Lookup(m, path[1..])
  }

  ghost predicate AllPinned(n: Node)
    decreases n
  {
    forall k | k in n.entries :: n.entries[k].pinned && (n.entries[k].Sub? ==> AllPinned(n.entries[k].node))
  }

  lemma {:induction false} InsertAllPinned(n: Node, a: Attr)
    requires AllPinned(n)
    ensures AllPinned(Insert(n, a, true))
    decreases a, 0
  {
    match a.value
    case Group(members) =>
      PinnedAll(n, members);
      PinnedAll(Child(n, a.key), members);
    case _ =>
  }

  lemma {:induction false} PinnedAll(n: Node, attrs: seq<Attr>)
    requires AllPinned(n)
    ensures AllPinned(InsertAll(n, attrs, true))
    decreases attrs, 1
  {
    if attrs != [] {
      InsertAllPinned(n, attrs[0]);
      PinnedAll(Insert(n, attrs[0], true), attrs[1..]);
    }
  }

  lemma {:induction false} LookupKept(n: Node, m: Node, path: seq<string>)
    requires Keeps(n, m) && AllPinned(n) && Lookup(n, path).Some?
    ensures Lookup(m, path) == Lookup(n, path)
    decreases |path|
  {
    if n.entries[path[0]].Sub? {
      LookupKept(n.entries[path[0]].node, m.entries[path[0]].node, path[1..]);
    }
  }

  /** What pinned attributes say, read off the list itself: groups with an empty key
      are inlined, empty groups and zero attributes are nothing. */
  function Inline(attrs: seq<Attr>): seq<Attr>
    decreases attrs
  {
    if attrs == [] then [] else
    var a := attrs[0];
    (if a.value.Group? then
       (if a.key == "" then Inline(a.value.members) else if a.value.members == [] then [] else [a])
     else if a == ZERO then [] else [a])
    + Inline(attrs[1..])
  }

  lemma {:induction false} InlineInserts(n: Node, attrs: seq<Attr>, pinned: bool)
    ensures InsertAll(n, attrs, pinned) == InsertAll(n, Inline(attrs), pinned)
    decreases attrs
  {
    if attrs != [] {
      var a, rest := attrs[0], attrs[1..];
      InlineInserts(Insert(n, a, pinned), rest, pinned);
      if a.value.Group? && a.key == "" {
        InlineInserts(n, a.value.members, pinned);
        InsertAllConcat(n, Inline(a.value.members), Inline(rest), pinned);
      } else if a == ZERO || a.value == Group([]) {
        assert Inline(attrs) == Inline(rest) && Insert(n, a, pinned) == n;
      } else {
        assert Inline(attrs) == [a] + Inline(rest);
        assert ([a] + Inline(rest))[1..] == Inline(rest);
      }
    }
  }

  /** Inlined once: no zero attribute, no empty group, no group to inline. */
  ghost predicate Plain(attrs: seq<Attr>) {
    forall i | 0 <= i < |attrs| ::
      if attrs[i].value.Group? then attrs[i].key != "" && attrs[i].value.members != [] else attrs[i] != ZERO
  }

  lemma {:induction false} InlineIsPlain(attrs: seq<Attr>)
    ensures Plain(Inline(attrs))
    decreases attrs
  {
    if attrs != [] {
      if attrs[0].value.Group? {
        InlineIsPlain(attrs[0].value.members);
      }
      InlineIsPlain(attrs[1..]);
    }
  }

  function EntryOf(a: Attr, pinned: bool): Entry {
    match a.value
    case Group(members) => Sub(InsertAll(EMPTY, members, pinned), pinned)
    case _ => Leaf(a.value, pinned)
  }

  /** m is n with one new entry per attribute, in order. */
  ghost predicate Appended(n: Node, attrs: seq<Attr>, pinned: bool, m: Node) {
    && m.keys == n.keys + Keys(attrs)
    && (forall k | k in n.entries :: k in m.entries && m.entries[k] == n.entries[k])
    && (forall i | 0 <= i < |attrs| ::
          attrs[i].key in m.entries && m.entries[attrs[i].key] == EntryOf(attrs[i], pinned))
    && (forall k | k in m.entries :: k in n.entries || k in Keys(attrs))
  }

  ghost predicate Fresh(n: Node, attrs: seq<Attr>) {
    Plain(attrs) && Distinct(Keys(attrs)) && forall i | 0 <= i < |attrs| :: attrs[i].key !in n.entries
  }

  lemma InsertFresh(n: Node, a: Attr, pinned: bool)
    requires Plain([a]) && a.key !in n.entries
    ensures Insert(n, a, pinned) == Put(n, a.key, EntryOf(a, pinned))
  {
    assert [a][0] == a;
  }

  lemma AppendOne(n: Node, attrs: seq<Attr>, a: Attr, pinned: bool, m: Node)
    requires Fresh(n, attrs + [a]) && Appended(n, attrs, pinned, m)
    ensures a.key !in m.entries && Appended(n, attrs + [a], pinned, Put(m, a.key, EntryOf(a, pinned)))
  {
    var all := attrs + [a];
    assert Keys(all) == Keys(attrs) + [a.key];
    assert all[|attrs|] == a;
    assert forall i | 0 <= i < |attrs| ::
        all[i] == attrs[i] && Keys(all)[i] == attrs[i].key && Keys(all)[i] != Keys(all)[|attrs|];
    assert a.key !in Keys(attrs);
  }

  lemma {:induction false} FreshInserts(n: Node, attrs: seq<Attr>, pinned: bool)
    requires Fresh(n, attrs)
    ensures Appended(n, attrs, pinned, InsertAll(n, attrs, pinned))
    decreases |attrs|
  {
    if attrs != [] {
      var init, a := attrs[..|attrs| - 1], attrs[|attrs| - 1];
      assert attrs == init + [a];
      assert Keys(attrs) == Keys(init) + [a.key];
      assert forall i | 0 <= i < |init| :: init[i] == attrs[i] && Keys(init)[i] == Keys(attrs)[i];
      FreshInserts(n, init, pinned);
      InsertAllConcat(n, init, [a], pinned);
      AppendOne(n, init, a, pinned, InsertAll(n, init, pinned));
      InsertFresh(InsertAll(n, init, pinned), a, pinned);
      assert [a][1..] == [];
    }
  }

  // ---- the pinned attributes as a list ----

  /** The keys of the list, each where it stands first. */
  function FirstKeys(attrs: seq<Attr>): seq<string> {
    if attrs == [] then [] else
    var init, k := attrs[..|attrs| - 1], attrs[|attrs| - 1].key;
    FirstKeys(init) + (if k in Keys(init) then [] else [k])
  }

  /** The value of the last scalar with the key. */
  function LastScalar(attrs: seq<Attr>, k: string): Option<Value> {
    if attrs == [] then None else
    var a := attrs[|attrs| - 1];
    if a.key == k && !a.value.Group? then Some(a.value) else LastScalar(attrs[..|attrs| - 1], k)
  }

  /** The members of all groups with the key, one after the other. */
  function MembersOf(attrs: seq<Attr>, k: string): seq<Attr> {
    if attrs == [] then [] else
    var a := attrs[|attrs| - 1];
    MembersOf(attrs[..|attrs| - 1], k) + (if a.key == k && a.value.Group? then a.value.members else [])
  }

  /** A scalar of the key makes the entry a scalar, the last one its value; otherwise the
      groups of the key are one group. */
  ghost predicate EntryIs(list: seq<Attr>, k: string, e: Entry) {
    match LastScalar(list, k)
    case Some(v) => e == Leaf(v, true)
    case None => e == Sub(InsertAll(EMPTY, MembersOf(list, k), true), true)
  }

  ghost predicate ListShows(list: seq<Attr>, n: Node) {
    && n.keys == FirstKeys(list)
    && (forall k :: k in n.entries <==> k in Keys(list))
    && (forall k | k in n.entries :: EntryIs(list, k, n.entries[k]))
  }

  lemma {:induction false} NothingFor(list: seq<Attr>, k: string)
    requires k !in Keys(list)
    ensures LastScalar(list, k) == None && MembersOf(list, k) == []
    decreases |list|
  {
    if list != [] {
      var init := list[..|list| - 1];
      assert forall i | 0 <= i < |init| :: Keys(init)[i] == Keys(list)[i];
      assert Keys(list)[|list| - 1] == list[|list| - 1].key;
      NothingFor(init, k);
    }
  }

  lemma ListSnoc(init: seq<Attr>, a: Attr, k: string)
    ensures var list := init + [a];
            && FirstKeys(list) == FirstKeys(init) + (if a.key in Keys(init) then [] else [a.key])
            && LastScalar(list, k) == (if a.key == k && !a.value.Group? then Some(a.value) else LastScalar(init, k))
            && (MembersOf(list, k)
                == MembersOf(init, k) + (if a.key == k && a.value.Group? then a.value.members else []))
            && Keys(list) == Keys(init) + [a.key]
  {
    var list := init + [a];
    assert list[..|list| - 1] == init;
  }

  lemma OwnEntry(init: seq<Attr>, n: Node, a: Attr)
    requires ListShows(init, n) && (if a.value.Group? then a.key != "" && a.value.members != [] else a != ZERO)
    ensures a.key in Insert(n, a, true).entries
    ensures EntryIs(init + [a], a.key, Insert(n, a, true).entries[a.key])
  {
    ListSnoc(init, a, a.key);
    NothingForOr(init, a.key);
    if a.key in n.entries {
      assert EntryIs(init, a.key, n.entries[a.key]);
    }
    if a.value.Group? {
      InsertAllConcat(EMPTY, MembersOf(init, a.key), a.value.members, true);
      assert [] + a.value.members == a.value.members;
    }
  }

  lemma InsertPinned(init: seq<Attr>, n: Node, a: Attr)
    requires ListShows(init, n) && Plain([a])
    ensures ListShows(init + [a], Insert(n, a, true))
  {
    var list, m := init + [a], Insert(n, a, true);
    assert [a][0] == a;
    ListSnoc(init, a, a.key);
    OwnEntry(init, n, a);
    forall k | k in m.entries ensures EntryIs(list, k, m.entries[k]) {
      ListSnoc(init, a, k);
      if k != a.key {
        assert k in n.entries && EntryIs(init, k, n.entries[k]);
        assert MembersOf(init, k) + [] == MembersOf(init, k);
      }
    }
  }

  lemma NothingForOr(list: seq<Attr>, k: string)
    ensures k in Keys(list) || (LastScalar(list, k) == None && MembersOf(list, k) == [])
  {
    if k !in Keys(list) {
      NothingFor(list, k);
    }
  }

  lemma {:induction false} PinnedEntries(list: seq<Attr>)
    requires Plain(list)
    ensures ListShows(list, InsertAll(EMPTY, list, true))
    decreases |list|
  {
    if list != [] {
      var init, a := list[..|list| - 1], list[|list| - 1];
      assert list == init + [a];
      PinnedEntries(init);
      InsertAllConcat(EMPTY, init, [a], true);
      InsertPinned(init, InsertAll(EMPTY, init, true), a);
      assert [a][1..] == [];
    }
  }

  /** The value the pinned attributes give a path, read off the list: at each level groups
      with an empty key are inlined; a key given twice keeps its first place and its last
      value; groups of one key are one group, unless a scalar has the key. */
  function PinnedValue(attrs: seq<Attr>, path: seq<string>): Option<Value>
    decreases |path|
  {
    if path == [] then None else
    match LastScalar(Inline(attrs), path[0])
    case Some(v) => if |path| == 1 then Some(v) else None
    case None => PinnedValue(MembersOf(Inline(attrs), path[0]), path[1..])
  }

  lemma {:induction false} NoValueInNothing(path: seq<string>)
    ensures PinnedValue([], path) == None
    decreases |path|
  {
    if path != [] {
      NoValueInNothing(path[1..]);
    }
  }

  /** Every list of pinned attributes is the tree it builds, key for key and path for
      path. */
  lemma {:induction false} TreeOfList(attrs: seq<Attr>, path: seq<string>)
    ensures InsertAll(EMPTY, attrs, true).keys == FirstKeys(Inline(attrs))
    ensures Lookup(InsertAll(EMPTY, attrs, true), path) == PinnedValue(attrs, path)
    decreases |path|
  {
    var list := Inline(attrs);
    InlineInserts(EMPTY, attrs, true);
    InlineIsPlain(attrs);
    PinnedEntries(list);
    var m := InsertAll(EMPTY, list, true);
    if path != [] {
      var k := path[0];
      if k in m.entries {
        assert EntryIs(list, k, m.entries[k]);
        TreeOfList(MembersOf(list, k), path[1..]);
      } else {
        NothingFor(list, k);
        NoValueInNothing(path[1..]);
      }
    }
  }

  /** Whatever was held and whatever the record carries, each pinned path still has its
      pinned value and the pinned top-level keys come first in the given order. */
  lemma PinnedNeverLose(h: Handler, record: seq<Attr>, path: seq<string>)
    ensures var n := Replay(PinnedTree(h), h.ops, record);
            && FirstKeys(Inline(h.pinned)) <= n.keys
            && (PinnedValue(h.pinned, path).Some? ==> Lookup(n, path) == PinnedValue(h.pinned, path))
  {
    TreeOfList(h.pinned, path);
    PinnedAll(EMPTY, h.pinned);
    ReplayKeepsPins(PinnedTree(h), h.ops, record);
    if PinnedValue(h.pinned, path).Some? {
      LookupKept(PinnedTree(h), Replay(PinnedTree(h), h.ops, record), path);
    }
  }

  /** Without WithGroup the pinned part of the tree, groups included, is untouched. */
  lemma OnlyGroupsGrowPins(h: Handler, record: seq<Attr>)
    requires forall i | 0 <= i < |h.ops| :: h.ops[i].Held?
    ensures KeepsExactly(PinnedTree(h), Replay(PinnedTree(h), h.ops, record))
  {
    ReplayKeepsPins(PinnedTree(h), h.ops, record);
  }
}
