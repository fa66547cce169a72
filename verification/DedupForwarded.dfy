/** The promises about pinned attributes and about write order, for the attributes that
    are forwarded: printing renames reserved top-level keys, so two keys of the tree may
    meet at one printed path. */
module DedupForwarded {
  import opened Basics
  import opened Attrs
  import opened Dedup
  import opened DedupShape
  import opened DedupPins
  import opened DedupFixpoint
  import opened DedupEvents
  import opened DedupOutput
  import T = AttrTrees

  function Leaves(attrs: seq<Attr>): seq<T.Leaf> {
    T.Leaves([], attrs)
  }

  /** Where a path of the tree is printed. */
  function Printed(reserved: set<string>, path: seq<string>): seq<string>
    requires path != []
  {
    [Rename(reserved, path[0])] + path[1..]
  }

  // ---- two keys at one printed key ----

  /** The one other key that is printed like k, if there is one. */
  function Twin(reserved: set<string>, k: string): Option<string> {
    if k in reserved then
      if "attr." + k in reserved then None else Some("attr." + k)
    else if "attr." <= k && k[5..] in reserved then Some(k[5..])
    else None
  }

  lemma TwinOnly(reserved: set<string>, k: string, x: string)
    requires x != k
    ensures Rename(reserved, x) == Rename(reserved, k) <==> Twin(reserved, k) == Some(x)
  {
    PrefixInjective("attr.", x, k);
    assert |"attr."| == 5;
    assert "attr." <= k ==> k == "attr." + k[5..];
    assert ("attr." + x)[5..] == x;
  }

  function At(n: Node, k: Option<string>, rest: seq<string>): seq<Value> {
    match k
    case None => []
    case Some(x) => Look(n, [x] + rest)
  }

  /** What the tree holds at the other path that is printed like this one. */
  function TwinLook(n: Node, reserved: set<string>, path: seq<string>): seq<Value>
    requires path != []
  {
    At(n, Twin(reserved, path[0]), path[1..])
  }

  function Among(k: Option<string>, keys: seq<string>): Option<string> {
    if k.Some? && k.value in keys then k else None
  }

  lemma AmongCons(n: Node, o: Option<string>, x: string, tail: seq<string>, rest: seq<string>)
    requires x !in tail
    ensures (multiset(At(n, Among(o, [x] + tail), rest))
             == multiset(if o == Some(x) then Look(n, [x] + rest) else []) + multiset(At(n, Among(o, tail), rest)))
  {
  }

  lemma NotOwnTwin(reserved: set<string>, k: string)
    ensures Twin(reserved, k) != Some(k)
  {
    assert |"attr." + k| == 5 + |k|;
  }

  lemma {:induction false} GatherBoth(n: Node, keys: seq<string>, reserved: set<string>, k: string, rest: seq<string>)
    requires Distinct(keys)
    ensures (multiset(Gather(n, keys, reserved, [Rename(reserved, k)] + rest))
             == multiset(At(n, Among(Some(k), keys), rest)) + multiset(At(n, Among(Twin(reserved, k), keys), rest)))
    decreases |keys|
  {
    if keys != [] {
      var x, tail := keys[0], keys[1..];
      var path := [Rename(reserved, k)] + rest;
      assert keys == [x] + tail && path[1..] == rest;
      DistinctCons(x, tail);
      GatherBoth(n, tail, reserved, k, rest);
      AmongCons(n, Some(k), x, tail, rest);
      AmongCons(n, Twin(reserved, k), x, tail, rest);
      NotOwnTwin(reserved, k);
      if x != k {
        TwinOnly(reserved, k, x);
      }
    }
  }

  lemma LookOutside(n: Node, k: Option<string>, rest: seq<string>)
    requires WF(n)
    ensures At(n, Among(k, n.keys), rest) == At(n, k, rest)
  {
  }

  /** The values printed at the place of a path are the one the tree holds there and the
      one it holds at the path's twin, and no others. */
  lemma ValuesPrinted(n: Node, reserved: set<string>, path: seq<string>)
    requires WF(n) && path != []
    ensures (multiset(ValuesAt(Leaves(Materialize(n, reserved)), Printed(reserved, path)))
             == multiset(Look(n, path)) + multiset(TwinLook(n, reserved, path)))
  {
    var k, rest := path[0], path[1..];
    ValuesRendered(n, n.keys, reserved, [], Printed(reserved, path));
    assert [] + Printed(reserved, path) == Printed(reserved, path);
    GatherBoth(n, n.keys, reserved, k, rest);
    LookOutside(n, Some(k), rest);
    LookOutside(n, Twin(reserved, k), rest);
    assert [k] + rest == path;
  }

  lemma HoldsPrinted(n: Node, reserved: set<string>, path: seq<string>, v: Value)
    requires WF(n) && path != []
    ensures (v in ValuesAt(Leaves(Materialize(n, reserved)), Printed(reserved, path))
             <==> v in Look(n, path) || v in TwinLook(n, reserved, path))
  {
    ValuesPrinted(n, reserved, path);
    InMultiset(ValuesAt(Leaves(Materialize(n, reserved)), Printed(reserved, path)), v);
    InMultiset(Look(n, path), v);
    InMultiset(TwinLook(n, reserved, path), v);
  }

  lemma InMultiset(values: seq<Value>, v: Value)
    ensures v in values <==> v in multiset(values)
  {
  }

  lemma {:induction false} GatherFrom(n: Node, keys: seq<string>, reserved: set<string>, path: seq<string>, v: Value)
    returns (k: string)
    requires path != [] && v in Gather(n, keys, reserved, path)
    ensures Rename(reserved, k) == path[0] && v in Look(n, [k] + path[1..])
    decreases |keys|
  {
    k := keys[0];
    if !(Rename(reserved, k) == path[0] && v in Look(n, [k] + path[1..])) {
      k := GatherFrom(n, keys[1..], reserved, path, v);
    }
  }

  /** Whatever is printed comes from a path of the tree. */
  lemma PrintedFrom(n: Node, reserved: set<string>, printed: seq<string>, v: Value) returns (path: seq<string>)
    requires WF(n) && printed != [] && v in ValuesAt(Leaves(Materialize(n, reserved)), printed)
    ensures path != [] && Printed(reserved, path) == printed && v in Look(n, path)
  {
    ValuesRendered(n, n.keys, reserved, [], printed);
    assert [] + printed == printed;
    var k := GatherFrom(n, n.keys, reserved, printed, v);
    path := [k] + printed[1..];
  }

  // ---- the fast path ----

  /** The only leaf the fast path forwards and the slow one would not. */
  predicate IsZero(path: seq<string>, v: Value) {
    path == [""] && v == Null
  }

  lemma {:induction false} ZerosElsewhere(record: seq<Attr>, path: seq<string>, v: Value)
    requires !IsZero(path, v) && forall i | 0 <= i < |record| :: !record[i].value.Group?
    ensures v in ValuesAt(Leaves(record), path) <==> v in ValuesAt(Leaves(WithoutZeros(record)), path)
    decreases |record|
  {
    if record != [] {
      var a, rest := record[0], record[1..];
      ZerosElsewhere(rest, path, v);
      OneMoreLeaf(a, rest, path);
      OneMoreLeaf(a, WithoutZeros(rest), path);
      assert [] + WithoutZeros(rest) == WithoutZeros(rest);
    }
  }

  lemma OneMoreLeaf(a: Attr, rest: seq<Attr>, path: seq<string>)
    requires !a.value.Group?
    ensures (ValuesAt(Leaves([a] + rest), path)
             == (if path == [a.key] then [a.value] else []) + ValuesAt(Leaves(rest), path))
  {
    var l := T.Leaf([], a.key, a.value);
    T.LeavesConcat([], [a], rest);
    T.LeavesSingle([], a);
    ValuesConcat([l], Leaves(rest), path);
    assert [l][1..] == [] && [] + [a.key] == [a.key];
  }

  /** Besides a zero attribute the two paths forward the same values everywhere. */
  lemma SameForwarded(h: Handler, record: seq<Attr>, path: seq<string>, v: Value)
    requires !IsZero(path, v)
    ensures v in ValuesAt(Leaves(Output(h, record)), path) <==> v in ValuesAt(Leaves(SlowPath(h, record)), path)
  {
    if Fast(h, record) {
      FastPathAgrees(h, record);
      ZerosElsewhere(record, path, v);
    }
  }

  // ---- pinned attributes ----

  function EmittedKeys(n: Node, keys: seq<string>): seq<string> {
    if keys == [] then [] else (if Emitted(n, keys[0]) then [keys[0]] else []) + EmittedKeys(n, keys[1..])
  }

  function RenameKeys(reserved: set<string>, keys: seq<string>): seq<string> {
    seq(|keys|, i requires 0 <= i < |keys| => Rename(reserved, keys[i]))
  }

  lemma RenameConcat(reserved: set<string>, a: seq<string>, b: seq<string>)
    ensures RenameKeys(reserved, a + b) == RenameKeys(reserved, a) + RenameKeys(reserved, b)
  {
  }

  lemma {:induction false} EmittedConcat(n: Node, a: seq<string>, b: seq<string>)
    ensures EmittedKeys(n, a + b) == EmittedKeys(n, a) + EmittedKeys(n, b)
    decreases |a|
  {
    if a == [] {
      assert a + b == b;
    } else {
      EmittedConcat(n, a[1..], b);
      assert (a + b)[1..] == a[1..] + b;
    }
  }

  /** The keys of a printed level are its printing keys, renamed, in the tree's order. */
  lemma {:induction false} KeysPrinted(n: Node, keys: seq<string>, reserved: set<string>)
    ensures Keys(Render(n, keys, reserved)) == RenameKeys(reserved, EmittedKeys(n, keys))
    decreases |keys|
  {
    if keys != [] {
      var one, rest := RenderOne(n, keys[0], reserved), Render(n, keys[1..], reserved);
      KeysPrinted(n, keys[1..], reserved);
      EmittedPrints(n, keys[0], reserved);
      KeysConcat(one, rest);
      RenameConcat(reserved, if Emitted(n, keys[0]) then [keys[0]] else [], EmittedKeys(n, keys[1..]));
    }
  }

  /** Pinned attributes in what Handle forwards: every pinned value is there, under its
      printed path; it is the only value at that path exactly when the tree holds
      nothing at the path's twin; and the pinned keys that print come first, in order. */
  lemma PinnedForwarded(h: Handler, record: seq<Attr>, path: seq<string>)
    requires GroupsNamed(h.ops) && path != []
    ensures var n, out := Replay(PinnedTree(h), h.ops, record), Output(h, record);
            var printed := RenameKeys(h.reserved, EmittedKeys(n, FirstKeys(Inline(h.pinned))));
            var values := ValuesAt(Leaves(out), Printed(h.reserved, path));
            && printed <= Keys(out)
            && match PinnedValue(h.pinned, path)
               case None => true
               case Some(v) => v in values && (values == [v] <==> TwinLook(n, h.reserved, path) == [])
  {
    if h.pinned == [] {
      NoValueInNothing(path);
      assert EmittedKeys(Replay(PinnedTree(h), h.ops, record), []) == [];
    } else {
      PinnedKeysFirst(h, record);
      if PinnedValue(h.pinned, path).Some? {
        PinnedValueThere(h, record, path);
      }
    }
  }

  lemma PinnedKeysFirst(h: Handler, record: seq<Attr>)
    requires GroupsNamed(h.ops) && h.pinned != []
    ensures var n := Replay(PinnedTree(h), h.ops, record);
            RenameKeys(h.reserved, EmittedKeys(n, FirstKeys(Inline(h.pinned)))) <= Keys(Output(h, record))
  {
    var n, pins := Replay(PinnedTree(h), h.ops, record), FirstKeys(Inline(h.pinned));
    PinnedNeverLose(h, record, []);
    var others := n.keys[|pins|..];
    assert n.keys == pins + others;
    KeysPrinted(n, n.keys, h.reserved);
    EmittedConcat(n, pins, others);
    RenameConcat(h.reserved, EmittedKeys(n, pins), EmittedKeys(n, others));
  }

  lemma PinnedValueThere(h: Handler, record: seq<Attr>, path: seq<string>)
    requires GroupsNamed(h.ops) && h.pinned != [] && path != [] && PinnedValue(h.pinned, path).Some?
    ensures var n, v := Replay(PinnedTree(h), h.ops, record), PinnedValue(h.pinned, path).value;
            var values := ValuesAt(Leaves(Output(h, record)), Printed(h.reserved, path));
            v in values && (values == [v] <==> TwinLook(n, h.reserved, path) == [])
  {
    var n, v := Replay(PinnedTree(h), h.ops, record), PinnedValue(h.pinned, path).value;
    TreeWF(h, record);
    PinnedNeverLose(h, record, path);
    ValuesPrinted(n, h.reserved, path);
    OnlyOne(ValuesAt(Leaves(Output(h, record)), Printed(h.reserved, path)), v, TwinLook(n, h.reserved, path));
  }

  lemma OnlyOne(values: seq<Value>, v: Value, more: seq<Value>)
    requires multiset(values) == multiset([v]) + multiset(more)
    ensures v in values && (values == [v] <==> more == [])
  {
    assert v in multiset(values);
    assert |multiset(values)| == |values| && |multiset([v]) + multiset(more)| == 1 + |more|;
    if more == [] {
      assert values[0] in multiset(values);
    }
  }

  lemma PinnedTwinTree(h: Handler, a: Attr, b: Attr) returns (n: Node)
    requires a == Attr("level", Scalar("p")) && b == Attr("attr.level", Scalar("r"))
    requires h.pinned == [a] && h.ops == []
    ensures Replay(PinnedTree(h), h.ops, [b]) == n
    ensures n == Node(["level", "attr.level"],
                      map["level" := Leaf(a.value, true), "attr.level" := Leaf(b.value, false)])
  {
    assert [a][1..] == [] && [b][1..] == [] && |"attr.level"| == 10 && |"level"| == 5;
    var one := Node(["level"], map["level" := Leaf(a.value, true)]);
    n := Node(["level", "attr.level"], map["level" := Leaf(a.value, true), "attr.level" := Leaf(b.value, false)]);
    assert Insert(EMPTY, a, true) == one && Insert(one, b, false) == n;
    assert PinnedTree(h) == InsertAll(one, [], true) == one;
    assert Replay(one, [], [b]) == InsertAll(n, [], false) == n;
  }

  /** The twin does happen: a pinned level beside a record's attr.level. */
  lemma PinnedTwin()
    ensures var h := NewHandler([Attr("level", Scalar("p"))], []);
            (Output(h, [Attr("attr.level", Scalar("r"))])
             == [Attr("attr.level", Scalar("p")), Attr("attr.level", Scalar("r"))])
  {
    var a, b := Attr("level", Scalar("p")), Attr("attr.level", Scalar("r"));
    var h := NewHandler([a], []);
    assert |"attr.level"| == 10 && |"time"| == 4 && |"level"| == 5 && |"msg"| == 3;
    assert [a][1..] == [] && [b][1..] == [];
    assert Valid([a]) == [a] + Valid([]) == [a] && h.reserved == {"time", "level", "msg"};
    var n2 := PinnedTwinTree(h, a, b);
    assert n2.keys[1..] == ["attr.level"] && ["attr.level"][1..] == [];
    assert Render(n2, [], h.reserved) == [];
    assert Render(n2, ["attr.level"], h.reserved) == [b];
    assert Rename(h.reserved, "level") == "attr.level";
  }

  // ---- what the write events say about it ----

  /** The call's write events leave v at the path: written there last, or pinned so. */
  ghost predicate Leave(h: Handler, record: seq<Attr>, path: seq<string>, v: Value) {
    var p, events := PinnedTree(h), Events(h.ops, record);
    Proper(events) &&
    ((exists i: nat :: LastWrite(p, events, path, v, i))
     || (Lookup(p, path) == Some(v) && Untouched(p, events, path, 0)))
  }

  lemma LeavesLookup(h: Handler, record: seq<Attr>, path: seq<string>, v: Value)
    requires path != []
    ensures Leave(h, record, path, v) <==> v in Look(Replay(PinnedTree(h), h.ops, record), path)
  {
    TreeOfEvents(h, record, path, v);
  }

  /** A value is forwarded at the place of a path exactly when the call's write events
      leave it at that path or at its twin. A clean record's zero attribute, which the
      fast path lets through, is the one leaf this does not speak of. */
  lemma ForwardedByEvents(h: Handler, record: seq<Attr>, path: seq<string>, v: Value)
    requires GroupsNamed(h.ops) && path != [] && !IsZero(path, v)
    ensures (v in ValuesAt(Leaves(Output(h, record)), Printed(h.reserved, path))
             <==> || Leave(h, record, path, v)
                  || (Twin(h.reserved, path[0]).Some?
                      && Leave(h, record, [Twin(h.reserved, path[0]).value] + path[1..], v)))
  {
    var n, printed := Replay(PinnedTree(h), h.ops, record), Printed(h.reserved, path);
    TreeWF(h, record);
    assert !IsZero(printed, v) by {
      assert |Rename(h.reserved, path[0])| == 0 ==> path[0] == "";
    }
    SameForwarded(h, record, printed, v);
    HoldsPrinted(n, h.reserved, path, v);
    LeavesLookup(h, record, path, v);
    if Twin(h.reserved, path[0]).Some? {
      LeavesLookup(h, record, [Twin(h.reserved, path[0]).value] + path[1..], v);
    }
  }

  /** Nothing else is forwarded: every leaf but a zero attribute stands at the place of
      a path at which the write events leave its value. */
  lemma EveryLeafWritten(h: Handler, record: seq<Attr>, l: T.Leaf) returns (path: seq<string>)
    requires GroupsNamed(h.ops) && l in Leaves(Output(h, record)) && !IsZero(l.path + [l.key], l.value)
    ensures path != [] && Printed(h.reserved, path) == l.path + [l.key] && Leave(h, record, path, l.value)
  {
    var n, printed := Replay(PinnedTree(h), h.ops, record), l.path + [l.key];
    TreeWF(h, record);
    ValuesIn(Leaves(Output(h, record)), printed, l.value);
    SameForwarded(h, record, printed, l.value);
    path := PrintedFrom(n, h.reserved, printed, l.value);
    LeavesLookup(h, record, path, l.value);
  }

  // ---- the order of keys ----

  function NodeAt(n: Node, path: seq<string>): Option<Node>
    decreases |path|
  {
    if path == [] then Some(n)
    else if path[0] in n.entries && n.entries[path[0]].Sub? then NodeAt(n.entries[path[0]].node, path[1..])
    else None
  }

  /** Following the group keys of the path through the attributes leads to members. */
  ghost predicate Shows(attrs: seq<Attr>, path: seq<string>, members: seq<Attr>)
    decreases |path|
  {
    if path == [] then attrs == members
    else exists a | a in attrs :: a.key == path[0] && a.value.Group? && Shows(a.value.members, path[1..], members)
  }

  lemma {:induction false} RenderHas(n: Node, keys: seq<string>, k: string, reserved: set<string>)
    requires k in keys
    ensures forall a | a in RenderOne(n, k, reserved) :: a in Render(n, keys, reserved)
    decreases |keys|
  {
    if keys[0] != k {
      RenderHas(n, keys[1..], k, reserved);
    }
  }

  lemma {:induction false} LevelShown(n: Node, reserved: set<string>, path: seq<string>, m: Node)
    requires WF(n) && path != [] && NodeAt(n, path) == Some(m) && Materialize(m, {}) != []
    ensures KeysAt(n, path) == m.keys
    ensures Shows(Materialize(n, reserved), Printed(reserved, path), Materialize(m, {}))
    decreases |path|
  {
    var k, rest := path[0], path[1..];
    var c := n.entries[k].node;
    assert EntryWF(n, k) && k in n.keys;
    if rest != [] {
      LevelShown(c, {}, rest, m);
      assert Printed({}, rest) == rest;
    }
    var inner := Materialize(c, {});
    assert Shows(inner, rest, Materialize(m, {}));
    assert inner != [];
    var a := Attr(Rename(reserved, k), Group(inner));
    assert RenderOne(n, k, reserved) == [a] && a in [a];
    RenderHas(n, n.keys, k, reserved);
    assert Printed(reserved, path)[1..] == rest;
  }

  /** The keys of every forwarded level: those that print among the keys first written
      there since the level was made, in that order, renamed at the top. */
  lemma LevelsForwarded(h: Handler, record: seq<Attr>, path: seq<string>)
    requires GroupsNamed(h.ops) && !(Fast(h, record) && ZERO in record)
    ensures var p, n, events := PinnedTree(h), Replay(PinnedTree(h), h.ops, record), Events(h.ops, record);
            && Proper(events)
            && Keys(Output(h, record)) == RenameKeys(h.reserved, EmittedKeys(n, KeysThrough(p, p.keys, events, [])))
            && (path != [] && NodeAt(n, path).Some? && Materialize(NodeAt(n, path).value, {}) != [] ==>
                  var m := NodeAt(n, path).value;
                  && Shows(Output(h, record), Printed(h.reserved, path), Materialize(m, {}))
                  && Keys(Materialize(m, {})) == EmittedKeys(m, KeysThrough(p, KeysAt(p, path), events, path)))
  {
    var p, n := PinnedTree(h), Replay(PinnedTree(h), h.ops, record);
    TreeWF(h, record);
    TreeOfEvents(h, record, if path == [] then [""] else path, Null);
    KeysPrinted(n, n.keys, h.reserved);
    if Fast(h, record) {
      FastPathAgrees(h, record);
    }
    if path != [] && NodeAt(n, path).Some? && Materialize(NodeAt(n, path).value, {}) != [] {
      var m := NodeAt(n, path).value;
      LevelShown(n, h.reserved, path, m);
      KeysPrinted(m, m.keys, {});
      assert RenameKeys({}, EmittedKeys(m, m.keys)) == EmittedKeys(m, m.keys);
    }
  }
}
