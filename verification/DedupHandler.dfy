/** Handle of the dedup handler as it runs: the fast path, and the loops that move
    from node to node while inserting. */
module DedupHandler {
  import opened Attrs
  import opened Dedup
  import opened DedupShape
  import opened DedupNodes

  /** isClean: one pass with the keys seen so far. */
  method IsClean(reserved: set<string>, record: seq<Attr>) returns (clean: bool)
    ensures clean <==> Clean(reserved, record)
  {
    var seen: seq<string> := [];
    var i := 0;
    while i < |record|
      invariant 0 <= i <= |record|
      invariant seen == Keys(record[..i])
      invariant Clean(reserved, record[..i])
    {
      var a := record[i];
      assert record[..i + 1] == record[..i] + [a];
      assert forall j | 0 <= j < i :: seen[j] == record[j].key;
      if a.value.Group? || a.key in reserved || a.key in seen {
        return false;
      }
      seen := seen + [a.key];
      i := i + 1;
    }
    assert record[..i] == record;
    return true;
  }

  /** A node left open under key: own is what it and its other subtrees use. */
  datatype Frame = Frame(node: DedupNode, key: string, own: set<object>, model: Node)

  /** The open nodes, innermost first, with all the objects they own. */
  datatype Frames = Closed | Opened(frame: Frame, outer: Frames, all: set<object>)

  ghost predicate OpenAt(f: Frame, c: DedupNode)
    reads f.own
  {
    && f.node in f.own
    && f.node.AgreesBut(f.model, f.key, f.own)
    && f.key in f.node.entries
    && f.node.entries[f.key].node == c
    && f.node.entries[f.key].pinned == PinnedAt(f.model, f.key)
  }

  /** The whole tree when the innermost open node gets m. */
  ghost function Plug(fs: Frames, m: Node): Node {
    match fs
    case Closed => m
    case Opened(f, outer, _) => Plug(outer, Put(f.model, f.key, Sub(m, PinnedAt(f.model, f.key))))
  }

  ghost function Top(fs: Frames, c: DedupNode): DedupNode {
    match fs
    case Closed => c
    case Opened(f, outer, _) => Top(outer, f.node)
  }

  ghost function Owned(fs: Frames): set<object> {
    if fs.Closed? then {} else fs.all
  }

  /** The open nodes from c up to the root, none sharing an object. */
  ghost predicate Spine(fs: Frames, c: DedupNode)
    reads Owned(fs)
    decreases fs
  {
    match fs
    case Closed => true
    case Opened(f, outer, _) =>
      && fs.all == f.own + Owned(outer) && f.own !! Owned(outer)
      && OpenAt(f, c) && Spine(outer, f.node)
  }

  /** Closes the open nodes over a finished subtree, from the inside out. */
  ghost method Close(fs: Frames, c: DedupNode)
    requires Spine(fs, c)
    requires c.Valid() && c in c.Repr && c.Repr !! Owned(fs)
    modifies Owned(fs)
    ensures Top(fs, c).Valid() && Top(fs, c).Model() == Plug(fs, old(c.Model()))
    decreases fs
  {
    if fs.Opened? {
      assert Spine(fs.outer, fs.frame.node);
      fs.frame.node.Adopt(fs.frame.key, fs.frame.model, fs.frame.own);
      Close(fs.outer, fs.frame.node);
    }
  }

  lemma PutAgain(n: Node, k: string, a: Node, b: Node)
    ensures Put(Put(n, k, Sub(a, PinnedAt(n, k))), k, Sub(b, PinnedAt(Put(n, k, Sub(a, PinnedAt(n, k))), k)))
         == Put(n, k, Sub(b, PinnedAt(n, k)))
  {
  }

  /** Where Handle stands: cur is the node being written to, last the innermost node
      still part of the tree (cur itself unless cur is detached). */
  ghost predicate Standing(fs: Frames, last: DedupNode, cur: DedupNode, root: DedupNode)
    reads Owned(fs), last, last.Repr, cur, cur.Repr
  {
    && Spine(fs, last) && last.Valid() && last.Repr !! Owned(fs) && Top(fs, last) == root
    && cur.Valid()
    && (cur == last || (cur.Repr !! last.Repr && cur.Repr !! Owned(fs)))
  }

  ghost function Used(fs: Frames, last: DedupNode, cur: DedupNode): set<object>
    reads last, cur
  {
    Owned(fs) + last.Repr + cur.Repr
  }

  /** The tree there will be once the remaining ops and the record are written. */
  ghost function Goal(fs: Frames, last: DedupNode, cur: DedupNode, ops: seq<Op>, record: seq<Attr>): Node
    requires last.Valid() && cur.Valid()
    reads last, last.Repr, cur, cur.Repr
  {
    Plug(fs, if cur == last then Replay(cur.Model(), ops, record) else last.Model())
  }

  /** cur = cur.child(group). */
  method MoveInto(ghost fs: Frames, ghost last: DedupNode, cur: DedupNode, ghost root: DedupNode,
                  group: string, ghost ops: seq<Op>, ghost record: seq<Attr>)
    returns (c: DedupNode, ghost fs': Frames, ghost last': DedupNode)
    requires Standing(fs, last, cur, root)
    modifies cur
    ensures Standing(fs', last', c, root)
    ensures Goal(fs', last', c, ops, record) == old(Goal(fs, last, cur, [Open(group)] + ops, record))
    ensures fresh(Used(fs', last', c) - old(Used(fs, last, cur)))
  {
    ghost var n := cur.Model();
    assert ([Open(group)] + ops)[1..] == ops;
    assert cur in cur.Repr && last in last.Repr;
    c := cur.Child(group);
    fs', last' := fs, last;
    assert c in c.Repr;
    if cur == last && !Detached(n, group) {
      cur.OpensAt(group);
      ghost var f := Frame(cur, group, cur.Repr - c.Repr, cur.Model());
      assert OpenAt(f, c);
      assert Spine(fs, cur);
      fs' := Opened(f, fs, f.own + Owned(fs));
      last' := c;
      PutAgain(n, group, Dedup.Child(n, group), Replay(Dedup.Child(n, group), ops, record));
    } else {
      assert last.Valid() && last.Model() == old(last.Model());
      assert Spine(fs, last);
    }
  }

  /** The loop that inserts into cur. */
  method WriteTo(ghost fs: Frames, ghost last: DedupNode, cur: DedupNode, ghost root: DedupNode, attrs: seq<Attr>)
    requires Standing(fs, last, cur, root)
    modifies cur.Repr
    ensures Standing(fs, last, cur, root)
    ensures cur.Model() == InsertAll(old(cur.Model()), attrs, false)
    ensures cur != last ==> last.Model() == old(last.Model())
    ensures fresh(last.Repr + cur.Repr - old(last.Repr + cur.Repr))
  {
    assert cur in cur.Repr && last in last.Repr;
    cur.InsertEach(attrs, false);
    assert Spine(fs, last);
  }

  /** One turn of the loop over the held ops. */
  method HoldOne(ghost fs: Frames, ghost last: DedupNode, cur: DedupNode, ghost root: DedupNode,
                 op: Op, ghost ops: seq<Op>, ghost record: seq<Attr>)
    returns (c: DedupNode, ghost fs': Frames, ghost last': DedupNode)
    requires Standing(fs, last, cur, root) && ops != [] && ops[0] == op
    modifies cur.Repr
    ensures Standing(fs', last', c, root)
    ensures Goal(fs', last', c, ops[1..], record) == old(Goal(fs, last, cur, ops, record))
    ensures fresh(Used(fs', last', c) - old(Used(fs, last, cur)))
  {
    assert cur in cur.Repr;
    if op.Open? {
      assert ops == [Open(op.group)] + ops[1..];
      c, fs', last' := MoveInto(fs, last, cur, root, op.group, ops[1..], record);
    } else {
      WriteTo(fs, last, cur, root, op.attrs);
      c, fs', last' := cur, fs, last;
    }
  }

  lemma Begins(root: DedupNode, ops: seq<Op>, record: seq<Attr>)
    requires root.Valid()
    ensures Standing(Closed, root, root, root) && Used(Closed, root, root) == root.Repr
    ensures Goal(Closed, root, root, ops, record) == Replay(root.Model(), ops, record)
  {
  }

  /** The loop over the held ops. */
  method HoldAll(root: DedupNode, ops: seq<Op>, ghost record: seq<Attr>)
    returns (cur: DedupNode, ghost fs: Frames, ghost last: DedupNode)
    requires root.Valid()
    modifies root.Repr
    ensures Standing(fs, last, cur, root)
    ensures Goal(fs, last, cur, [], record) == Replay(old(root.Model()), ops, record)
    ensures fresh(Used(fs, last, cur) - old(root.Repr))
  {
    ghost var goal, was := Replay(root.Model(), ops, record), root.Repr;
    cur, fs, last := root, Closed, root;
    Begins(root, ops, record);
    assert ops[0..] == ops;
    for i := 0 to |ops|
      invariant Standing(fs, last, cur, root)
      invariant Goal(fs, last, cur, ops[i..], record) == goal
      invariant fresh(Used(fs, last, cur) - was)
    {
      assert ops[i..][1..] == ops[i + 1..];
      ghost var used := Used(fs, last, cur);
      assert cur.Repr <= used;
      cur, fs, last := HoldOne(fs, last, cur, root, ops[i], ops[i..], record);
      assert Used(fs, last, cur) - was <= (Used(fs, last, cur) - used) + (used - was);
    }
    assert ops[|ops|..] == [];
  }

  /** The slow path of Handle up to the finished tree: cur moves into a node at each
      held WithGroup; what it left open is closed at the end. */
  method Build(h: Handler, record: seq<Attr>) returns (root: DedupNode)
    ensures root.Valid() && root.Model() == Replay(PinnedTree(h), h.ops, record)
  {
    root := new DedupNode();
    root.InsertEach(h.pinned, true);
    var cur: DedupNode;
    ghost var fs, last;
    cur, fs, last := HoldAll(root, h.ops, record);
    assert last in last.Repr;
    WriteTo(fs, last, cur, root, record);
    Close(fs, last);
  }

  method Handle(h: Handler, record: seq<Attr>) returns (out: seq<Attr>)
    requires GroupsNamed(h.ops)
    ensures out == Output(h, record)
  {
    if h.ops == [] && h.pinned == [] {
      var clean := IsClean(h.reserved, record);
      if clean {
        return record;
      }
    }
    var root := Build(h, record);
    TreeWF(h, record);
    WFNames(root.Model());
    out := root.Materialize(h.reserved);
  }

  lemma {:induction false} WFNames(n: Node)
    requires WF(n)
    ensures NamesMatch(n)
    decreases n
  {
    forall k | k in n.entries && n.entries[k].Sub? ensures NamesMatch(n.entries[k].node) {
      assert EntryWF(n, k);
      WFNames(n.entries[k].node);
    }
  }
}
