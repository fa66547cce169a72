/** The dedup handler's tree as it is built on the heap: nodes updated in place,
    refined to the tree of module Dedup. */
module DedupNodes {
  import opened Attrs
  import opened Dedup

  /** One key at one level: a scalar, or a nested node. */
  datatype Slot = Slot(value: Value, node: DedupNode?, pinned: bool)

  class DedupNode {
    var keys: seq<string>
    var entries: map<string, Slot>
    ghost var Repr: set<object>

    /** The subtree under k, if there is one, is valid, lies in own and leaves this
        node out. */
    ghost predicate Owns(k: string, own: set<object>)
      requires k in entries
      reads this, own
      decreases own, 0
    {
      var c := entries[k].node;
      c != null ==> c in own && c.Repr <= own && this in own && this !in c.Repr && c in c.Repr && c.Valid()
    }

    /** Two entries' subtrees share nothing. */
    ghost predicate Apart(j: string, k: string, own: set<object>)
      requires j in entries && k in entries && this in own
      reads this, own
    {
      var c, d := entries[j].node, entries[k].node;
      c != null && d != null && c in own && d in own ==> c.Repr !! d.Repr
    }

    ghost predicate Valid()
      reads this, Repr
      decreases Repr, 1
    {
      && this in Repr
      && (forall k | k in entries :: Owns(k, Repr))
      && (forall j, k | j in entries && k in entries && j != k :: Apart(j, k, Repr))
    }

    /** The tree this node is the root of. */
    ghost function Model(): Node
      requires Valid()
      reads this, Repr
      decreases Repr, 1
    {
      Node(keys, map k | k in entries :: EntryModel(k, Repr))
    }

    ghost function EntryModel(k: string, own: set<object>): Entry
      requires k in entries && Owns(k, own)
      reads this, own
      decreases own, 0
    {
      if entries[k].node == null then Leaf(entries[k].value, entries[k].pinned)
      else Sub(entries[k].node.Model(), entries[k].pinned)
    }

    /** The node is n everywhere but under key, using only the objects in own. */
    ghost predicate AgreesBut(n: Node, key: string, own: set<object>)
      reads this, own
    {
      && this in own
      && keys == n.keys && entries.Keys == n.entries.Keys
      && (forall k | k in entries && k != key :: Owns(k, own) && EntryModel(k, own) == n.entries[k])
      && (forall j, k | j in entries && k in entries && j != k && j != key && k != key :: Apart(j, k, own))
    }

    lemma AgreesWithModel(key: string)
      requires Valid()
      ensures AgreesBut(Model(), key, Repr)
    {
    }

    constructor ()
      ensures Valid() && fresh(Repr) && Model() == EMPTY
    {
      keys, entries := [], map[];
      Repr := {this};
    }

    /** Stores a slot under key, at the end if the key is new. What the node holds
        elsewhere is given by n and own. */
    method Store(key: string, slot: Slot, ghost n: Node, ghost own: set<object>)
      requires AgreesBut(n, key, own)
      requires slot.node != null ==> slot.node.Valid() && slot.node in slot.node.Repr && slot.node.Repr !! own
      modifies this
      ensures Valid() && Repr == own + (if slot.node == null then {} else slot.node.Repr)
      ensures entries == old(entries)[key := slot]
      ensures slot.node != null ==>
                && slot.node.Valid() && slot.node.Model() == old(slot.node.Model())
                && slot.node.Repr == old(slot.node.Repr)
      ensures Model() == Put(n, key,
                             if slot.node == null then Leaf(slot.value, slot.pinned)
                             else Sub(slot.node.Model(), slot.pinned))
    {
      if key !in entries {
        keys := keys + [key];
      }
      entries := entries[key := slot];
      Repr := own + (if slot.node == null then {} else slot.node.Repr);
      ghost var e := if slot.node == null then Leaf(slot.value, slot.pinned) else Sub(slot.node.Model(), slot.pinned);
      forall k | k in entries && k != key ensures Owns(k, own) && EntryModel(k, own) == n.entries[k] {
        assert old(Owns(k, own) && EntryModel(k, own) == n.entries[k]);
      }
      forall j, k | j in entries && k in entries && j != k && j != key && k != key ensures Apart(j, k, own) {
        assert old(Apart(j, k, own));
      }
      Assembles(Put(n, key, e), key, own);
    }

    lemma Assembles(n: Node, key: string, own: set<object>)
      requires AgreesBut(n, key, own) && key in entries
      requires var c := entries[key].node;
               if c == null then Repr == own && n.entries[key] == Leaf(entries[key].value, entries[key].pinned)
               else c.Valid() && c in c.Repr && c.Repr !! own && Repr == own + c.Repr
                    && n.entries[key] == Sub(c.Model(), entries[key].pinned)
      ensures Valid() && Model() == n
    {
      forall k | k in entries ensures Owns(k, Repr) {
        if k != key {
          assert Owns(k, own);
        }
      }
      forall j, k | j in entries && k in entries && j != k ensures Apart(j, k, Repr) {
        assert j != key ==> Owns(j, own);
        assert k != key ==> Owns(k, own);
        if j != key && k != key {
          assert Apart(j, k, own);
        }
      }
      forall k | k in entries ensures EntryModel(k, Repr) == n.entries[k] {
        if k != key {
          assert EntryModel(k, own) == n.entries[k];
        }
      }
    }

    /** child: the nested node for key, made if key is absent or holds a scalar that
        is not pinned; a detached one if the scalar is pinned. */
    method Child(key: string) returns (c: DedupNode)
      requires Valid()
      modifies this
      ensures Valid() && c.Valid() && fresh(Repr - old(Repr)) && key in entries
      ensures c.Model() == Dedup.Child(old(Model()), key)
      ensures Detached(old(Model()), key) ==>
                && fresh(c.Repr) && c.Repr !! Repr
                && Model() == old(Model()) && Repr == old(Repr)
      ensures !Detached(old(Model()), key) ==>
                && key in entries && entries[key].node == c && c in Repr && c.Repr <= Repr
                && entries[key].pinned == PinnedAt(old(Model()), key)
                && Model() == Put(old(Model()), key, Sub(c.Model(), PinnedAt(old(Model()), key)))
    {
      ghost var n := Model();
      AgreesWithModel(key);
      if key in entries {
        if entries[key].node == null {
          c := new DedupNode();
          if !entries[key].pinned {
            Store(key, Slot(Null, c, false), n, Repr);
          }
        } else {
          c := entries[key].node;
          assert Owns(key, Repr);
          assert n.entries[key] == EntryModel(key, Repr);
        }
      } else {
        c := new DedupNode();
        Store(key, Slot(Null, c, false), n, Repr);
      }
    }

    /** The node is its own tree everywhere but in the subtree under key. */
    lemma OpensAt(key: string)
      requires Valid() && key in entries && entries[key].node != null
      ensures Owns(key, Repr)
      ensures AgreesBut(Model(), key, Repr - entries[key].node.Repr)
    {
      assert Owns(key, Repr);
      var own := Repr - entries[key].node.Repr;
      forall k | k in entries && k != key ensures Owns(k, own) && EntryModel(k, own) == Model().entries[k] {
        assert Owns(k, Repr) && Apart(k, key, Repr);
        assert EntryModel(k, Repr) == Model().entries[k];
      }
      forall j, k | j in entries && k in entries && j != k && j != key && k != key ensures Apart(j, k, own) {
        assert Apart(j, k, Repr);
      }
    }

    /** insert. */
    method Insert(a: Attr, pinned: bool)
      requires Valid()
      modifies Repr
      ensures Valid() && fresh(Repr - old(Repr))
      ensures Model() == Dedup.Insert(old(Model()), a, pinned)
      decreases a, 0
    {
      ghost var n := Model();
      AgreesWithModel(a.key);
      if a.value.Group? {
        if a.key == "" {
          InsertEach(a.value.members, pinned);
        } else if a.value.members != [] && !(a.key in entries && entries[a.key].pinned && !pinned) {
          InsertGroup(a.key, a.value.members, pinned);
        }
      } else if a != ZERO && !(a.key in entries && entries[a.key].pinned && !pinned) {
        Store(a.key, Slot(a.value, null, pinned || (a.key in entries && entries[a.key].pinned)), n, Repr);
      }
    }

    /** The loop over members that insert runs in place. */
    method InsertEach(attrs: seq<Attr>, pinned: bool)
      requires Valid()
      modifies Repr
      ensures Valid() && fresh(Repr - old(Repr))
      ensures Model() == InsertAll(old(Model()), attrs, pinned)
      decreases attrs, 1
    {
      var i := 0;
      while i < |attrs|
        invariant 0 <= i <= |attrs|
        invariant Valid() && fresh(Repr - old(Repr))
        invariant InsertAll(Model(), attrs[i..], pinned) == InsertAll(old(Model()), attrs, pinned)
      {
        assert attrs[i..][0] == attrs[i] && attrs[i..][1..] == attrs[i + 1..];
        Insert(attrs[i], pinned);
        i := i + 1;
      }
      assert attrs[i..] == [];
    }

    /** insert for a group value under a key of its own. A detached node takes the
        members of a group that has no place, and is forgotten. */
    method InsertGroup(key: string, members: seq<Attr>, pinned: bool)
      requires Valid() && !(PinnedAt(Model(), key) && !pinned)
      modifies Repr
      ensures Valid() && fresh(Repr - old(Repr))
      ensures Model() ==
                if Detached(old(Model()), key) then old(Model())
                else Put(old(Model()), key,
                         Sub(InsertAll(Dedup.Child(old(Model()), key), members, pinned),
                             PinnedAt(old(Model()), key) || pinned))
      decreases members, 3
    {
      var sub := Child(key);
      if entries[key].node == sub {
        InsertUnder(key, sub, members, pinned);
      } else {
        sub.InsertEach(members, pinned);
      }
    }

    method InsertUnder(key: string, sub: DedupNode, members: seq<Attr>, pinned: bool)
      requires Valid() && key in entries && entries[key].node == sub && sub in Repr && sub.Repr <= Repr && sub.Valid()
      modifies Repr
      ensures Valid() && fresh(Repr - old(Repr))
      ensures Model() == Put(old(Model()), key,
                             Sub(InsertAll(old(sub.Model()), members, pinned), old(entries[key].pinned) || pinned))
      decreases members, 2
    {
      ghost var n := Model();
      OpensAt(key);
      ghost var own := Repr - sub.Repr;
      sub.InsertEach(members, pinned);
      Store(key, entries[key].(pinned := entries[key].pinned || pinned), n, own);
    }

    /** Takes a finished subtree under key back into what this node owns. */
    ghost method Adopt(key: string, n: Node, own: set<object>)
      requires AgreesBut(n, key, own) && key in entries && entries[key].node != null
      requires entries[key].node.Valid() && entries[key].node in entries[key].node.Repr
      requires entries[key].node.Repr !! own
      modifies this`Repr
      ensures Valid() && Repr == own + old(entries[key].node.Repr)
      ensures Model() == Put(n, key, Sub(old(entries[key].node.Model()), entries[key].pinned))
    {
      var c := entries[key].node;
      var e := Sub(c.Model(), entries[key].pinned);
      Repr := own + c.Repr;
      forall k | k in entries && k != key ensures Owns(k, own) && EntryModel(k, own) == n.entries[k] {
        assert old(Owns(k, own) && EntryModel(k, own) == n.entries[k]);
      }
      forall j, k | j in entries && k in entries && j != k && j != key && k != key ensures Apart(j, k, own) {
        assert old(Apart(j, k, own));
      }
      Assembles(Put(n, key, e), key, own);
    }

    /** materialize. */
    method Materialize(reserved: set<string>) returns (out: seq<Attr>)
      requires Valid() && NamesMatch(Model())
      ensures out == Dedup.Materialize(Model(), reserved)
      decreases Repr, 1
    {
      ghost var n := Model();
      out := [];
      var i := 0;
      while i < |keys|
        invariant 0 <= i <= |keys|
        invariant out + Render(n, keys[i..], reserved) == Render(n, keys, reserved)
      {
        var k := keys[i];
        assert keys[i..][0] == k && keys[i..][1..] == keys[i + 1..];
        assert k in n.entries;
        var one := RenderEntry(k, reserved);
        out := out + one;
        i := i + 1;
      }
      assert keys[i..] == [];
    }

    /** One turn of materialize's loop. */
    method RenderEntry(k: string, reserved: set<string>) returns (one: seq<Attr>)
      requires Valid() && k in entries && NamesMatch(Model())
      ensures one == RenderOne(Model(), k, reserved)
      decreases Repr, 0
    {
      ghost var n := Model();
      assert n.entries[k] == EntryModel(k, Repr) && Owns(k, Repr);
      var key := if k in reserved then "attr." + k else k;
      if entries[k].node == null {
        one := [Attr(key, entries[k].value)];
      } else {
        var members := entries[k].node.Materialize({});
        one := if members == [] then [] else [Attr(key, Group(members))];
      }
    }
  }

  /** Every key a node lists has an entry, at every depth. */
  ghost predicate NamesMatch(n: Node)
    decreases n
  {
    && (forall k | k in n.keys :: k in n.entries)
    && (forall k | k in n.entries && n.entries[k].Sub? :: NamesMatch(n.entries[k].node))
  }
}
