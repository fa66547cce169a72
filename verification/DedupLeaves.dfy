/** What a Handle call of the dedup handler writes, read off the attributes themselves. */
module DedupLeaves {
  import opened Basics
  import opened Attrs
  import opened Dedup
  import opened DedupEvents
  import T = AttrTrees

  function OneWritten(under: seq<string>, e: Event): seq<T.Leaf>
    requires e.steps != []
  {
    var names := Names(e.steps);
    if e.value.None? then [] else [T.Leaf(under + names[..|names| - 1], names[|names| - 1], e.value.value)]
  }

  /** The scalars of the events, each with the names it was written under. */
  function Written(under: seq<string>, events: seq<Event>): seq<T.Leaf>
    requires Proper(events)
  {
    if events == [] then [] else OneWritten(under, events[0]) + Written(under, events[1..])
  }

  /** The names that are not empty. */
  function Named(path: seq<string>): seq<string> {
    if path == [] then [] else Named(path[..|path| - 1]) + (if path[|path| - 1] == "" then [] else [path[|path| - 1]])
  }

  function OneShown(l: T.Leaf): seq<T.Leaf> {
    if l.key == "" && l.value.Null? then [] else [T.Leaf(Named(l.path), l.key, l.value)]
  }

  /** The leaves as slog shows them: groups without a name inlined, zero attributes left
      out. */
  function Shown(leaves: seq<T.Leaf>): seq<T.Leaf> {
    if leaves == [] then [] else OneShown(leaves[0]) + Shown(leaves[1..])
  }

  lemma {:induction false} ShownConcat(a: seq<T.Leaf>, b: seq<T.Leaf>)
    ensures Shown(a + b) == Shown(a) + Shown(b)
    decreases |a|
  {
    if a == [] {
      assert a + b == b;
    } else {
      ShownConcat(a[1..], b);
      assert (a + b)[0] == a[0] && (a + b)[1..] == a[1..] + b;
      Associates(OneShown(a[0]), Shown(a[1..]), Shown(b));
    }
  }

  lemma ProperParts(a: seq<Event>, b: seq<Event>)
    requires Proper(a) && Proper(b)
    ensures Proper(a + b)
  {
  }

  lemma {:induction false} WrittenConcat(under: seq<string>, a: seq<Event>, b: seq<Event>)
    requires Proper(a) && Proper(b)
    ensures Proper(a + b) && Written(under, a + b) == Written(under, a) + Written(under, b)
    decreases |a|
  {
    ProperParts(a, b);
    if a == [] {
      assert a + b == b;
    } else {
      assert Proper(a[1..]);
      WrittenConcat(under, a[1..], b);
      assert (a + b)[0] == a[0] && (a + b)[1..] == a[1..] + b;
      Associates(OneWritten(under, a[0]), Written(under, a[1..]), Written(under, b));
    }
  }

  lemma {:induction false} WrittenUnder(under: seq<string>, st: Step, events: seq<Event>)
    requires Proper(events)
    ensures Proper(Under(st, events)) && Written(under, Under(st, events)) == Written(under + [st.key], events)
    decreases |events|
  {
    UnderProper(st, events);
    if events != [] {
      WrittenUnder(under, st, events[1..]);
      OneUnder(under, st, events[0]);
      var e := Event([st] + events[0].steps, events[0].value);
      assert Under(st, events)[0] == e && Under(st, events)[1..] == Under(st, events[1..]);
    }
  }

  lemma OneUnder(under: seq<string>, st: Step, e: Event)
    requires e.steps != []
    ensures OneWritten(under, Event([st] + e.steps, e.value)) == OneWritten(under + [st.key], e)
  {
    var names := Names(e.steps);
    assert ([st] + e.steps)[1..] == e.steps;
    assert Names([st] + e.steps) == [st.key] + names;
    assert under + ([st.key] + names)[..|names|] == under + [st.key] + names[..|names| - 1];
  }

  lemma NamedSnoc(path: seq<string>, x: string)
    ensures Named(path + [x]) == Named(path) + (if x == "" then [] else [x])
  {
    assert (path + [x])[..|path|] == path;
  }

  lemma OneEvent(under: seq<string>, k: string, v: Option<Value>)
    ensures var e := Event([Step(k, false)], v);
            Proper([e]) && Written(under, [e]) == if v.None? then [] else [T.Leaf(under, k, v.value)]
  {
    assert [Event([Step(k, false)], v)][1..] == [];
    assert Names([Step(k, false)]) == [k];
    assert under + [] == under;
  }

  lemma {:induction false} WritesAreLeaves(path: seq<string>, a: Attr)
    ensures Proper(Writes(a)) && Written(Named(path), Writes(a)) == Shown(T.LeavesOf(path, a))
    decreases a, 0
  {
    WritesProper(a);
    match a.value
    case Group(members) =>
      AllWritesAreLeaves(path + [a.key], members);
      NamedSnoc(path, a.key);
      if a.key == "" {
        assert Named(path) + [] == Named(path);
      } else if members != [] {
        var st := Step(a.key, false);
        AllWritesProper(members);
        WrittenUnder(Named(path), st, AllWrites(members));
        OneEvent(Named(path), a.key, None);
        UnderProper(st, AllWrites(members));
        WrittenConcat(Named(path), [Event([st], None)], Under(st, AllWrites(members)));
      }
    case _ =>
      OneEvent(Named(path), a.key, Some(a.value));
      assert T.LeavesOf(path, a)[1..] == [];
  }

  lemma {:induction false} AllWritesAreLeaves(path: seq<string>, attrs: seq<Attr>)
    ensures Proper(AllWrites(attrs)) && Written(Named(path), AllWrites(attrs)) == Shown(T.Leaves(path, attrs))
    decreases attrs, 1
  {
    if attrs != [] {
      WritesAreLeaves(path, attrs[0]);
      AllWritesAreLeaves(path, attrs[1..]);
      WrittenConcat(Named(path), Writes(attrs[0]), AllWrites(attrs[1..]));
      ShownConcat(T.LeavesOf(path, attrs[0]), T.Leaves(path, attrs[1..]));
    }
  }

  /** The values a Handle call writes are, in order, the leaves of the nested tree of what
      was held and recorded: every leaf once, groups without a name inlined, zero
      attributes left out. */
  lemma {:induction false} EventsAreLeaves(path: seq<string>, ops: seq<Op>, record: seq<Attr>)
    requires GroupsNamed(ops)
    ensures Proper(Events(ops, record))
    ensures Written(Named(path), Events(ops, record)) == Shown(T.Leaves(path, Nest(ops, record)))
    decreases |ops|
  {
    EventsProper(ops, record);
    if ops == [] {
      AllWritesAreLeaves(path, record);
    } else {
      var rest, nested := Events(ops[1..], record), Nest(ops[1..], record);
      EventsProper(ops[1..], record);
      match ops[0]
      case Held(attrs) =>
        EventsAreLeaves(path, ops[1..], record);
        AllWritesAreLeaves(path, attrs);
        WrittenConcat(Named(path), AllWrites(attrs), rest);
        T.LeavesConcat(path, attrs, nested);
        ShownConcat(T.Leaves(path, attrs), T.Leaves(path, nested));
      case Open(g) =>
        EventsAreLeaves(path + [g], ops[1..], record);
        NamedSnoc(path, g);
        WrittenUnder(Named(path), Step(g, true), rest);
        OpenIsGroup(Named(path), g, rest);
        T.LeavesSingle(path, Attr(g, Group(nested)));
    }
  }

  lemma OpenIsGroup(under: seq<string>, g: string, rest: seq<Event>)
    requires Proper(rest)
    ensures Proper(Under(Step(g, true), rest))
    ensures var all := [Event([Step(g, true)], None)] + Under(Step(g, true), rest);
            Proper(all) && Written(under, all) == Written(under, Under(Step(g, true), rest))
  {
    UnderProper(Step(g, true), rest);
    var e := Event([Step(g, true)], None);
    assert ([e] + Under(Step(g, true), rest))[1..] == Under(Step(g, true), rest);
  }
}
