/** A Handle call as a sequence of single write events, and what the tree holds in
    terms of those events alone: at each path the last write nothing undid, at each
    level the keys in the order they were first written since that level was made. */
module DedupEvents {
  import opened Basics
  import opened Attrs
  import opened Dedup
  import opened DedupShape
  import opened DedupPins

  /** One key of a path, and whether WithGroup opened it (rather than a group value
      inserted there): only WithGroup gets inside a pinned group. */
  datatype Step = Step(key: string, held: bool)

  /** A scalar written at a path, or a group opened there. */
  datatype Event = Event(steps: seq<Step>, value: Option<Value>)

  function Under(st: Step, events: seq<Event>): seq<Event> {
    if events == [] then [] else [Event([st] + events[0].steps, events[0].value)] + Under(st, events[1..])
  }

  function Writes(a: Attr): seq<Event>
    decreases a, 0
  {
    match a.value
    case Group(members) =>
      if a.key == "" then AllWrites(members)
      else if members == [] then []
      else [Event([Step(a.key, false)], None)] + Under(Step(a.key, false), AllWrites(members))
    case _ => if a == ZERO then [] else [Event([Step(a.key, false)], Some(a.value))]
  }

  function AllWrites(attrs: seq<Attr>): seq<Event>
    decreases attrs, 1
  {
    if attrs == [] then [] else Writes(attrs[0]) + AllWrites(attrs[1..])
  }

  function Events(ops: seq<Op>, record: seq<Attr>): seq<Event> {
    if ops == [] then AllWrites(record) else
    match ops[0]
    case Held(attrs) => AllWrites(attrs) + Events(ops[1..], record)
    case Open(g) => [Event([Step(g, true)], None)] + Under(Step(g, true), Events(ops[1..], record))
  }

  predicate Proper(events: seq<Event>) {
    forall i | 0 <= i < |events| :: events[i].steps != []
  }

  /** The step does not get past the key: a pinned scalar, or a pinned group met by
      an inserted group. */
  predicate Stopped(n: Node, st: Step) {
    PinnedAt(n, st.key) && (n.entries[st.key].Leaf? || !st.held)
  }

  /** One write event on the tree. */
  function Apply(n: Node, e: Event): Node
    requires e.steps != []
    decreases |e.steps|
  {
    var st, k := e.steps[0], e.steps[0].key;
    if |e.steps| == 1 && e.value.Some? then
      if PinnedAt(n, k) then n else Put(n, k, Leaf(e.value.value, false))
    else if Stopped(n, st) then n
    else Put(n, k, Sub(if |e.steps| == 1 then Child(n, k) else Apply(Child(n, k), Event(e.steps[1..], e.value)),
                       PinnedAt(n, k)))
  }

  function Fold(n: Node, events: seq<Event>): Node
    requires Proper(events)
    decreases |events|
  {
    if events == [] then n else Fold(Apply(n, events[0]), events[1..])
  }

  // ---- a Handle call is the fold of its events ----

  lemma {:induction false} UnderProper(st: Step, events: seq<Event>)
    ensures Proper(Under(st, events))
  {
    if events != [] {
      UnderProper(st, events[1..]);
    }
  }

  lemma {:induction false} WritesProper(a: Attr)
    ensures Proper(Writes(a))
    decreases a, 0
  {
    match a.value
    case Group(members) =>
      AllWritesProper(members);
      UnderProper(Step(a.key, false), AllWrites(members));
    case _ =>
  }

  lemma {:induction false} AllWritesProper(attrs: seq<Attr>)
    ensures Proper(AllWrites(attrs))
    decreases attrs, 1
  {
    if attrs != [] {
      WritesProper(attrs[0]);
      AllWritesProper(attrs[1..]);
    }
  }

  lemma {:induction false} EventsProper(ops: seq<Op>, record: seq<Attr>)
    ensures Proper(Events(ops, record))
  {
    AllWritesProper(record);
    if ops != [] {
      EventsProper(ops[1..], record);
      if ops[0].Held? {
        AllWritesProper(ops[0].attrs);
      } else {
        UnderProper(Step(ops[0].group, true), Events(ops[1..], record));
      }
    }
  }

  lemma {:induction false} FoldConcat(n: Node, a: seq<Event>, b: seq<Event>)
    requires Proper(a) && Proper(b)
    ensures Proper(a + b) && Fold(n, a + b) == Fold(Fold(n, a), b)
    decreases |a|
  {
    if a == [] {
      assert a + b == b;
    } else {
      assert (a + b)[0] == a[0] && (a + b)[1..] == a[1..] + b;
      FoldConcat(Apply(n, a[0]), a[1..], b);
    }
  }

  lemma PutTwice(n: Node, k: string, a: Entry, b: Entry)
    ensures Put(Put(n, k, a), k, b) == Put(n, k, b)
  {
  }

  /** Events under one open group act inside it. */
  lemma {:induction false} FoldInside(n: Node, st: Step, c: Node, pinned: bool, events: seq<Event>)
    requires Proper(events) && (pinned ==> st.held)
    ensures Proper(Under(st, events))
    ensures Fold(Put(n, st.key, Sub(c, pinned)), Under(st, events)) == Put(n, st.key, Sub(Fold(c, events), pinned))
    decreases |events|
  {
    UnderProper(st, events);
    if events != [] {
      var n1, e := Put(n, st.key, Sub(c, pinned)), Event([st] + events[0].steps, events[0].value);
      assert Under(st, events)[0] == e && Under(st, events)[1..] == Under(st, events[1..]);
      assert e.steps[1..] == events[0].steps && Event(e.steps[1..], e.value) == events[0];
      assert Apply(n1, e) == Put(n1, st.key, Sub(Apply(c, events[0]), pinned));
      PutTwice(n, st.key, Sub(c, pinned), Sub(Apply(c, events[0]), pinned));
      FoldInside(n, st, Apply(c, events[0]), pinned, events[1..]);
    }
  }

  lemma {:induction false} FoldStopped(n: Node, st: Step, events: seq<Event>)
    requires Proper(events) && Stopped(n, st)
    ensures Proper(Under(st, events)) && Fold(n, Under(st, events)) == n
    decreases |events|
  {
    UnderProper(st, events);
    if events != [] {
      var e := Event([st] + events[0].steps, events[0].value);
      assert Under(st, events)[0] == e && Under(st, events)[1..] == Under(st, events[1..]);
      FoldStopped(n, st, events[1..]);
    }
  }

  /** Opening a group and writing under it. */
  lemma FoldGroup(n: Node, st: Step, events: seq<Event>)
    requires Proper(events)
    ensures var all := [Event([st], None)] + Under(st, events);
            && Proper(all)
            && Fold(n, all) == if Stopped(n, st) then n
                               else Put(n, st.key, Sub(Fold(Child(n, st.key), events), PinnedAt(n, st.key)))
  {
    UnderProper(st, events);
    var all := [Event([st], None)] + Under(st, events);
    assert all[0] == Event([st], None) && all[1..] == Under(st, events);
    if Stopped(n, st) {
      FoldStopped(n, st, events);
    } else {
      FoldInside(n, st, Child(n, st.key), PinnedAt(n, st.key), events);
    }
  }

  lemma {:induction false} InsertIsFold(n: Node, a: Attr)
    ensures Proper(Writes(a)) && Insert(n, a, false) == Fold(n, Writes(a))
    decreases a, 0
  {
    WritesProper(a);
    match a.value
    case Group(members) =>
      if a.key == "" {
        InsertAllIsFold(n, members);
      } else if members != [] {
        InsertAllIsFold(Child(n, a.key), members);
        FoldGroup(n, Step(a.key, false), AllWrites(members));
      }
    case _ =>
      if a != ZERO {
        assert Writes(a)[1..] == [];
      }
  }

  lemma {:induction false} InsertAllIsFold(n: Node, attrs: seq<Attr>)
    ensures Proper(AllWrites(attrs)) && InsertAll(n, attrs, false) == Fold(n, AllWrites(attrs))
    decreases attrs, 1
  {
    if attrs != [] {
      InsertIsFold(n, attrs[0]);
      InsertAllIsFold(Fold(n, Writes(attrs[0])), attrs[1..]);
      FoldConcat(n, Writes(attrs[0]), AllWrites(attrs[1..]));
    }
  }

  /** Replaying held ops and a record through the moving node is folding their write
      events, one by one, from the root. */
  lemma {:induction false} ReplayIsFold(n: Node, ops: seq<Op>, record: seq<Attr>)
    ensures Proper(Events(ops, record)) && Replay(n, ops, record) == Fold(n, Events(ops, record))
    decreases |ops|
  {
    EventsProper(ops, record);
    if ops == [] {
      InsertAllIsFold(n, record);
    } else {
      EventsProper(ops[1..], record);
      match ops[0]
      case Held(attrs) =>
        InsertAllIsFold(n, attrs);
        ReplayIsFold(InsertAll(n, attrs, false), ops[1..], record);
        FoldConcat(n, AllWrites(attrs), Events(ops[1..], record));
      case Open(g) =>
        ReplayIsFold(Child(n, g), ops[1..], record);
        FoldGroup(n, Step(g, true), Events(ops[1..], record));
    }
  }

  // ---- which events are blocked ----

  /** The event stops at something pinned. */
  predicate Blocked(n: Node, e: Event)
    requires e.steps != []
    decreases |e.steps|
  {
    if |e.steps| == 1 && e.value.Some? then PinnedAt(n, e.steps[0].key)
    else Stopped(n, e.steps[0]) || (|e.steps| > 1 && Blocked(Child(n, e.steps[0].key), Event(e.steps[1..], e.value)))
  }

  /** n's pinned entries are exactly p's, at every depth. */
  ghost predicate SamePins(p: Node, n: Node)
    decreases n
  {
    && (forall k | k in p.entries :: k in n.entries && (p.entries[k].Leaf? <==> n.entries[k].Leaf?))
    && (forall k | k in n.entries :: n.entries[k].pinned <==> k in p.entries)
    && (forall k | k in n.entries && n.entries[k].Sub? :: SamePins(Child(p, k), n.entries[k].node))
  }

  lemma {:induction false} OwnPins(p: Node)
    requires AllPinned(p)
    ensures SamePins(p, p)
    decreases p
  {
    forall k | k in p.entries && p.entries[k].Sub? ensures SamePins(Child(p, k), p.entries[k].node) {
      OwnPins(p.entries[k].node);
    }
  }

  lemma {:induction false} BlockedByPins(p: Node, n: Node, e: Event)
    requires SamePins(p, n) && AllPinned(p) && e.steps != []
    ensures Blocked(n, e) == Blocked(p, e)
    decreases |e.steps|
  {
    var k := e.steps[0].key;
    if |e.steps| > 1 {
      if k in n.entries && n.entries[k].Sub? {
        BlockedByPins(Child(p, k), Child(n, k), Event(e.steps[1..], e.value));
      } else {
        BlockedByPins(EMPTY, EMPTY, Event(e.steps[1..], e.value));
      }
    }
  }

  lemma {:induction false} BlockedDoesNothing(n: Node, e: Event)
    requires e.steps != [] && Blocked(n, e)
    ensures Apply(n, e) == n
    decreases |e.steps|
  {
    if |e.steps| > 1 && !Stopped(n, e.steps[0]) {
      var k := e.steps[0].key;
      BlockedDoesNothing(Child(n, k), Event(e.steps[1..], e.value));
      if k !in n.entries || n.entries[k].Leaf? {
        NothingBlocksEmpty(Event(e.steps[1..], e.value));
      }
    }
  }

  lemma {:induction false} NothingBlocksEmpty(e: Event)
    requires e.steps != []
    ensures !Blocked(EMPTY, e)
    decreases |e.steps|
  {
    if |e.steps| > 1 {
      NothingBlocksEmpty(Event(e.steps[1..], e.value));
    }
  }

  lemma {:induction false} ApplyKeepsPins(p: Node, n: Node, e: Event)
    requires SamePins(p, n) && AllPinned(p) && e.steps != []
    ensures SamePins(p, Apply(n, e))
    decreases |e.steps|
  {
    var k := e.steps[0].key;
    if |e.steps| > 1 && !Stopped(n, e.steps[0]) {
      if k in n.entries && n.entries[k].Sub? {
        ApplyKeepsPins(Child(p, k), Child(n, k), Event(e.steps[1..], e.value));
      } else {
        ApplyKeepsPins(EMPTY, EMPTY, Event(e.steps[1..], e.value));
      }
    }
  }

  // ---- what one event changes ----

  function Path(e: Event): seq<string> {
    Names(e.steps)
  }

  function Names(steps: seq<Step>): seq<string> {
    if steps == [] then [] else [steps[0].key] + Names(steps[1..])
  }

  /** The event leaves no older scalar at the path: it writes there, above it or
      below it, or opens a group there or below it. */
  predicate Undoes(e: Event, path: seq<string>) {
    path <= Path(e) || (e.value.Some? && Path(e) <= path)
  }

  lemma ConsPrefix(x: string, a: seq<string>, y: string, b: seq<string>)
    ensures [x] + a <= [y] + b <==> x == y && a <= b
  {
    if [x] + a <= [y] + b {
      assert ([x] + a)[0] == ([y] + b)[0];
      assert a == ([x] + a)[1..] && b == ([y] + b)[1..];
    }
  }

  lemma PathTail(e: Event, path: seq<string>)
    requires e.steps != [] && path != []
    ensures Path(e) == [e.steps[0].key] + Path(Event(e.steps[1..], e.value))
    ensures path == [path[0]] + path[1..]
    ensures path <= Path(e) <==> path[0] == e.steps[0].key && path[1..] <= Path(Event(e.steps[1..], e.value))
    ensures Path(e) <= path <==> path[0] == e.steps[0].key && Path(Event(e.steps[1..], e.value)) <= path[1..]
  {
    ConsPrefix(path[0], path[1..], e.steps[0].key, Names(e.steps[1..]));
    ConsPrefix(e.steps[0].key, Names(e.steps[1..]), path[0], path[1..]);
  }

  lemma {:induction false} LookupAfter(n: Node, e: Event, path: seq<string>)
    requires e.steps != [] && path != [] && !Blocked(n, e)
    ensures Lookup(Apply(n, e), path) ==
              if e.value.Some? && Path(e) == path then e.value
              else if Undoes(e, path) then None
              else Lookup(n, path)
    decreases |e.steps|
  {
    var k, rest, tail := e.steps[0].key, Event(e.steps[1..], e.value), path[1..];
    PathTail(e, path);
    if |e.steps| > 1 {
      if path[0] == k {
        if tail == [] {
          assert path <= Path(e);
        } else {
          LookupAfter(Child(n, k), rest, tail);
        }
      }
    } else {
      assert Path(rest) == [];
    }
  }

  /** The i-th event wrote v at the path and no later unblocked event undid it. */
  ghost predicate LastWrite(p: Node, events: seq<Event>, path: seq<string>, v: Value, i: nat)
    requires Proper(events)
  {
    && i < |events| && !Blocked(p, events[i]) && events[i].value == Some(v) && Path(events[i]) == path
    && Untouched(p, events, path, i + 1)
  }

  /** No unblocked event from the i-th on undoes the path. */
  ghost predicate Untouched(p: Node, events: seq<Event>, path: seq<string>, i: nat)
    requires Proper(events)
  {
    forall j | i <= j < |events| :: Blocked(p, events[j]) || !Undoes(events[j], path)
  }

  /** Last unblocked write wins: a path holds v exactly when some event wrote v there
      and nothing after it undid that, or it was pinned to v and nothing undid that. */
  lemma {:induction false} LastWriteWins(p: Node, events: seq<Event>, path: seq<string>, v: Value)
    requires Proper(events) && AllPinned(p) && path != []
    ensures SamePins(p, Fold(p, events))
    ensures Lookup(Fold(p, events), path) == Some(v) <==>
              || (exists i: nat :: LastWrite(p, events, path, v, i))
              || (Lookup(p, path) == Some(v) && Untouched(p, events, path, 0))
    decreases |events|
  {
    if events == [] {
      OwnPins(p);
    } else {
      var init, e := events[..|events| - 1], events[|events| - 1];
      assert events == init + [e];
      FoldConcat(p, init, [e]);
      assert [e][1..] == [];
      var n := Fold(p, init);
      assert Fold(p, events) == Apply(n, e);
      LastWriteWins(p, init, path, v);
      BlockedByPins(p, n, e);
      ApplyKeepsPins(p, n, e);
      LastWriteSnoc(p, init, e, path, v);
      if Blocked(p, e) {
        BlockedDoesNothing(n, e);
      } else {
        LookupAfter(n, e, path);
        if e.value == Some(v) && Path(e) == path {
          assert LastWrite(p, events, path, v, |init|);
        }
      }
    }
  }

  lemma LastWriteSnoc(p: Node, init: seq<Event>, e: Event, path: seq<string>, v: Value)
    requires Proper(init) && e.steps != []
    ensures Proper(init + [e])
    ensures Untouched(p, init + [e], path, 0) <==> Untouched(p, init, path, 0) && (Blocked(p, e) || !Undoes(e, path))
    ensures (exists i: nat :: LastWrite(p, init + [e], path, v, i)) <==>
              || LastWrite(p, init + [e], path, v, |init|)
              || ((exists i: nat :: LastWrite(p, init, path, v, i)) && (Blocked(p, e) || !Undoes(e, path)))
  {
    var all := init + [e];
    assert forall j | 0 <= j < |init| :: all[j] == init[j];
    assert all[|init|] == e;
    forall i: nat | i < |init|
      ensures LastWrite(p, all, path, v, i) <==> LastWrite(p, init, path, v, i) && (Blocked(p, e) || !Undoes(e, path))
    {
    }
    if i: nat :| LastWrite(p, init, path, v, i) && (Blocked(p, e) || !Undoes(e, path)) {
      assert LastWrite(p, all, path, v, i);
    }
  }

  // ---- the order of keys ----

  /** The keys of the group at a path, in order; none where there is no group. */
  function KeysAt(n: Node, path: seq<string>): seq<string>
    decreases |path|
  {
    if path == [] then n.keys
    else if path[0] in n.entries && n.entries[path[0]].Sub? then KeysAt(n.entries[path[0]].node, path[1..])
    else []
  }

  predicate StrictPrefix(a: seq<string>, b: seq<string>) {
    a <= b && |a| < |b|
  }

  /** What one event does to the keys at a path: a scalar at or above it leaves no
      group there; a write below it appends its key if it is new. */
  function KeysAfter(keys: seq<string>, e: Event, path: seq<string>): seq<string> {
    if e.value.Some? && Path(e) <= path then []
    else if StrictPrefix(path, Path(e)) then
      var k := Path(e)[|path|]; if k in keys then keys else keys + [k]
    else keys
  }

  lemma {:induction false} KeysAtEmpty(path: seq<string>)
    ensures KeysAt(EMPTY, path) == []
  {
  }

  /** Each node's key list names exactly its entries. */
  ghost predicate Matched(n: Node)
    decreases n
  {
    && (forall k :: k in n.keys <==> k in n.entries)
    && (forall k | k in n.entries && n.entries[k].Sub? :: Matched(n.entries[k].node))
  }

  lemma {:induction false} ApplyMatched(n: Node, e: Event)
    requires Matched(n) && e.steps != []
    ensures Matched(Apply(n, e))
    decreases |e.steps|
  {
    if |e.steps| > 1 {
      ApplyMatched(Child(n, e.steps[0].key), Event(e.steps[1..], e.value));
    }
  }

  lemma {:induction false} WFMatched(n: Node)
    requires WF(n)
    ensures Matched(n)
    decreases n
  {
    forall k | k in n.entries && n.entries[k].Sub? ensures Matched(n.entries[k].node) {
      assert EntryWF(n, k);
      WFMatched(n.entries[k].node);
    }
  }

  lemma {:induction false} ApplyKeys(n: Node, e: Event, path: seq<string>)
    requires Matched(n) && e.steps != [] && !Blocked(n, e)
    ensures KeysAt(Apply(n, e), path) == KeysAfter(KeysAt(n, path), e, path)
    decreases |e.steps|
  {
    var k, rest := e.steps[0].key, Event(e.steps[1..], e.value);
    assert Path(e) == [k] + Path(rest);
    if path == [] {
      assert Path(e)[0] == k;
    } else {
      PathTail(e, path);
      KeysAtEmpty(path[1..]);
      if path[0] == k {
        if |e.steps| > 1 {
          ApplyKeys(Child(n, k), rest, path[1..]);
          assert StrictPrefix(path, Path(e)) ==> Path(e)[|path|] == Path(rest)[|path| - 1];
        }
      }
    }
  }

  /** The keys at a path after a run of events, blocked ones left out. */
  function KeysThrough(p: Node, keys: seq<string>, events: seq<Event>, path: seq<string>): seq<string>
    requires Proper(events)
    decreases |events|
  {
    if events == [] then keys
    else KeysThrough(p, if Blocked(p, events[0]) then keys else KeysAfter(keys, events[0], path), events[1..], path)
  }

  /** First-write position: the keys of a level are those first written there since
      the level was last made, in that order, behind the pinned ones. */
  lemma {:induction false} FirstWriteOrder(p: Node, n: Node, events: seq<Event>, path: seq<string>)
    requires Proper(events) && AllPinned(p) && SamePins(p, n) && Matched(n)
    ensures KeysAt(Fold(n, events), path) == KeysThrough(p, KeysAt(n, path), events, path)
    decreases |events|
  {
    if events != [] {
      var e := events[0];
      BlockedByPins(p, n, e);
      ApplyKeepsPins(p, n, e);
      ApplyMatched(n, e);
      if Blocked(n, e) {
        BlockedDoesNothing(n, e);
      } else {
        ApplyKeys(n, e, path);
      }
      FirstWriteOrder(p, Apply(n, e), events[1..], path);
    }
  }

  /** A whole Handle call: what the tree holds at every path and the order of the
      keys at every level, in terms of the call's write events. */
  lemma TreeOfEvents(h: Handler, record: seq<Attr>, path: seq<string>, v: Value)
    requires path != []
    ensures var n, events := Replay(PinnedTree(h), h.ops, record), Events(h.ops, record);
            && Proper(events)
            && (Lookup(n, path) == Some(v) <==>
                  || (exists i: nat :: LastWrite(PinnedTree(h), events, path, v, i))
                  || (Lookup(PinnedTree(h), path) == Some(v) && Untouched(PinnedTree(h), events, path, 0)))
            && KeysAt(n, path) == KeysThrough(PinnedTree(h), KeysAt(PinnedTree(h), path), events, path)
            && n.keys == KeysThrough(PinnedTree(h), PinnedTree(h).keys, events, [])
  {
    var p, events := PinnedTree(h), Events(h.ops, record);
    ReplayIsFold(p, h.ops, record);
    PinnedAll(EMPTY, h.pinned);
    InsertAllKeepsWF(EMPTY, h.pinned, true);
    WFMatched(p);
    OwnPins(p);
    LastWriteWins(p, events, path, v);
    FirstWriteOrder(p, p, events, path);
    FirstWriteOrder(p, p, events, []);
  }
}
