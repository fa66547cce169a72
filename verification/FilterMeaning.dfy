/** What filtering means on the whole nested tree: dropping and redacting commute with
    every way of deriving the handler. */
module FilterMeaning {
  import opened Basics
  import opened Attrs
  import opened AttrTrees
  import opened Filter
  import opened FilterHandler

  lemma {:induction false} DeriveAllHolds(h: Handler, ops: seq<Op>)
    requires Built(h)
    ensures DeriveAll(h, ops).config == h.config && Built(DeriveAll(h, ops))
    ensures h.config.rules == [] ==> DeriveAll(h, ops) == Handler(h.next + ops, h.config, [])
    ensures h.config.rules != [] ==> DeriveAll(h, ops) == h.(ops := h.ops + ops)
    decreases |ops|
  {
    if ops == [] {
      assert h.next + ops == h.next && h.ops + ops == h.ops;
    } else {
      DeriveAllHolds(Derive(h, ops[0]), ops[1..]);
      assert h.next + [ops[0]] + ops[1..] == h.next + ops && h.ops + [ops[0]] + ops[1..] == h.ops + ops;
    }
  }

  // ---- dropping ----

  lemma {:induction false} AnyHitIsNested(c: Config, path: seq<string>, ops: seq<Op>, record: seq<Attr>)
    ensures AnyHit(c, path, ops, record) <==> Hit(c, path, Nest(ops, record))
    decreases |ops|
  {
    if ops != [] {
      var rest := Nest(ops[1..], record);
      match ops[0]
      case Held(attrs) =>
        AnyHitIsNested(c, path, ops[1..], record);
        LeavesConcat(path, attrs, rest);
        AnyConcat(c, Leaves(path, attrs), Leaves(path, rest));
      case Open(g) =>
        AnyHitIsNested(c, path + [g], ops[1..], record);
        LeavesSingle(path, Attr(g, Group(rest)));
    }
  }

  /** In drop mode nothing is forwarded exactly when some leaf of the whole nested
      tree, held attributes and record together, is matched by some rule on its bare
      key or its dotted path. Everything else is forwarded as it came. */
  lemma DropsExactly(c: Config, ops: seq<Op>, record: seq<Attr>)
    requires c.mode.Drop?
    ensures var o, leaves := Handled(DeriveAll(NewHandler(c), ops), record), Leaves([], Nest(ops, record));
            && (o == Dropped <==> exists i, r :: 0 <= i < |leaves| && r in c.rules && RuleApplies(c, r, leaves[i]))
            && (o != Dropped ==> o == Forward(ops, record))
  {
    DeriveAllHolds(NewHandler(c), ops);
    AnyHitIsNested(c, [], ops, record);
    var leaves := Leaves([], Nest(ops, record));
    assert [] + ops == ops && ops + [] == ops;
    if c.rules == [] {
      NoRulesNoHits(c, [], record);
    }
    if AnyMatches(c, leaves) {
      var i :| 0 <= i < |leaves| && Matches(c, leaves[i]);
      assert FirstRule(c, c.rules, leaves[i]).value in c.rules;
    }
  }

  // ---- redacting ----

  function RedactLeaves(c: Config, leaves: seq<Leaf>): seq<Leaf> {
    seq(|leaves|, i requires 0 <= i < |leaves| => RedactLeaf(c, leaves[i]))
  }

  lemma RedactLeavesConcat(c: Config, a: seq<Leaf>, b: seq<Leaf>)
    ensures RedactLeaves(c, a + b) == RedactLeaves(c, a) + RedactLeaves(c, b)
  {
  }

  lemma RedactLeavesMiss(c: Config, leaves: seq<Leaf>)
    requires !AnyMatches(c, leaves)
    ensures RedactLeaves(c, leaves) == leaves
  {
    forall i | 0 <= i < |leaves| ensures RedactLeaf(c, leaves[i]) == leaves[i] {
      assert !Matches(c, leaves[i]);
    }
  }

  lemma {:induction false} RedactedAttrLeaves(c: Config, path: seq<string>, a: Attr)
    ensures LeavesOf(path, RedactAttr(c, path, a)) == RedactLeaves(c, LeavesOf(path, a))
    decreases a
  {
    if a.value.Group? {
      var inner, members := path + [a.key], a.value.members;
      if Hit(c, inner, members) {
        LeavesNonEmpty(inner, RedactAll(c, inner, members));
        RedactedLeaves(c, inner, members);
      } else {
        RedactLeavesMiss(c, Leaves(inner, members));
      }
    } else {
      assert LeavesOf(path, a) == [Leaf(path, a.key, a.value)];
    }
  }

  /** Redaction replaces exactly the matching leaves, each by what its first matching
      rule says; every other leaf, every key, every path and the order stay. */
  lemma {:induction false} RedactedLeaves(c: Config, path: seq<string>, attrs: seq<Attr>)
    ensures Leaves(path, RedactAll(c, path, attrs)) == RedactLeaves(c, Leaves(path, attrs))
    decreases attrs
  {
    if attrs != [] {
      RedactedAttrLeaves(c, path, attrs[0]);
      RedactedLeaves(c, path, attrs[1..]);
      var head, tail := RedactAttr(c, path, attrs[0]), RedactAll(c, path, attrs[1..]);
      assert ([head] + tail)[1..] == tail;
      RedactLeavesConcat(c, LeavesOf(path, attrs[0]), Leaves(path, attrs[1..]));
    }
  }

  lemma {:induction false} RedactedNest(c: Config, path: seq<string>, ops: seq<Op>, record: seq<Attr>)
    ensures (Leaves(path, Nest(RedactOps(c, path, ops), RedactAll(c, path + PathOf(ops), record)))
             == RedactLeaves(c, Leaves(path, Nest(ops, record))))
    decreases |ops|
  {
    if ops == [] {
      assert path + PathOf(ops) == path;
      RedactedLeaves(c, path, record);
    } else {
      var op, rest := ops[0], ops[1..];
      var inner := if op.Open? then path + [op.group] else path;
      assert path + PathOf(ops) == inner + PathOf(rest);
      RedactedNest(c, inner, rest, record);
      var before := Nest(rest, record);
      var after := Nest(RedactOps(c, inner, rest), RedactAll(c, inner + PathOf(rest), record));
      NestStep(c, path, ops, RedactAll(c, path + PathOf(ops), record), after);
      if op.Held? {
        RedactedLeaves(c, path, op.attrs);
        LeavesConcat(path, op.attrs, before);
        LeavesConcat(path, RedactAll(c, path, op.attrs), after);
        RedactLeavesConcat(c, Leaves(path, op.attrs), Leaves(path, before));
      } else {
        LeavesSingle(path, Attr(op.group, Group(before)));
        LeavesSingle(path, Attr(op.group, Group(after)));
      }
    }
  }

  lemma NestStep(c: Config, path: seq<string>, ops: seq<Op>, record: seq<Attr>, after: seq<Attr>)
    requires ops != []
    requires after == Nest(RedactOps(c, if ops[0].Open? then path + [ops[0].group] else path, ops[1..]), record)
    ensures Nest(RedactOps(c, path, ops), record) == (
              match ops[0]
              case Held(attrs) => RedactAll(c, path, attrs) + after
              case Open(g) => if after == [] then [] else [Attr(g, Group(after))])
  {
    var out := RedactOps(c, path, ops);
    assert out[1..] == RedactOps(c, if ops[0].Open? then path + [ops[0].group] else path, ops[1..]);
  }

  /** In redact mode every call forwards, and the leaves of what is forwarded are the
      leaves of the nested tree, exactly the matching ones replaced. */
  lemma RedactsExactly(c: Config, ops: seq<Op>, record: seq<Attr>)
    requires c.mode.Redact?
    ensures var o := Handled(DeriveAll(NewHandler(c), ops), record);
            o.Forward? && Leaves([], Nest(o.ops, o.record)) == RedactLeaves(c, Leaves([], Nest(ops, record)))
  {
    DeriveAllHolds(NewHandler(c), ops);
    RedactedNest(c, [], ops, record);
    assert [] + ops == ops && ops + [] == ops && [] + PathOf(ops) == PathOf(ops);
    assert [] + RedactOps(c, [], ops) == RedactOps(c, [], ops);
    if c.rules == [] {
      RedactNothing(c, [], record);
      NoRulesNoHits(c, [], Nest(ops, record));
      RedactLeavesMiss(c, Leaves([], Nest(ops, record)));
    }
  }

  // ---- the tree itself ----

  lemma {:induction false} RedactPackedAttr(c: Config, path: seq<string>, a: Attr)
    requires PackedAttr(a)
    ensures PackedAttr(RedactAttr(c, path, a)) && RedactAttr(c, path, a).key == a.key
    ensures RedactAttr(c, path, a).value.Group? == a.value.Group?
    decreases a
  {
    if a.value.Group? {
      RedactPacked(c, path + [a.key], a.value.members);
      NonEmptyPacked(RedactAll(c, path + [a.key], a.value.members));
    }
  }

  lemma {:induction false} RedactPacked(c: Config, path: seq<string>, attrs: seq<Attr>)
    requires Packed(attrs)
    ensures Packed(RedactAll(c, path, attrs))
    decreases attrs
  {
    if attrs != [] {
      RedactPackedAttr(c, path, attrs[0]);
      RedactPacked(c, path, attrs[1..]);
      var head, tail := RedactAttr(c, path, attrs[0]), RedactAll(c, path, attrs[1..]);
      assert ([head] + tail)[1..] == tail;
    }
  }

  lemma {:induction false} RedactConcat(c: Config, path: seq<string>, a: seq<Attr>, b: seq<Attr>)
    ensures RedactAll(c, path, a + b) == RedactAll(c, path, a) + RedactAll(c, path, b)
    decreases |a|
  {
    if a == [] {
      assert a + b == b;
    } else {
      RedactConcat(c, path, a[1..], b);
      assert (a + b)[1..] == a[1..] + b;
    }
  }

  /** Without empty groups the forwarded tree itself is the redacted nested tree:
      redacting what is held piece by piece and then nesting is nesting first and
      redacting once. */
  lemma {:induction false} RedactCommutes(c: Config, path: seq<string>, ops: seq<Op>, record: seq<Attr>)
    requires PackedOps(ops) && Packed(record)
    ensures (Nest(RedactOps(c, path, ops), RedactAll(c, path + PathOf(ops), record))
             == RedactAll(c, path, Nest(ops, record)))
    decreases |ops|
  {
    if ops == [] {
      assert path + PathOf(ops) == path;
    } else {
      var op, rest := ops[0], ops[1..];
      var inner := if op.Open? then path + [op.group] else path;
      assert path + PathOf(ops) == inner + PathOf(rest);
      RedactCommutes(c, inner, rest, record);
      var before := Nest(rest, record);
      NestStep(c, path, ops, RedactAll(c, path + PathOf(ops), record), RedactAll(c, inner, before));
      if op.Held? {
        RedactConcat(c, path, op.attrs, before);
      } else if before != [] {
        PackedNest(rest, record);
        RedactPacked(c, inner, before);
        NonEmptyPacked(RedactAll(c, inner, before));
        RedactGroup(c, path, op.group, before);
      }
    }
  }

  lemma RedactGroup(c: Config, path: seq<string>, g: string, members: seq<Attr>)
    requires NonEmpty(RedactAll(c, path + [g], members)) == RedactAll(c, path + [g], members)
    ensures RedactAll(c, path, [Attr(g, Group(members))]) == [Attr(g, Group(RedactAll(c, path + [g], members)))]
  {
    if !Hit(c, path + [g], members) {
      RedactNothing(c, path + [g], members);
    }
    assert [Attr(g, Group(members))][1..] == [];
  }

  // ---- redacting twice ----

  /** The text a rule writes. */
  function Text(r: Rule): string {
    Replacement(r).text
  }

  /** No rule applies to the leaf, or what the first one writes is taken by no rule, or
      first by one that writes the same. */
  predicate Settles(c: Config, leaf: Leaf) {
    match FirstRule(c, c.rules, leaf)
    case None => true
    case Some(r) =>
      match FirstRule(c, c.rules, leaf.(value := Replacement(r)))
      case None => true
      case Some(q) => Text(q) == Text(r)
  }

  lemma SettlesTwice(c: Config, leaf: Leaf)
    ensures Settles(c, leaf) <==> RedactLeaf(c, RedactLeaf(c, leaf)) == RedactLeaf(c, leaf)
  {
  }

  predicate AllSettle(c: Config, leaves: seq<Leaf>) {
    forall l | l in leaves :: Settles(c, l)
  }

  lemma LeavesTwice(c: Config, leaves: seq<Leaf>)
    ensures RedactLeaves(c, RedactLeaves(c, leaves)) == RedactLeaves(c, leaves) <==> AllSettle(c, leaves)
  {
    var once := RedactLeaves(c, leaves);
    var twice := RedactLeaves(c, once);
    forall i | 0 <= i < |leaves| ensures twice[i] == once[i] <==> Settles(c, leaves[i]) {
      SettlesTwice(c, leaves[i]);
    }
    if twice == once {
      forall l | l in leaves ensures Settles(c, l) {
        var i :| 0 <= i < |leaves| && leaves[i] == l;
        assert twice[i] == once[i];
      }
    }
  }

  lemma {:induction false} FixedNonEmpty(c: Config, path: seq<string>, attrs: seq<Attr>)
    requires RedactAll(c, path, attrs) == attrs
    ensures RedactAll(c, path, NonEmpty(attrs)) == NonEmpty(attrs) && NonEmpty(NonEmpty(attrs)) == NonEmpty(attrs)
    decreases |attrs|
  {
    if attrs != [] {
      FixedNonEmpty(c, path, attrs[1..]);
      var tail := NonEmpty(attrs[1..]);
      assert ([attrs[0]] + tail)[1..] == tail && [] + tail == tail;
    }
  }

  lemma {:induction false} AttrTwice(c: Config, path: seq<string>, a: Attr)
    requires AllSettle(c, LeavesOf(path, a))
    ensures RedactAttr(c, path, RedactAttr(c, path, a)) == RedactAttr(c, path, a)
    decreases a
  {
    if a.value.Group? {
      var inner, members := path + [a.key], a.value.members;
      if Hit(c, inner, members) {
        var once := RedactAll(c, inner, members);
        SettledTwice(c, inner, members);
        FixedNonEmpty(c, inner, once);
      }
    } else {
      assert LeavesOf(path, a) == [Leaf(path, a.key, a.value)];
      assert Settles(c, Leaf(path, a.key, a.value));
    }
  }

  lemma {:induction false} SettledTwice(c: Config, path: seq<string>, attrs: seq<Attr>)
    requires AllSettle(c, Leaves(path, attrs))
    ensures RedactAll(c, path, RedactAll(c, path, attrs)) == RedactAll(c, path, attrs)
    decreases attrs
  {
    if attrs != [] {
      assert forall l | l in LeavesOf(path, attrs[0]) :: l in Leaves(path, attrs);
      assert forall l | l in Leaves(path, attrs[1..]) :: l in Leaves(path, attrs);
      AttrTwice(c, path, attrs[0]);
      SettledTwice(c, path, attrs[1..]);
      var head, tail := RedactAttr(c, path, attrs[0]), RedactAll(c, path, attrs[1..]);
      assert ([head] + tail)[1..] == tail;
    }
  }

  /** Redacting attributes a second time changes nothing exactly when every leaf settles:
      what the first applicable rule writes is taken by no rule, or first by one that
      writes the same. */
  lemma RedactTwiceIff(c: Config, path: seq<string>, attrs: seq<Attr>)
    ensures (RedactAll(c, path, RedactAll(c, path, attrs)) == RedactAll(c, path, attrs)
             <==> AllSettle(c, Leaves(path, attrs)))
  {
    LeavesTwice(c, Leaves(path, attrs));
    RedactedLeaves(c, path, attrs);
    RedactedLeaves(c, path, RedactAll(c, path, attrs));
    if AllSettle(c, Leaves(path, attrs)) {
      SettledTwice(c, path, attrs);
    }
  }

  // ... and over all inputs it can be read off the rules.

  predicate Takes(r: Rule, text: string) {
    r.value == "" || text == r.value
  }

  /** No rule can undo what another one wrote: an earlier rule that asks for that text
      writes the same, and unless the writing rule takes its own text so does every
      later rule that takes it. */
  predicate RulesSettle(rules: seq<Rule>) {
    && (forall i, j | 0 <= j < i < |rules| && rules[j].value == Text(rules[i]) :: Text(rules[j]) == Text(rules[i]))
    && (forall i, j | 0 <= i < j < |rules| && !Takes(rules[i], Text(rules[i])) && Takes(rules[j], Text(rules[i])) ::
          Text(rules[j]) == Text(rules[i]))
  }

  lemma {:induction false} FirstAt(c: Config, rules: seq<Rule>, leaf: Leaf) returns (i: nat)
    requires FirstRule(c, rules, leaf).Some?
    ensures i < |rules| && rules[i] == FirstRule(c, rules, leaf).value && RuleApplies(c, rules[i], leaf)
    ensures forall j | 0 <= j < i :: !RuleApplies(c, rules[j], leaf)
    decreases |rules|
  {
    if RuleApplies(c, rules[0], leaf) {
      i := 0;
    } else {
      var n := FirstAt(c, rules[1..], leaf);
      i := n + 1;
      forall j | 0 <= j < i ensures !RuleApplies(c, rules[j], leaf) {
        assert j > 0 ==> rules[j] == rules[1..][j - 1];
      }
    }
  }

  /** With such rules redaction is idempotent on every input. */
  lemma RulesSettleAll(c: Config, path: seq<string>, attrs: seq<Attr>)
    requires RulesSettle(c.rules)
    ensures RedactAll(c, path, RedactAll(c, path, attrs)) == RedactAll(c, path, attrs)
  {
    forall l | l in Leaves(path, attrs) ensures Settles(c, l) {
      RulesSettleLeaf(c, l);
    }
    SettledTwice(c, path, attrs);
  }

  lemma RulesSettleLeaf(c: Config, leaf: Leaf)
    requires RulesSettle(c.rules)
    ensures Settles(c, leaf)
  {
    if FirstRule(c, c.rules, leaf).Some? {
      var i := FirstAt(c, c.rules, leaf);
      var again := leaf.(value := Replacement(c.rules[i]));
      if FirstRule(c, c.rules, again).Some? {
        var j := FirstAt(c, c.rules, again);
        assert Takes(c.rules[j], Text(c.rules[i]));
        if j < i {
          assert !RuleApplies(c, c.rules[j], leaf) && c.rules[j].value == Text(c.rules[i]);
        } else if i < j {
          assert !RuleApplies(c, c.rules[i], again);
        }
      }
    }
  }

  predicate KeyRulesOnly(c: Config) {
    forall r | r in c.rules :: r.value == ""
  }

  /** In particular redaction is idempotent when no rule looks at the value. */
  lemma RedactTwice(c: Config, path: seq<string>, attrs: seq<Attr>)
    requires KeyRulesOnly(c)
    ensures RedactAll(c, path, RedactAll(c, path, attrs)) == RedactAll(c, path, attrs)
  {
    assert forall i | 0 <= i < |c.rules| :: c.rules[i] in c.rules;
    assert forall r: Rule :: Text(r) != "";
    RulesSettleAll(c, path, attrs);
  }

  // For rules of one key the condition is exact.

  /** Some value gets past the rules before i and is taken by rule i. */
  predicate Live(rules: seq<Rule>, i: int)
    requires 0 <= i < |rules|
  {
    forall j | 0 <= j < i :: rules[j].value != "" && (rules[i].value != "" ==> rules[j].value != rules[i].value)
  }

  /** What rule i writes is taken by no rule, or first by one that writes the same. */
  predicate Passes(rules: seq<Rule>, i: int)
    requires 0 <= i < |rules|
  {
    forall j | 0 <= j < |rules| && Takes(rules[j], Text(rules[i]))
               && (forall n | 0 <= n < j :: !Takes(rules[n], Text(rules[i]))) ::
      Text(rules[j]) == Text(rules[i])
  }

  predicate KeyMatches(c: Config, key: string, leaf: Leaf) {
    EqualFold(c.fold, leaf.key, key) || EqualFold(c.fold, Dotted(leaf.path, leaf.key), key)
  }

  lemma OneKeyApplies(c: Config, key: string, leaf: Leaf, j: int)
    requires (forall r | r in c.rules :: r.key == key) && 0 <= j < |c.rules|
    ensures RuleApplies(c, c.rules[j], leaf) <==> KeyMatches(c, key, leaf) && Takes(c.rules[j], Printed(leaf.value))
  {
    assert c.rules[j] in c.rules;
  }

  lemma LiveWhenFirst(c: Config, key: string, leaf: Leaf, i: int)
    requires (forall r | r in c.rules :: r.key == key) && 0 <= i < |c.rules| && RuleApplies(c, c.rules[i], leaf)
    requires forall j | 0 <= j < i :: !RuleApplies(c, c.rules[j], leaf)
    ensures Live(c.rules, i)
  {
    forall j | 0 <= j <= i ensures RuleApplies(c, c.rules[j], leaf) <==>
                                     KeyMatches(c, key, leaf) && Takes(c.rules[j], Printed(leaf.value))
    {
      OneKeyApplies(c, key, leaf, j);
    }
  }

  /** Where rule i is the first to apply, the leaf settles exactly when i passes. */
  lemma SettlesWhenPasses(c: Config, key: string, leaf: Leaf, i: int)
    requires (forall r | r in c.rules :: r.key == key) && 0 <= i < |c.rules|
    requires KeyMatches(c, key, leaf) && FirstRule(c, c.rules, leaf) == Some(c.rules[i])
    ensures Settles(c, leaf) <==> Passes(c.rules, i)
  {
    var again := leaf.(value := Replacement(c.rules[i]));
    forall j | 0 <= j < |c.rules| ensures RuleApplies(c, c.rules[j], again) <==> Takes(c.rules[j], Text(c.rules[i])) {
      OneKeyApplies(c, key, again, j);
    }
    if FirstRule(c, c.rules, again).Some? {
      var j := FirstAt(c, c.rules, again);
    } else {
      forall j | 0 <= j < |c.rules| ensures !Takes(c.rules[j], Text(c.rules[i])) {
        assert c.rules[j] in c.rules;
      }
    }
  }

  /** A text longer than every value the rules ask for. */
  lemma {:induction false} NewText(rules: seq<Rule>) returns (text: string)
    ensures forall j | 0 <= j < |rules| :: |rules[j].value| < |text|
    decreases |rules|
  {
    if rules == [] {
      text := "";
    } else {
      var rest := NewText(rules[1..]);
      text := rest + rules[0].value + "x";
      forall j | 0 <= j < |rules| ensures |rules[j].value| < |text| {
        assert j > 0 ==> rules[j] == rules[1..][j - 1];
      }
    }
  }

  lemma {:induction false} FirstIs(c: Config, rules: seq<Rule>, leaf: Leaf, i: nat)
    requires i < |rules| && RuleApplies(c, rules[i], leaf) && forall j | 0 <= j < i :: !RuleApplies(c, rules[j], leaf)
    ensures FirstRule(c, rules, leaf) == Some(rules[i])
    decreases |rules|
  {
    if i > 0 {
      FirstIs(c, rules[1..], leaf, i - 1);
    }
  }

  /** A live rule is the first to apply to some leaf. */
  lemma LiveLeaf(c: Config, key: string, i: nat) returns (leaf: Leaf)
    requires (forall r | r in c.rules :: r.key == key) && i < |c.rules| && Live(c.rules, i)
    ensures FirstRule(c, c.rules, leaf) == Some(c.rules[i]) && KeyMatches(c, key, leaf)
    ensures leaf.path == [] && !leaf.value.Group?
  {
    var text := NewText(c.rules);
    leaf := Leaf([], key, Scalar(if c.rules[i].value == "" then text else c.rules[i].value));
    forall j | 0 <= j <= i ensures RuleApplies(c, c.rules[j], leaf) <==> j == i {
      OneKeyApplies(c, key, leaf, j);
    }
    FirstIs(c, c.rules, leaf, i);
  }

  ghost predicate AlwaysIdempotent(c: Config) {
    forall path, attrs :: RedactAll(c, path, RedactAll(c, path, attrs)) == RedactAll(c, path, attrs)
  }

  /** Rules of one key redact idempotently on every input exactly when each live rule
      passes. */
  lemma OneKeyExactly(c: Config, key: string)
    requires forall r | r in c.rules :: r.key == key
    ensures AlwaysIdempotent(c) <==> forall i | 0 <= i < |c.rules| && Live(c.rules, i) :: Passes(c.rules, i)
  {
    if AlwaysIdempotent(c) {
      forall i | 0 <= i < |c.rules| && Live(c.rules, i) ensures Passes(c.rules, i) {
        var leaf := LiveLeaf(c, key, i);
        var attrs := [Attr(leaf.key, leaf.value)];
        LeavesSingle([], attrs[0]);
        assert Leaves([], attrs) == [leaf] && leaf in [leaf];
        RedactTwiceIff(c, [], attrs);
        SettlesWhenPasses(c, key, leaf, i);
      }
    } else {
      var path, attrs :| RedactAll(c, path, RedactAll(c, path, attrs)) != RedactAll(c, path, attrs);
      RedactTwiceIff(c, path, attrs);
      var leaf :| leaf in Leaves(path, attrs) && !Settles(c, leaf);
      var i := FirstAt(c, c.rules, leaf);
      LiveWhenFirst(c, key, leaf, i);
      OneKeyApplies(c, key, leaf, i);
      SettlesWhenPasses(c, key, leaf, i);
    }
  }

  /** Rules on values may not settle: two rules can pass a value on. */
  lemma ValueRulesChain(fold: char -> char)
    ensures var c := Config([Rule("k", "a", "b"), Rule("k", "b", "c")], Redact, fold);
            && !RulesSettle(c.rules)
            && RedactAll(c, [], [Attr("k", Scalar("a"))]) == [Attr("k", Scalar("b"))]
            && RedactAll(c, [], [Attr("k", Scalar("b"))]) == [Attr("k", Scalar("c"))]
  {
    var c := Config([Rule("k", "a", "b"), Rule("k", "b", "c")], Redact, fold);
    assert c.rules[1..][0] == Rule("k", "b", "c");
    assert EqualFold(fold, "k", "k");
    assert RuleApplies(c, c.rules[0], Leaf([], "k", Scalar("a")));
    assert !RuleApplies(c, c.rules[0], Leaf([], "k", Scalar("b")));
    assert RuleApplies(c, c.rules[1], Leaf([], "k", Scalar("b")));
    assert Text(c.rules[0]) == "b" && Text(c.rules[1]) == "c";
    assert !Takes(c.rules[0], "b") && Takes(c.rules[1], "b");
  }

  // ---- paths through groups without a name ----

  function Named(path: seq<string>): seq<string> {
    if path == [] then [] else (if path[0] == "" then [] else [path[0]]) + Named(path[1..])
  }

  lemma {:induction false} DottedShrinks(path: seq<string>, key: string)
    ensures |Dotted(path, key)| >= |Dotted(Named(path), key)|
    ensures |Dotted(path, key)| == |Dotted(Named(path), key)| ==> Named(path) == path
    decreases |path|
  {
    if path != [] {
      DottedShrinks(path[1..], key);
      var rest := Named(path[1..]);
      assert ([path[0]] + rest)[1..] == rest && [] + rest == rest;
    }
  }

  /** A group with an empty key is inlined by every handler downstream, but the filter
      still counts it in the dotted path: the two paths agree exactly when every
      enclosing group has a name. */
  lemma PathIsLiteral(path: seq<string>, key: string)
    ensures Dotted(path, key) == Dotted(Named(path), key) <==> forall i | 0 <= i < |path| :: path[i] != ""
  {
    DottedShrinks(path, key);
    NamedSame(path);
  }

  lemma {:induction false} NamedSame(path: seq<string>)
    ensures |Named(path)| <= |path|
    ensures Named(path) == path <==> forall i | 0 <= i < |path| :: path[i] != ""
    decreases |path|
  {
    if path != [] {
      NamedSame(path[1..]);
      assert path == [path[0]] + path[1..];
    }
  }
}
