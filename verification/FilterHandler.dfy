/** The loops of the filter handler, proved to compute the specification. */
module FilterHandler {
  import opened Basics
  import opened Attrs
  import opened AttrTrees
  import opened Filter

  lemma AnyConcat(c: Config, a: seq<Leaf>, b: seq<Leaf>)
    ensures AnyMatches(c, a + b) <==> AnyMatches(c, a) || AnyMatches(c, b)
  {
    if AnyMatches(c, a) {
      var i :| 0 <= i < |a| && Matches(c, a[i]);
      assert (a + b)[i] == a[i];
    }
    if AnyMatches(c, b) {
      var i :| 0 <= i < |b| && Matches(c, b[i]);
      assert (a + b)[|a| + i] == b[i];
    }
  }

  lemma HitSnoc(c: Config, path: seq<string>, attrs: seq<Attr>, a: Attr)
    ensures Hit(c, path, attrs + [a]) <==> Hit(c, path, attrs) || AnyMatches(c, LeavesOf(path, a))
  {
    LeavesConcat(path, attrs, [a]);
    LeavesSingle(path, a);
    AnyConcat(c, Leaves(path, attrs), LeavesOf(path, a));
  }

  lemma {:induction false} RedactSnoc(c: Config, path: seq<string>, attrs: seq<Attr>, a: Attr)
    ensures RedactAll(c, path, attrs + [a]) == RedactAll(c, path, attrs) + [RedactAttr(c, path, a)]
    decreases |attrs|
  {
    if attrs == [] {
      assert attrs + [a] == [a];
    } else {
      RedactSnoc(c, path, attrs[1..], a);
      assert (attrs + [a])[1..] == attrs[1..] + [a];
    }
  }

  /** Attributes none of whose leaves matches stay as they are. */
  lemma {:induction false} RedactMiss(c: Config, path: seq<string>, a: Attr)
    requires !AnyMatches(c, LeavesOf(path, a))
    ensures RedactAttr(c, path, a) == a
  {
    if !a.value.Group? {
      assert LeavesOf(path, a)[0] == Leaf(path, a.key, a.value);
      assert !Matches(c, Leaf(path, a.key, a.value));
    }
  }

  /** matchRule: bare key or dotted path, first rule first. */
  method MatchRule(c: Config, path: seq<string>, a: Attr) returns (r: Option<Rule>)
    ensures r == FirstRule(c, c.rules, Leaf(path, a.key, a.value))
  {
    var full := Dotted(path, a.key);
    var i := 0;
    while i < |c.rules|
      invariant 0 <= i <= |c.rules|
      invariant (FirstRule(c, c.rules, Leaf(path, a.key, a.value))
                 == FirstRule(c, c.rules[i..], Leaf(path, a.key, a.value)))
    {
      var rule := c.rules[i];
      if EqualFold(c.fold, a.key, rule.key) || EqualFold(c.fold, full, rule.key) {
        if rule.value == "" || Printed(a.value) == rule.value {
          return Some(rule);
        }
      }
      i := i + 1;
    }
    return None;
  }

  /** One element of filterAttrs: whether it changes, and to what. */
  method FilterAttr(c: Config, path: seq<string>, a: Attr) returns (hit: bool, b: Attr)
    ensures hit <==> AnyMatches(c, LeavesOf(path, a))
    ensures c.mode.Redact? ==> b == RedactAttr(c, path, a)
    decreases a
  {
    b := a;
    if a.value.Group? {
      var sub;
      sub, hit := FilterAttrs(c, path + [a.key], a.value.members);
      if hit && c.mode.Redact? {
        b := Attr(a.key, GroupValue(sub));
      }
    } else {
      OneLeaf(c, path, a);
      var rule := MatchRule(c, path, a);
      hit := rule.Some?;
      if hit {
        var replacement := rule.value.replacement;
        if replacement == "" {
          replacement := DEFAULT_REPLACEMENT;
        }
        b := Attr(a.key, Scalar(replacement));
      }
    }
  }

  function OrSame(out: Option<seq<Attr>>, attrs: seq<Attr>): seq<Attr> {
    if out.Some? then out.value else attrs
  }

  lemma Splice(done: seq<Attr>, attrs: seq<Attr>, b: Attr)
    requires |done| < |attrs|
    ensures (done + attrs[|done|..])[|done| := b] == done + [b] + attrs[|done| + 1..]
  {
  }

  /** filterAttrs. out is None until the first replacement. */
  method FilterAttrs(c: Config, path: seq<string>, attrs: seq<Attr>) returns (result: seq<Attr>, hit: bool)
    ensures hit <==> Hit(c, path, attrs)
    ensures result == if c.mode.Redact? then RedactAll(c, path, attrs) else attrs
    decreases attrs
  {
    var out: Option<seq<Attr>> := None;
    hit := false;
    assert attrs[..0] == [];
    for i := 0 to |attrs|
      invariant hit <==> Hit(c, path, attrs[..i])
      invariant c.mode.Drop? ==> out.None?
      invariant c.mode.Redact? ==> OrSame(out, attrs) == RedactAll(c, path, attrs[..i]) + attrs[i..]
    {
      var a := attrs[i];
      assert attrs[..i + 1] == attrs[..i] + [a];
      HitSnoc(c, path, attrs[..i], a);
      RedactSnoc(c, path, attrs[..i], a);
      var subHit, b := FilterAttr(c, path, a);
      Splice(RedactAll(c, path, attrs[..i]), attrs, b);
      if subHit {
        hit := true;
        if c.mode.Drop? && !a.value.Group? {
          HitPrefix(c, path, attrs, i + 1);
          return attrs, true;
        }
        if c.mode.Redact? {
          if out.None? {
            out := Some(attrs);
          }
          out := Some(out.value[i := b]);
        }
      } else {
        RedactMiss(c, path, a);
        Splice(RedactAll(c, path, attrs[..i]), attrs, a);
      }
    }
    assert attrs[..|attrs|] == attrs;
    result := if out.Some? then out.value else attrs;
  }

  lemma OneLeaf(c: Config, path: seq<string>, a: Attr)
    requires !a.value.Group?
    ensures AnyMatches(c, LeavesOf(path, a)) <==> Matches(c, Leaf(path, a.key, a.value))
  {
    assert LeavesOf(path, a) == [Leaf(path, a.key, a.value)];
    assert LeavesOf(path, a)[0] == Leaf(path, a.key, a.value);
  }

  lemma HitPrefix(c: Config, path: seq<string>, attrs: seq<Attr>, n: nat)
    requires n <= |attrs| && Hit(c, path, attrs[..n])
    ensures Hit(c, path, attrs)
  {
    assert attrs == attrs[..n] + attrs[n..];
    LeavesConcat(path, attrs[..n], attrs[n..]);
    AnyConcat(c, Leaves(path, attrs[..n]), Leaves(path, attrs[n..]));
  }

  lemma {:induction false} RedactNothing(c: Config, path: seq<string>, attrs: seq<Attr>)
    requires !Hit(c, path, attrs)
    ensures RedactAll(c, path, attrs) == attrs
    decreases |attrs|
  {
    if attrs != [] {
      AnyConcat(c, LeavesOf(path, attrs[0]), Leaves(path, attrs[1..]));
      RedactMiss(c, path, attrs[0]);
      RedactNothing(c, path, attrs[1..]);
    }
  }

  lemma {:induction false} NoRulesNoHits(c: Config, path: seq<string>, attrs: seq<Attr>)
    requires c.rules == []
    ensures !Hit(c, path, attrs)
  {
  }

  predicate Built(h: Handler) {
    h.config.rules == [] ==> h.ops == []
  }

  /** The calls as the mode forwards them. */
  function Outgoing(c: Config, path: seq<string>, ops: seq<Op>): seq<Op> {
    if c.mode.Drop? then ops else RedactOps(c, path, ops)
  }

  lemma OutgoingStep(c: Config, next: seq<Op>, path: seq<string>, ops: seq<Op>, op: Op)
    requires ops != [] && op == Outgoing(c, path, [ops[0]])[0]
    ensures next + Outgoing(c, path, ops) == (next + [op]) + Outgoing(c, path + PathOf([ops[0]]), ops[1..])
  {
    assert [ops[0]][1..] == [] && path + [] == path;
    assert PathOf([ops[0]]) == if ops[0].Open? then [ops[0].group] else [];
    assert ops == [ops[0]] + ops[1..];
    assert Outgoing(c, path, ops) == [op] + Outgoing(c, path + PathOf([ops[0]]), ops[1..]);
  }

  lemma PathStep(path: seq<string>, ops: seq<Op>)
    requires ops != []
    ensures path + PathOf(ops) == (path + PathOf([ops[0]])) + PathOf(ops[1..])
  {
    assert [ops[0]][1..] == [];
  }

  /** Replays the held calls, filtered, onto the wrapped handler's derivation. */
  method Replay(c: Config, start: seq<Op>, ops: seq<Op>, ghost record: seq<Attr>)
    returns (dropped: bool, next: seq<Op>, path: seq<string>)
    ensures c.mode.Drop? ==> (AnyHit(c, [], ops, record) <==> dropped || Hit(c, path, record))
    ensures !dropped ==> path == PathOf(ops) && next == start + Outgoing(c, [], ops)
    ensures dropped ==> c.mode.Drop?
  {
    next, path := start, [];
    var todo := ops;
    while todo != []
      invariant c.mode.Drop? ==> AnyHit(c, [], ops, record) == AnyHit(c, path, todo, record)
      invariant start + Outgoing(c, [], ops) == next + Outgoing(c, path, todo)
      invariant PathOf(ops) == path + PathOf(todo)
      decreases |todo|
    {
      var op := todo[0];
      PathStep(path, todo);
      assert [op][1..] == [];
      if op.Open? {
        OutgoingStep(c, next, path, todo, op);
        next := next + [op];
        path := path + [op.group];
      } else {
        assert path + [] == path;
        var attrs, hit := FilterAttrs(c, path, op.attrs);
        if hit && c.mode.Drop? {
          return true, next, path;
        }
        OutgoingStep(c, next, path, todo, Held(attrs));
        next := next + [Held(attrs)];
      }
      todo := todo[1..];
    }
    assert next + [] == next && path + [] == path;
    dropped := false;
  }

  method Handle(h: Handler, record: seq<Attr>) returns (o: Outcome)
    requires Built(h)
    ensures o == Handled(h, record)
  {
    var c := h.config;
    if |c.rules| == 0 {
      NoRulesNoHits(c, [], record);
      RedactNothing(c, [], record);
      assert h.next + [] == h.next;
      return Forward(h.next, record);
    }
    var dropped, next, path := Replay(c, h.next, h.ops, record);
    if dropped {
      return Dropped;
    }
    var newAttrs, hit := FilterAttrs(c, path, record);
    if hit && c.mode.Drop? {
      return Dropped;
    }
    HitsNowhere(c, path, record);
    o := Forward(next, if hit then newAttrs else record);
  }

  lemma HitsNowhere(c: Config, path: seq<string>, record: seq<Attr>)
    ensures !Hit(c, path, record) ==> RedactAll(c, path, record) == record
  {
    if !Hit(c, path, record) {
      RedactNothing(c, path, record);
    }
  }
}
