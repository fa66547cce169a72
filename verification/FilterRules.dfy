/** What a rule selects, said without joining any path: by the parts of its key and of the
    names of a leaf, folded. */
module FilterRules {
  import opened Basics
  import opened Attrs
  import opened AttrTrees
  import opened Filter
  import opened FilterMeaning

  // ---- folding ----

  /** The text with every character folded. */
  function Folded(fold: char -> char, s: string): string {
    seq(|s|, i requires 0 <= i < |s| => fold(s[i]))
  }

  /** Texts are equal under folding exactly when they fold to the same text. */
  lemma EqualFoldIs(fold: char -> char, a: string, b: string)
    ensures EqualFold(fold, a, b) <==> Folded(fold, a) == Folded(fold, b)
  {
    if Folded(fold, a) == Folded(fold, b) {
      forall i | 0 <= i < |a| ensures fold(a[i]) == fold(b[i]) {
        assert Folded(fold, a)[i] == Folded(fold, b)[i];
      }
    }
  }

  // ---- splitting at dots ----

  /** The parts of a text between its dots. */
  function Split(s: string): (parts: seq<string>)
    ensures parts != []
  {
    if s == "" then [""] else
    var rest := Split(s[1..]);
    if s[0] == '.' then [""] + rest else [[s[0]] + rest[0]] + rest[1..]
  }

  lemma {:induction false} SplitDotless(s: string)
    requires '.' !in s
    ensures Split(s) == [s]
    decreases |s|
  {
    if s != "" {
      assert s[0] in s && forall c | c in s[1..] :: c in s;
      SplitDotless(s[1..]);
      assert [s[0]] + s[1..] == s;
    }
  }

  lemma {:induction false} SplitAtDot(a: string, b: string)
    ensures Split(a + "." + b) == Split(a) + Split(b)
    decreases |a|
  {
    if a == "" {
      assert a + "." + b == "." + b;
      SplitCons('.', b);
    } else {
      var c, rest := a[0], a[1..];
      assert a == [c] + rest;
      assert a + "." + b == [c] + (rest + "." + b);
      SplitAtDot(rest, b);
      SplitCons(c, rest);
      SplitCons(c, rest + "." + b);
      OntoFirst(c, Split(rest), Split(b));
    }
  }

  /** A character in front of the first part. */
  function Onto(c: char, parts: seq<string>): seq<string>
    requires parts != []
  {
    if c == '.' then [""] + parts else [[c] + parts[0]] + parts[1..]
  }

  lemma SplitCons(c: char, s: string)
    ensures Split([c] + s) == Onto(c, Split(s))
  {
    assert ([c] + s)[1..] == s;
  }

  lemma OntoFirst(c: char, a: seq<string>, b: seq<string>)
    requires a != []
    ensures Onto(c, a + b) == Onto(c, a) + b
  {
    assert (a + b)[1..] == a[1..] + b;
  }

  /** The parts of all the names, in order. */
  function Parts(names: seq<string>): seq<string> {
    if names == [] then [] else Split(names[0]) + Parts(names[1..])
  }

  lemma {:induction false} PartsDotless(names: seq<string>)
    requires forall i | 0 <= i < |names| :: '.' !in names[i]
    ensures Parts(names) == names
    decreases |names|
  {
    if names != [] {
      SplitDotless(names[0]);
      PartsDotless(names[1..]);
    }
  }

  /** The dotted path, split again, gives back the group names and the key. */
  lemma {:induction false} SplitDotted(path: seq<string>, key: string)
    ensures Split(Dotted(path, key)) == Parts(path + [key])
    ensures (forall i | 0 <= i < |path| :: '.' !in path[i]) && '.' !in key ==> Split(Dotted(path, key)) == path + [key]
    decreases |path|
  {
    if path == [] {
      assert path + [key] == [key] && [key][1..] == [];
      assert Parts([key]) == Split(key) + [];
    } else {
      SplitDotted(path[1..], key);
      SplitAtDot(path[0], Dotted(path[1..], key));
      assert (path + [key])[1..] == path[1..] + [key];
    }
    if (forall i | 0 <= i < |path| :: '.' !in path[i]) && '.' !in key {
      PartsDotless(path + [key]);
    }
  }

  // ---- folding the parts ----

  /** Folding makes no dot and unmakes none. */
  ghost predicate KeepsDots(fold: char -> char) {
    forall x :: fold(x) == fold('.') ==> x == '.'
  }

  function FoldedAll(fold: char -> char, names: seq<string>): seq<string> {
    seq(|names|, i requires 0 <= i < |names| => Folded(fold, names[i]))
  }

  lemma FoldedCons(fold: char -> char, s: string)
    requires s != ""
    ensures Folded(fold, s) == [fold(s[0])] + Folded(fold, s[1..])
  {
  }

  lemma FoldedAllCons(fold: char -> char, x: string, xs: seq<string>)
    ensures FoldedAll(fold, [x] + xs) == [Folded(fold, x)] + FoldedAll(fold, xs)
  {
  }

  lemma FoldedFirst(fold: char -> char, c: char, parts: seq<string>)
    requires parts != []
    ensures FoldedAll(fold, [[c] + parts[0]] + parts[1..])
         == [[fold(c)] + FoldedAll(fold, parts)[0]] + FoldedAll(fold, parts)[1..]
  {
    FoldedCons(fold, [c] + parts[0]);
    assert ([c] + parts[0])[1..] == parts[0];
    FoldedAllCons(fold, [c] + parts[0], parts[1..]);
    FoldedAllCons(fold, parts[0], parts[1..]);
    assert parts == [parts[0]] + parts[1..];
  }

  /** Two texts fold alike exactly when their parts do. */
  lemma {:induction false} PartsFold(fold: char -> char, a: string, b: string)
    requires KeepsDots(fold)
    ensures Folded(fold, a) == Folded(fold, b) <==> FoldedAll(fold, Split(a)) == FoldedAll(fold, Split(b))
    decreases |a|
  {
    if a == "" || b == "" {
      EmptyParts(fold, a);
      EmptyParts(fold, b);
      assert |Folded(fold, a)| == |a| && |Folded(fold, b)| == |b|;
    } else {
      PartsFold(fold, a[1..], b[1..]);
      FoldedCons(fold, a);
      FoldedCons(fold, b);
      HeadTail(fold(a[0]), Folded(fold, a[1..]), fold(b[0]), Folded(fold, b[1..]));
      FirstPart(fold, a);
      FirstPart(fold, b);
      SameFirst(fold, a, b);
    }
  }

  lemma EmptyParts(fold: char -> char, a: string)
    ensures a == "" <==> FoldedAll(fold, Split(a)) == [""]
  {
    if a != "" {
      FirstPart(fold, a);
    } else {
      assert Split(a) == [""];
      assert Folded(fold, "") == "";
    }
  }

  lemma HeadTail<T>(x: T, xs: seq<T>, y: T, ys: seq<T>)
    ensures [x] + xs == [y] + ys <==> x == y && xs == ys
  {
    assert ([x] + xs)[0] == x && ([y] + ys)[0] == y;
    assert ([x] + xs)[1..] == xs && ([y] + ys)[1..] == ys;
  }

  /** What the first character adds to the folded parts of the rest. */
  function Prefixed(fold: char -> char, c: char, parts: seq<string>): seq<string>
    requires parts != []
  {
    if c == '.' then [""] + parts else [[fold(c)] + parts[0]] + parts[1..]
  }

  lemma FirstPart(fold: char -> char, a: string)
    requires a != ""
    ensures FoldedAll(fold, Split(a)) == Prefixed(fold, a[0], FoldedAll(fold, Split(a[1..])))
  {
    var rest := Split(a[1..]);
    if a[0] == '.' {
      FoldedAllCons(fold, "", rest);
      assert Folded(fold, "") == "";
    } else {
      FoldedFirst(fold, a[0], rest);
    }
  }

  lemma SameFirst(fold: char -> char, a: string, b: string)
    requires KeepsDots(fold) && a != "" && b != ""
    ensures var p, q := FoldedAll(fold, Split(a[1..])), FoldedAll(fold, Split(b[1..]));
            Prefixed(fold, a[0], p) == Prefixed(fold, b[0], q) <==> fold(a[0]) == fold(b[0]) && p == q
  {
    var p, q := FoldedAll(fold, Split(a[1..])), FoldedAll(fold, Split(b[1..]));
    if a[0] == '.' && b[0] == '.' {
      HeadTail("", p, "", q);
    } else if a[0] != '.' && b[0] != '.' {
      HeadTail([fold(a[0])] + p[0], p[1..], [fold(b[0])] + q[0], q[1..]);
      HeadTail(fold(a[0]), p[0], fold(b[0]), q[0]);
      HeadTail(p[0], p[1..], q[0], q[1..]);
      assert p == [p[0]] + p[1..] && q == [q[0]] + q[1..];
    } else {
      assert fold(a[0]) != fold(b[0]);
      assert Prefixed(fold, a[0], p)[0] != Prefixed(fold, b[0], q)[0];
    }
  }

  // ---- what a rule selects ----

  /** The value's printed form is the rule's, or the rule asks for none. */
  predicate ValueFits(r: Rule, v: Value) {
    r.value == "" || (v.Scalar? && v.text == r.value) || (v.Null? && r.value == "<nil>")
  }

  /** A rule applies to a leaf exactly when its value fits and its key folds to the leaf's
      bare key, or part by part to the leaf's group names and key. */
  lemma RuleSelects(c: Config, r: Rule, leaf: Leaf)
    requires KeepsDots(c.fold) && !leaf.value.Group?
    ensures (RuleApplies(c, r, leaf)
             <==> && (|| Folded(c.fold, r.key) == Folded(c.fold, leaf.key)
                      || FoldedAll(c.fold, Split(r.key)) == FoldedAll(c.fold, Parts(leaf.path + [leaf.key])))
                  && ValueFits(r, leaf.value))
  {
    EqualFoldIs(c.fold, leaf.key, r.key);
    EqualFoldIs(c.fold, Dotted(leaf.path, leaf.key), r.key);
    PartsFold(c.fold, Dotted(leaf.path, leaf.key), r.key);
    SplitDotted(leaf.path, leaf.key);
  }

  lemma {:induction false} PartsLength(names: seq<string>)
    ensures |Parts(names)| >= |names|
    decreases |names|
  {
    if names != [] {
      PartsLength(names[1..]);
    }
  }

  /** A key without dots names bare keys only: it selects at every depth what has that key
      and nothing by its path. */
  lemma DotlessRule(c: Config, r: Rule, leaf: Leaf)
    requires KeepsDots(c.fold) && !leaf.value.Group? && '.' !in r.key
    ensures RuleApplies(c, r, leaf) <==> Folded(c.fold, r.key) == Folded(c.fold, leaf.key) && ValueFits(r, leaf.value)
  {
    RuleSelects(c, r, leaf);
    SplitDotless(r.key);
    PartsLength(leaf.path + [leaf.key]);
    var parts, rule := FoldedAll(c.fold, Parts(leaf.path + [leaf.key])), FoldedAll(c.fold, Split(r.key));
    assert |rule| == 1;
    if parts == rule && leaf.path == [] {
      assert leaf.path + [leaf.key] == [leaf.key] && [leaf.key][1..] == [];
      assert Parts([leaf.key]) == Split(leaf.key) + [] == Split(leaf.key);
      PartsFold(c.fold, r.key, leaf.key);
    }
  }

  /** A key with dots, over names without, selects exactly the leaf at that path: one group
      name per part, in order, and the key as the last part. */
  lemma DottedRule(c: Config, r: Rule, leaf: Leaf)
    requires KeepsDots(c.fold) && !leaf.value.Group? && '.' in r.key && '.' !in leaf.key
    requires forall i | 0 <= i < |leaf.path| :: '.' !in leaf.path[i]
    ensures (RuleApplies(c, r, leaf)
             <==> && |Split(r.key)| == |leaf.path| + 1
                  && (forall i | 0 <= i < |leaf.path| ::
                        Folded(c.fold, Split(r.key)[i]) == Folded(c.fold, leaf.path[i]))
                  && Folded(c.fold, Split(r.key)[|leaf.path|]) == Folded(c.fold, leaf.key)
                  && ValueFits(r, leaf.value))
  {
    RuleSelects(c, r, leaf);
    var names, parts := leaf.path + [leaf.key], Split(r.key);
    PartsDotless(names);
    NotBare(c.fold, r.key, leaf.key);
    var one, two := FoldedAll(c.fold, parts), FoldedAll(c.fold, names);
    if one == two {
      forall i | 0 <= i < |names| ensures Folded(c.fold, parts[i]) == Folded(c.fold, names[i]) {
        assert one[i] == two[i];
      }
      assert names[|leaf.path|] == leaf.key;
      assert forall i | 0 <= i < |leaf.path| :: names[i] == leaf.path[i];
    }
  }

  lemma NotBare(fold: char -> char, a: string, b: string)
    requires KeepsDots(fold) && '.' in a && '.' !in b
    ensures Folded(fold, a) != Folded(fold, b)
  {
    var i :| 0 <= i < |a| && a[i] == '.';
    if |a| == |b| {
      assert b[i] in b;
      assert Folded(fold, a)[i] != Folded(fold, b)[i];
    }
  }

  // ---- what becomes of a leaf ----

  /** Rule i is the first that applies. */
  ghost predicate FirstToApply(c: Config, leaf: Leaf, i: int) {
    && 0 <= i < |c.rules| && RuleApplies(c, c.rules[i], leaf)
    && forall j | 0 <= j < i :: !RuleApplies(c, c.rules[j], leaf)
  }

  /** A leaf no rule applies to stays; any other one gets the text of the first rule that
      applies, or the default text if that rule names none. */
  lemma LeafBecomes(c: Config, leaf: Leaf)
    ensures (forall r | r in c.rules :: !RuleApplies(c, r, leaf)) ==> RedactLeaf(c, leaf) == leaf
    ensures forall i | FirstToApply(c, leaf, i) ::
              var text := if c.rules[i].replacement == "" then "[REDACTED]" else c.rules[i].replacement;
              RedactLeaf(c, leaf) == Leaf(leaf.path, leaf.key, Scalar(text))
  {
    forall i | FirstToApply(c, leaf, i) ensures FirstRule(c, c.rules, leaf) == Some(c.rules[i]) {
      assert c.rules[i] in c.rules;
      var n := FirstAt(c, c.rules, leaf);
      assert !(n < i) && !(i < n);
    }
  }
}
