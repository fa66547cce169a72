/** Attributes as slog stores them, values already resolved. */
module Attrs {
  import opened Basics

  datatype Value =
    | Null                    // the value of the zero Attr
    | Scalar(text: string)    // any other value, by its printed form
    | Group(members: seq<Attr>)

  datatype Attr = Attr(key: string, value: Value)

  const ZERO: Attr := Attr("", Null)

  /** One held WithAttrs or WithGroup call. */
  datatype Op = Held(attrs: seq<Attr>) | Open(group: string)

  /** The right fold of handleGrouped: everything held before and after a WithGroup
      nested into one list of attributes. A group left empty is elided. */
  function Nest(ops: seq<Op>, record: seq<Attr>): seq<Attr> {
    if ops == [] then record else
    var rest := Nest(ops[1..], record);
    match ops[0]
    case Held(attrs) => attrs + rest
    case Open(g) => if rest == [] then [] else [Attr(g, Group(rest))]
  }

  function Keys(attrs: seq<Attr>): seq<string> {
    seq(|attrs|, i requires 0 <= i < |attrs| => attrs[i].key)
  }

  /** filterValidAttrs. */
  function Valid(attrs: seq<Attr>): seq<Attr> {
    if attrs == [] then []
    else (if attrs[0].key != "" then [attrs[0]] else []) + Valid(attrs[1..])
  }

  lemma {:induction false} ValidConcat(a: seq<Attr>, b: seq<Attr>)
    ensures Valid(a + b) == Valid(a) + Valid(b)
    decreases |a|
  {
    if a == [] {
      assert a + b == b;
    } else {
      ValidConcat(a[1..], b);
      assert (a + b)[0] == a[0] && (a + b)[1..] == a[1..] + b;
      Associates(if a[0].key != "" then [a[0]] else [], Valid(a[1..]), Valid(b));
    }
  }

  /** filterValidAttrs drops exactly the attributes with an empty key, wherever they
      stand, and keeps the order of the others. */
  lemma ValidExactly(a: seq<Attr>, x: Attr, b: seq<Attr>)
    ensures Valid([]) == [] && Valid(a + [x] + b) == Valid(a) + (if x.key == "" then [] else [x]) + Valid(b)
  {
    ValidConcat(a + [x], b);
    ValidConcat(a, [x]);
    assert [x][1..] == [];
  }

  /** A WithAttrs or WithGroup call as it is held: nothing for one that is ignored. */
  function Kept(op: Op): seq<Op> {
    match op
    case Held(attrs) => if Valid(attrs) == [] then [] else [Held(Valid(attrs))]
    case Open(g) => if g == "" then [] else [op]
  }

  /** The calls that are not ignored, as they are held. */
  function Effective(ops: seq<Op>): seq<Op> {
    if ops == [] then [] else Kept(ops[0]) + Effective(ops[1..])
  }
}
