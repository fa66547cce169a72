/** The filter handler: drops a record, or redacts attributes, by rules matched against
    bare keys and dotted paths. Case folding is a parameter; values are compared by
    their printed form. */
module Filter {
  import opened Basics
  import opened Attrs
  import opened AttrTrees

  datatype Mode = Drop | Redact

  datatype Rule = Rule(key: string, value: string, replacement: string)

  datatype Config = Config(rules: seq<Rule>, mode: Mode, fold: char -> char)

  const DEFAULT_REPLACEMENT := "[REDACTED]"

  /** strings.EqualFold over a simple folding. */
  predicate EqualFold(fold: char -> char, a: string, b: string) {
    |a| == |b| && forall i | 0 <= i < |a| :: fold(a[i]) == fold(b[i])
  }

  /** Value.String. */
  function Printed(v: Value): string {
    match v
    case Null => "<nil>"
    case Scalar(text) => text
    case Group(_) => ""
  }

  /** The group names and the key, joined with dots. */
  function Dotted(path: seq<string>, key: string): string {
    if path == [] then key else path[0] + "." + Dotted(path[1..], key)
  }

  // ---- rules ----

  predicate RuleApplies(c: Config, r: Rule, leaf: Leaf) {
    && (EqualFold(c.fold, leaf.key, r.key) || EqualFold(c.fold, Dotted(leaf.path, leaf.key), r.key))
    && (r.value == "" || Printed(leaf.value) == r.value)
  }

  /** The first rule that applies. */
  function FirstRule(c: Config, rules: seq<Rule>, leaf: Leaf): (r: Option<Rule>)
    ensures r.Some? ==> r.value in rules && RuleApplies(c, r.value, leaf)
    ensures r.None? <==> forall q | q in rules :: !RuleApplies(c, q, leaf)
  {
    if rules == [] then None
    else if RuleApplies(c, rules[0], leaf) then Some(rules[0])
    else
      assert rules == [rules[0]] + rules[1..];
      FirstRule(c, rules[1..], leaf)
  }

  predicate Matches(c: Config, leaf: Leaf) {
    FirstRule(c, c.rules, leaf).Some?
  }

  function Replacement(r: Rule): Value {
    Scalar(if r.replacement == "" then DEFAULT_REPLACEMENT else r.replacement)
  }

  /** What redaction makes of one leaf. */
  function RedactLeaf(c: Config, leaf: Leaf): Leaf {
    match FirstRule(c, c.rules, leaf)
    case None => leaf
    case Some(r) => leaf.(value := Replacement(r))
  }

  predicate AnyMatches(c: Config, leaves: seq<Leaf>) {
    exists i | 0 <= i < |leaves| :: Matches(c, leaves[i])
  }

  predicate Hit(c: Config, path: seq<string>, attrs: seq<Attr>) {
    AnyMatches(c, Leaves(path, attrs))
  }

  // ---- filterAttrs ----

  function RedactAttr(c: Config, path: seq<string>, a: Attr): Attr
    decreases a
  {
    match a.value
    case Group(members) =>
      if Hit(c, path + [a.key], members) then Attr(a.key, GroupValue(RedactAll(c, path + [a.key], members))) else a
    case _ => Attr(a.key, RedactLeaf(c, Leaf(path, a.key, a.value)).value)
  }

  function RedactAll(c: Config, path: seq<string>, attrs: seq<Attr>): (out: seq<Attr>)
    ensures |out| == |attrs|
    decreases attrs
  {
    if attrs == [] then [] else [RedactAttr(c, path, attrs[0])] + RedactAll(c, path, attrs[1..])
  }

  // ---- the handler ----

  /** next is what was already forwarded to the wrapped handler's derivation. */
  datatype Handler = Handler(next: seq<Op>, config: Config, ops: seq<Op>)

  function NewHandler(c: Config): Handler {
    Handler([], c, [])
  }

  /** WithAttrs and WithGroup: held when there are rules, forwarded when there are none. */
  function Derive(h: Handler, op: Op): Handler {
    if h.config.rules == [] then Handler(h.next + [op], h.config, [])
    else h.(ops := h.ops + [op])
  }

  function DeriveAll(h: Handler, ops: seq<Op>): Handler
    decreases |ops|
  {
    if ops == [] then h else DeriveAll(Derive(h, ops[0]), ops[1..])
  }

  /** What reaches the wrapped handler. */
  datatype Outcome = Dropped | Forward(ops: seq<Op>, record: seq<Attr>)

  function RedactOps(c: Config, path: seq<string>, ops: seq<Op>): seq<Op>
    decreases |ops|
  {
    if ops == [] then [] else
    match ops[0]
    case Held(attrs) => [Held(RedactAll(c, path, attrs))] + RedactOps(c, path, ops[1..])
    case Open(g) => [ops[0]] + RedactOps(c, path + [g], ops[1..])
  }

  function PathOf(ops: seq<Op>): seq<string> {
    if ops == [] then [] else (if ops[0].Open? then [ops[0].group] else []) + PathOf(ops[1..])
  }

  /** Whether anything held or in the record matches, judged where it was written. */
  predicate AnyHit(c: Config, path: seq<string>, ops: seq<Op>, record: seq<Attr>)
    decreases |ops|
  {
    if ops == [] then Hit(c, path, record) else
    match ops[0]
    case Held(attrs) => Hit(c, path, attrs) || AnyHit(c, path, ops[1..], record)
    case Open(g) => AnyHit(c, path + [g], ops[1..], record)
  }

  function Handled(h: Handler, record: seq<Attr>): Outcome {
    if h.config.mode.Drop? then
      if AnyHit(h.config, [], h.ops, record) then Dropped else Forward(h.next + h.ops, record)
    else Forward(h.next + RedactOps(h.config, [], h.ops), RedactAll(h.config, PathOf(h.ops), record))
  }
}
