/** The attribute tree of the dedup handler as a value: what its node operations
    compute, what a whole Handle call computes from them, and the fold over single
    write events both amount to. */
module Dedup {
  import opened Attrs

  /** One key at one level: a scalar or a nested node. */
  datatype Entry =
    | Leaf(value: Value, pinned: bool)
    | Sub(node: Node, pinned: bool)

  datatype Node = Node(keys: seq<string>, entries: map<string, Entry>)

  const EMPTY: Node := Node([], map[])

  /** What NewDedupHandler and its derivations hold. */
  datatype Handler = Handler(pinned: seq<Attr>, reserved: set<string>, ops: seq<Op>)

  const DEFAULT_RESERVED: set<string> := {"time", "level", "msg"}

  function NewHandler(pinned: seq<Attr>, reserved: seq<string>): Handler {
    Handler(Valid(pinned), DEFAULT_RESERVED + (set k | k in reserved && k != ""), [])
  }

  function WithAttrs(h: Handler, attrs: seq<Attr>): Handler {
    if Valid(attrs) == [] then h else h.(ops := h.ops + [Held(Valid(attrs))])
  }

  function WithGroup(h: Handler, name: string): Handler {
    if name == "" then h else h.(ops := h.ops + [Open(name)])
  }

  /** WithGroup never holds an empty name. */
  predicate GroupsNamed(ops: seq<Op>) {
    forall i | 0 <= i < |ops| :: ops[i].Open? ==> ops[i].group != ""
  }

  // ---- node operations ----

  function Put(n: Node, k: string, e: Entry): Node {
    Node(if k in n.entries then n.keys else n.keys + [k], n.entries[k := e])
  }

  predicate PinnedAt(n: Node, k: string) {
    k in n.entries && n.entries[k].pinned
  }

  /** child hands out a detached node: k holds a pinned scalar. */
  predicate Detached(n: Node, k: string) {
    PinnedAt(n, k) && n.entries[k].Leaf?
  }

  /** What the node child(k) hands out contains. */
  function Child(n: Node, k: string): Node {
    if k in n.entries && n.entries[k].Sub? then n.entries[k].node else EMPTY
  }

  function Insert(n: Node, a: Attr, pinned: bool): Node
    decreases a, 0
  {
    match a.value
    case Group(members) =>
      if a.key == "" then InsertAll(n, members, pinned)
      else if members == [] || (PinnedAt(n, a.key) && !pinned) || Detached(n, a.key) then n
      else Put(n, a.key, Sub(InsertAll(Child(n, a.key), members, pinned), PinnedAt(n, a.key) || pinned))
    case _ =>
      if a == ZERO || (PinnedAt(n, a.key) && !pinned) then n
      else Put(n, a.key, Leaf(a.value, PinnedAt(n, a.key) || pinned))
  }

  function InsertAll(n: Node, attrs: seq<Attr>, pinned: bool): Node
    decreases attrs, 1
  {
    if attrs == [] then n else InsertAll(Insert(n, attrs[0], pinned), attrs[1..], pinned)
  }

  /** The held ops and then the record, written through the moving node. */
  function Replay(n: Node, ops: seq<Op>, record: seq<Attr>): Node
    decreases |ops|
  {
    if ops == [] then InsertAll(n, record, false) else
    match ops[0]
    case Held(attrs) => Replay(InsertAll(n, attrs, false), ops[1..], record)
    case Open(g) =>
      if Detached(n, g) then n
      else Put(n, g, Sub(Replay(Child(n, g), ops[1..], record), PinnedAt(n, g)))
  }

  function Rename(reserved: set<string>, k: string): string {
    if k in reserved then "attr." + k else k
  }

  function Render(n: Node, keys: seq<string>, reserved: set<string>): seq<Attr>
    decreases n, |keys|
  {
    if keys == [] then [] else
    RenderOne(n, keys[0], reserved) + Render(n, keys[1..], reserved)
  }

  /** At most one attribute: an empty group yields none. */
  function RenderOne(n: Node, k: string, reserved: set<string>): seq<Attr>
    decreases n, 0
  {
    if k !in n.entries then [] else
    match n.entries[k]
    case Leaf(v, _) => [Attr(Rename(reserved, k), v)]
    case Sub(m, _) =>
      var members := Render(m, m.keys, {});
      if members == [] then [] else [Attr(Rename(reserved, k), Group(members))]
  }

  function Materialize(n: Node, reserved: set<string>): seq<Attr> {
    Render(n, n.keys, reserved)
  }

  function PinnedTree(h: Handler): Node {
    InsertAll(EMPTY, h.pinned, true)
  }

  /** isClean. */
  predicate Clean(reserved: set<string>, record: seq<Attr>) {
    && (forall i | 0 <= i < |record| :: !record[i].value.Group? && record[i].key !in reserved)
    && (forall i, j | 0 <= i < j < |record| :: record[i].key != record[j].key)
  }

  function SlowPath(h: Handler, record: seq<Attr>): seq<Attr> {
    Materialize(Replay(PinnedTree(h), h.ops, record), h.reserved)
  }

  /** The attributes Handle forwards. */
  function Output(h: Handler, record: seq<Attr>): seq<Attr> {
    if h.ops == [] && h.pinned == [] && Clean(h.reserved, record) then record else SlowPath(h, record)
  }
}
