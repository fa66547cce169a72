/** The global fields handler: a fixed set of top-level fields on every record, merged
    with the record's own attributes or kept outside the groups that were opened. */
module GlobalFields {
  import opened Basics
  import opened Attrs
  import opened AttrTrees

  /** next is what was already forwarded to the wrapped handler's derivation. */
  datatype Handler = Handler(next: seq<Op>, fields: seq<Attr>, override: bool, ops: seq<Op>)

  /** strings.Compare(a, b) < 0, character by character. */
  predicate Less(a: string, b: string) {
    b != "" && (a == "" || a[0] < b[0] || (a[0] == b[0] && Less(a[1..], b[1..])))
  }

  /** At the first character in which they differ the smaller text has the smaller one, or
      has ended. */
  lemma LessMeans(a: string, b: string)
    ensures (Less(a, b)
             <==> exists n: nat :: n <= |a| && n < |b| && a[..n] == b[..n] && (n == |a| || a[n] < b[n]))
  {
    if Less(a, b) {
      var n := Differ(a, b);
    }
    if n: nat :| n <= |a| && n < |b| && a[..n] == b[..n] && (n == |a| || a[n] < b[n]) {
      LessFrom(a, b, n);
    }
  }

  lemma {:induction false} Differ(a: string, b: string) returns (n: nat)
    requires Less(a, b)
    ensures n <= |a| && n < |b| && a[..n] == b[..n] && (n == |a| || a[n] < b[n])
    decreases |a|
  {
    if a == "" || a[0] < b[0] {
      n := 0;
    } else {
      var m := Differ(a[1..], b[1..]);
      n := m + 1;
      assert a == [a[0]] + a[1..] && b == [b[0]] + b[1..];
      assert a[..n] == [a[0]] + a[1..][..m] && b[..n] == [b[0]] + b[1..][..m];
    }
  }

  lemma {:induction false} LessFrom(a: string, b: string, n: nat)
    requires n <= |a| && n < |b| && a[..n] == b[..n] && (n == |a| || a[n] < b[n])
    ensures Less(a, b)
    decreases n
  {
    if n > 0 {
      assert a[0] == a[..n][0] == b[..n][0] == b[0];
      assert a[1..][..n - 1] == a[..n][1..] && b[1..][..n - 1] == b[..n][1..];
      LessFrom(a[1..], b[1..], n - 1);
    }
  }

  predicate Ascending(keys: seq<string>) {
    forall i, j | 0 <= i < j < |keys| :: Less(keys[i], keys[j])
  }

  lemma {:induction false} NotLessItself(a: string)
    ensures !Less(a, a)
  {
    if a != "" {
      NotLessItself(a[1..]);
    }
  }

  /** What NewGlobalFieldsHandler builds from a map of strings: sorted by key, no empty
      key. */
  predicate Globals(fields: seq<Attr>) {
    && Ascending(Keys(fields))
    && forall i | 0 <= i < |fields| :: fields[i].key != "" && fields[i].value.Scalar?
  }

  lemma GlobalsDistinct(fields: seq<Attr>)
    requires Globals(fields)
    ensures Distinct(Keys(fields))
  {
    forall i, j | 0 <= i < j < |fields| ensures Keys(fields)[i] != Keys(fields)[j] {
      NotLessItself(Keys(fields)[i]);
    }
  }

  function Derive(h: Handler, op: Op): Handler {
    match op
    case Held(attrs) =>
      var valid := Valid(attrs);
      if valid == [] then h
      else if h.ops == [] then h.(next := h.next + [Held(valid)])
      else h.(ops := h.ops + [Held(valid)])
    case Open(g) =>
      if g == "" then h
      else if h.fields == [] then h.(next := h.next + [op])
      else h.(ops := h.ops + [op])
  }

  function Occurs(attrs: seq<Attr>, key: string): nat {
    if attrs == [] then 0 else (if attrs[0].key == key then 1 else 0) + Occurs(attrs[1..], key)
  }

  predicate HasKey(attrs: seq<Attr>, key: string) {
    exists i | 0 <= i < |attrs| :: attrs[i].key == key
  }

  /** lookup. */
  function Index(fields: seq<Attr>, key: string): (r: Option<nat>)
    ensures r.Some? ==> r.value < |fields| && fields[r.value].key == key
    ensures r.None? <==> !HasKey(fields, key)
  {
    if fields == [] then None
    else if fields[|fields| - 1].key == key then Some(|fields| - 1)
    else Index(fields[..|fields| - 1], key)
  }

  lemma {:induction false} LessChains(a: string, b: string, c: string)
    requires Less(a, b) && Less(b, c)
    ensures Less(a, c)
  {
    if a != "" && a[0] == b[0] == c[0] {
      LessChains(a[1..], b[1..], c[1..]);
    }
  }

  lemma {:induction false} IndexIs(fields: seq<Attr>, key: string, i: nat)
    requires Distinct(Keys(fields)) && i < |fields| && fields[i].key == key
    ensures Index(fields, key) == Some(i)
    decreases |fields|
  {
    var n := |fields| - 1;
    assert Keys(fields)[i] == key && Keys(fields)[n] == fields[n].key;
    if i < n {
      assert forall j | 0 <= j < n :: Keys(fields[..n])[j] == Keys(fields)[j];
      IndexIs(fields[..n], key, i);
    }
  }

  /** lookup: the binary search finds the field with the key, if there is one. */
  method Lookup(fields: seq<Attr>, key: string) returns (r: Option<nat>)
    requires Globals(fields)
    ensures r == Index(fields, key)
  {
    var lo, hi := 0, |fields|;
    while lo < hi
      invariant 0 <= lo <= hi <= |fields|
      invariant forall i | 0 <= i < lo :: Less(fields[i].key, key)
      invariant forall i | hi <= i < |fields| :: !Less(fields[i].key, key)
    {
      var mid := (lo + hi) / 2;
      if Less(fields[mid].key, key) {
        KeysBefore(fields, mid, key);
        lo := mid + 1;
      } else {
        KeysAfter(fields, mid, key);
        hi := mid;
      }
    }
    if lo < |fields| && fields[lo].key == key {
      GlobalsDistinct(fields);
      IndexIs(fields, key, lo);
      return Some(lo);
    }
    Absent(fields, lo, key);
    return None;
  }

  lemma Absent(fields: seq<Attr>, lo: nat, key: string)
    requires Globals(fields) && lo <= |fields| && (lo < |fields| ==> fields[lo].key != key)
    requires forall i | 0 <= i < lo :: Less(fields[i].key, key)
    requires forall i | lo <= i < |fields| :: !Less(fields[i].key, key)
    ensures !HasKey(fields, key)
  {
    NotLessItself(key);
    forall j | lo < j < |fields| ensures fields[j].key != key {
      assert Less(Keys(fields)[lo], Keys(fields)[j]);
    }
  }

  lemma KeysBefore(fields: seq<Attr>, mid: nat, key: string)
    requires Globals(fields) && mid < |fields| && Less(fields[mid].key, key)
    ensures forall i | 0 <= i <= mid :: Less(fields[i].key, key)
  {
    forall i | 0 <= i < mid ensures Less(fields[i].key, key) {
      assert Less(Keys(fields)[i], Keys(fields)[mid]);
      LessChains(fields[i].key, fields[mid].key, key);
    }
  }

  lemma KeysAfter(fields: seq<Attr>, mid: nat, key: string)
    requires Globals(fields) && mid < |fields| && !Less(fields[mid].key, key)
    ensures forall i | mid <= i < |fields| :: !Less(fields[i].key, key)
  {
    forall i | mid < i < |fields| ensures !Less(fields[i].key, key) {
      assert Less(Keys(fields)[mid], Keys(fields)[i]);
      if Less(fields[i].key, key) {
        LessChains(fields[mid].key, fields[i].key, key);
      }
    }
  }

  // ---- merge ----

  /** The record's attributes, with repeats of a replaced key dropped. */
  function Replaced(fields: seq<Attr>, override: bool, attrs: seq<Attr>): seq<Attr> {
    if attrs == [] then [] else
    var a, done := attrs[|attrs| - 1], Replaced(fields, override, attrs[..|attrs| - 1]);
    var i := Index(fields, a.key);
    if i.None? || !override then done + [a]
    else if HasKey(done, a.key) then done
    else done + [fields[i.value]]
  }

  function Missing(fields: seq<Attr>, attrs: seq<Attr>): seq<Attr> {
    if fields == [] then []
    else Missing(fields[..|fields| - 1], attrs)
         + (if HasKey(attrs, fields[|fields| - 1].key) then [] else [fields[|fields| - 1]])
  }

  function Merged(fields: seq<Attr>, override: bool, attrs: seq<Attr>): seq<Attr> {
    Replaced(fields, override, attrs) + Missing(fields, attrs)
  }

  method Merge(fields: seq<Attr>, override: bool, attrs: seq<Attr>) returns (out: seq<Attr>)
    ensures out == Merged(fields, override, attrs)
  {
    out := [];
    for n := 0 to |attrs|
      invariant out == Replaced(fields, override, attrs[..n])
    {
      var a := attrs[n];
      assert attrs[..n + 1][..n] == attrs[..n];
      var i := Index(fields, a.key);
      if i.None? || !override {
        out := out + [a];
      } else if !HasKey(out, a.key) {
        out := out + [fields[i.value]];
      }
    }
    assert attrs[..|attrs|] == attrs;
    ghost var merged := out;
    for n := 0 to |fields|
      invariant out == merged + Missing(fields[..n], attrs)
    {
      assert fields[..n + 1][..n] == fields[..n];
      if !HasKey(attrs, fields[n].key) {
        out := out + [fields[n]];
      }
    }
    assert fields[..|fields|] == fields;
  }

  lemma {:induction false} OccursConcat(a: seq<Attr>, b: seq<Attr>, key: string)
    ensures Occurs(a + b, key) == Occurs(a, key) + Occurs(b, key)
    decreases |a|
  {
    if a == [] {
      assert a + b == b;
    } else {
      OccursConcat(a[1..], b, key);
      assert (a + b)[1..] == a[1..] + b;
    }
  }

  lemma OccursOne(a: Attr, key: string)
    ensures Occurs([a], key) == if a.key == key then 1 else 0
  {
    assert [a][1..] == [];
  }

  lemma {:induction false} OccursHas(attrs: seq<Attr>, key: string)
    ensures Occurs(attrs, key) > 0 <==> HasKey(attrs, key)
    decreases |attrs|
  {
    if attrs != [] {
      OccursHas(attrs[1..], key);
      assert attrs == [attrs[0]] + attrs[1..];
    }
  }

  lemma OccursLast(attrs: seq<Attr>, key: string)
    requires attrs != []
    ensures (Occurs(attrs, key)
             == Occurs(attrs[..|attrs| - 1], key) + (if attrs[|attrs| - 1].key == key then 1 else 0))
  {
    assert attrs == attrs[..|attrs| - 1] + [attrs[|attrs| - 1]];
    OccursConcat(attrs[..|attrs| - 1], [attrs[|attrs| - 1]], key);
    OccursOne(attrs[|attrs| - 1], key);
  }

  lemma {:induction false} ReplacedOccurs(fields: seq<Attr>, override: bool, attrs: seq<Attr>, key: string)
    ensures (Occurs(Replaced(fields, override, attrs), key)
             == if override && HasKey(fields, key) && HasKey(attrs, key) then 1 else Occurs(attrs, key))
    decreases |attrs|
  {
    if attrs != [] {
      var n := |attrs| - 1;
      var a, done := attrs[n], Replaced(fields, override, attrs[..n]);
      ReplacedOccurs(fields, override, attrs[..n], key);
      OccursLast(attrs, key);
      OccursHas(attrs, key);
      OccursHas(attrs[..n], key);
      OccursHas(done, key);
      var i := Index(fields, a.key);
      var b := if i.None? || !override then a else fields[i.value];
      OccursConcat(done, [b], key);
      OccursOne(b, key);
    }
  }

  lemma {:induction false} MissingOccurs(fields: seq<Attr>, attrs: seq<Attr>, key: string)
    ensures Occurs(Missing(fields, attrs), key) == if HasKey(attrs, key) then 0 else Occurs(fields, key)
    decreases |fields|
  {
    if fields != [] {
      var n := |fields| - 1;
      MissingOccurs(fields[..n], attrs, key);
      OccursLast(fields, key);
      OccursConcat(Missing(fields[..n], attrs), if HasKey(attrs, fields[n].key) then [] else [fields[n]], key);
      OccursOne(fields[n], key);
    }
  }

  lemma {:induction false} GlobalOnceInFields(fields: seq<Attr>, key: string)
    requires Distinct(Keys(fields))
    ensures Occurs(fields, key) == if HasKey(fields, key) then 1 else 0
    decreases |fields|
  {
    if fields != [] {
      var rest := fields[1..];
      assert fields == [fields[0]] + rest;
      assert forall i | 0 <= i < |rest| :: Keys(rest)[i] == Keys(fields)[i + 1];
      GlobalOnceInFields(rest, key);
      OccursHas(rest, key);
      if HasKey(rest, key) {
        var i :| 0 <= i < |rest| && rest[i].key == key;
        assert Keys(fields)[0] != Keys(fields)[i + 1];
      }
    }
  }

  /** How often each key ends up in the merged record: a global key once when it was
      missing or overridden, otherwise every key as often as before. */
  lemma MergeOccurs(fields: seq<Attr>, override: bool, attrs: seq<Attr>, key: string)
    requires Globals(fields)
    ensures (Occurs(Merged(fields, override, attrs), key)
             == if HasKey(fields, key) && (override || !HasKey(attrs, key)) then 1 else Occurs(attrs, key))
  {
    GlobalsDistinct(fields);
    OccursConcat(Replaced(fields, override, attrs), Missing(fields, attrs), key);
    ReplacedOccurs(fields, override, attrs, key);
    MissingOccurs(fields, attrs, key);
    GlobalOnceInFields(fields, key);
    OccursHas(attrs, key);
  }

  /** The promise that each global key is forwarded at most once is kept exactly when
      global fields override, or the record itself repeats no global key. */
  lemma GlobalKeysOnce(fields: seq<Attr>, override: bool, attrs: seq<Attr>)
    requires Globals(fields)
    ensures ((forall key | HasKey(fields, key) :: Occurs(Merged(fields, override, attrs), key) <= 1)
             <==> override || forall key | HasKey(fields, key) :: Occurs(attrs, key) <= 1)
  {
    forall key ensures HasKey(fields, key) ==>
        (Occurs(Merged(fields, override, attrs), key)
         == if override || !HasKey(attrs, key) then 1 else Occurs(attrs, key))
    {
      MergeOccurs(fields, override, attrs, key);
    }
    forall key ensures !HasKey(attrs, key) ==> Occurs(attrs, key) == 0 {
      OccursHas(attrs, key);
    }
  }

  /** Which values survive: an overriding global field, else the record's own. */
  lemma {:induction false} ReplacedValues(fields: seq<Attr>, override: bool, attrs: seq<Attr>)
    ensures !override ==> Replaced(fields, override, attrs) == attrs
    ensures override ==> forall a | a in Replaced(fields, override, attrs) ::
              if HasKey(fields, a.key) then a in fields else a in attrs
    decreases |attrs|
  {
    if attrs != [] {
      var n := |attrs| - 1;
      ReplacedValues(fields, override, attrs[..n]);
      assert attrs == attrs[..n] + [attrs[n]];
    }
  }

  /** The attribute at i stays in the record: it is not a later repeat of a replaced
      key. */
  predicate Remains(fields: seq<Attr>, override: bool, attrs: seq<Attr>, i: int)
    requires 0 <= i < |attrs|
  {
    !override || !HasKey(fields, attrs[i].key) || !HasKey(attrs[..i], attrs[i].key)
  }

  /** The positions that remain, in order. */
  function Places(fields: seq<Attr>, override: bool, attrs: seq<Attr>, n: nat): (places: seq<nat>)
    requires n <= |attrs|
    ensures forall i | 0 <= i < |places| :: places[i] < n
  {
    if n == 0 then [] else
    Places(fields, override, attrs, n - 1) + (if Remains(fields, override, attrs, n - 1) then [n - 1] else [])
  }

  /** What stands where a once stood. */
  function Instead(fields: seq<Attr>, override: bool, a: Attr): Attr {
    if override && HasKey(fields, a.key) then fields[Index(fields, a.key).value] else a
  }

  function StandAt(fields: seq<Attr>, override: bool, attrs: seq<Attr>, places: seq<nat>): seq<Attr>
    requires forall i | 0 <= i < |places| :: places[i] < |attrs|
  {
    seq(|places|, i requires 0 <= i < |places| => Instead(fields, override, attrs[places[i]]))
  }

  lemma KeysRemain(fields: seq<Attr>, override: bool, attrs: seq<Attr>, key: string)
    ensures HasKey(Replaced(fields, override, attrs), key) <==> HasKey(attrs, key)
  {
    ReplacedOccurs(fields, override, attrs, key);
    OccursHas(Replaced(fields, override, attrs), key);
    OccursHas(attrs, key);
  }

  /** Each attribute that remains keeps its place among the others, a global field in
      the place of the one it replaces. */
  lemma {:induction false} ReplacedInPlace(fields: seq<Attr>, override: bool, attrs: seq<Attr>, n: nat)
    requires n <= |attrs|
    ensures (Replaced(fields, override, attrs[..n])
             == StandAt(fields, override, attrs, Places(fields, override, attrs, n)))
    decreases n
  {
    if n > 0 {
      assert attrs[..n][..n - 1] == attrs[..n - 1];
      ReplacedInPlace(fields, override, attrs, n - 1);
      KeysRemain(fields, override, attrs[..n - 1], attrs[n - 1].key);
    }
  }

  lemma {:induction false} MissingAre(fields: seq<Attr>, attrs: seq<Attr>)
    ensures forall g :: g in Missing(fields, attrs) <==> g in fields && !HasKey(attrs, g.key)
    decreases |fields|
  {
    if fields != [] {
      var n := |fields| - 1;
      MissingAre(fields[..n], attrs);
      assert fields == fields[..n] + [fields[n]];
    }
  }

  lemma {:induction false} MissingAscends(fields: seq<Attr>, attrs: seq<Attr>)
    requires Ascending(Keys(fields))
    ensures Ascending(Keys(Missing(fields, attrs)))
    decreases |fields|
  {
    if fields != [] {
      var n := |fields| - 1;
      var init, before := fields[..n], Missing(fields[..n], attrs);
      assert forall i | 0 <= i < n :: Keys(init)[i] == Keys(fields)[i];
      MissingAscends(init, attrs);
      MissingAre(init, attrs);
      forall i | 0 <= i < |before| ensures Less(before[i].key, fields[n].key) {
        assert before[i] in before;
        var j :| 0 <= j < n && init[j] == before[i];
        assert Less(Keys(fields)[j], Keys(fields)[n]);
      }
      var out := Missing(fields, attrs);
      assert out == before || out == before + [fields[n]];
      forall i, j | 0 <= i < j < |out| ensures Less(Keys(out)[i], Keys(out)[j]) {
        assert j < |before| ==> Less(Keys(before)[i], Keys(before)[j]);
      }
    }
  }

  /** The merged record: the record's attributes in their places, each overridden one
      replaced where it first stood and its repeats gone, and then, sorted, exactly the
      global fields whose key the record lacks. */
  lemma MergedInOrder(fields: seq<Attr>, override: bool, attrs: seq<Attr>)
    requires Globals(fields)
    ensures (Merged(fields, override, attrs)
             == StandAt(fields, override, attrs, Places(fields, override, attrs, |attrs|)) + Missing(fields, attrs))
    ensures Ascending(Keys(Missing(fields, attrs)))
    ensures forall g :: g in Missing(fields, attrs) <==> g in fields && !HasKey(attrs, g.key)
  {
    assert attrs[..|attrs|] == attrs;
    ReplacedInPlace(fields, override, attrs, |attrs|);
    MissingAscends(fields, attrs);
    MissingAre(fields, attrs);
  }

  // ---- handle ----

  /** The right fold as the code runs it, with slog's own group values. */
  function Built(ops: seq<Op>, record: seq<Attr>): seq<Attr> {
    if ops == [] then record else
    var rest := Built(ops[1..], record);
    match ops[0]
    case Held(attrs) => attrs + rest
    case Open(g) => if rest == [] then [] else [Attr(g, GroupValue(rest))]
  }

  method HandleGrouped(h: Handler, record: seq<Attr>) returns (out: seq<Attr>)
    ensures out == h.fields + NonEmpty(Built(h.ops, record))
  {
    var attrs := record;
    var i := |h.ops|;
    assert h.ops[i..] == [];
    while i > 0
      invariant 0 <= i <= |h.ops|
      invariant attrs == Built(h.ops[i..], record)
    {
      i := i - 1;
      var op := h.ops[i];
      assert h.ops[i..][1..] == h.ops[i + 1..];
      if op.Held? {
        attrs := op.attrs + attrs;
      } else if |attrs| != 0 {
        attrs := [Attr(op.group, GroupValue(attrs))];
      }
    }
    assert h.ops[0..] == h.ops;
    out := h.fields + NonEmpty(attrs);
  }

  /** The record the wrapped handler sees. */
  function Forwarded(h: Handler, record: seq<Attr>): seq<Attr> {
    if h.fields == [] then record
    else if h.ops != [] then h.fields + NonEmpty(Built(h.ops, record))
    else Merged(h.fields, h.override, record)
  }

  lemma {:induction false} NothingMissing(fields: seq<Attr>, attrs: seq<Attr>)
    requires forall i | 0 <= i < |attrs| :: !HasKey(fields, attrs[i].key)
    ensures Missing(fields, attrs) == fields
    decreases |fields|
  {
    if fields != [] {
      var n := |fields| - 1;
      LastMissing(fields, n, attrs);
      NothingMissing(fields[..n], attrs);
      assert Missing(fields, attrs) == Missing(fields[..n], attrs) + [fields[n]];
      assert fields[..n] + [fields[n]] == fields;
    }
  }

  lemma LastMissing(fields: seq<Attr>, n: nat, attrs: seq<Attr>)
    requires n < |fields| && forall i | 0 <= i < |attrs| :: !HasKey(fields, attrs[i].key)
    ensures !HasKey(attrs, fields[n].key) && forall i | 0 <= i < |attrs| :: !HasKey(fields[..n], attrs[i].key)
  {
    forall i | 0 <= i < |attrs| ensures attrs[i].key != fields[n].key && !HasKey(fields[..n], attrs[i].key) {
      FewerKeys(fields, n, attrs[i].key);
    }
  }

  lemma FewerKeys(fields: seq<Attr>, n: nat, key: string)
    requires n < |fields| && !HasKey(fields, key)
    ensures fields[n].key != key && !HasKey(fields[..n], key)
  {
    assert forall i | 0 <= i < n :: fields[..n][i] == fields[i];
  }

  lemma {:induction false} NothingReplaced(fields: seq<Attr>, override: bool, attrs: seq<Attr>)
    requires forall i | 0 <= i < |attrs| :: !HasKey(fields, attrs[i].key)
    ensures Replaced(fields, override, attrs) == attrs
    decreases |attrs|
  {
    if attrs != [] {
      NothingReplaced(fields, override, attrs[..|attrs| - 1]);
    }
  }

  /** Handle, whose path without a collision appends the fields and is the merge. */
  method Handle(h: Handler, record: seq<Attr>) returns (out: seq<Attr>)
    ensures out == Forwarded(h, record)
  {
    if |h.fields| == 0 {
      return record;
    }
    if |h.ops| > 0 {
      out := HandleGrouped(h, record);
      return;
    }
    var collides := false;
    for n := 0 to |record|
      invariant !collides ==> forall i | 0 <= i < n :: !HasKey(h.fields, record[i].key)
    {
      if Index(h.fields, record[n].key).Some? {
        collides := true;
        break;
      }
    }
    if !collides {
      NothingMissing(h.fields, record);
      NothingReplaced(h.fields, h.override, record);
      return record + h.fields;
    }
    out := Merge(h.fields, h.override, record);
  }

  // ---- what the groups do ----

  lemma {:induction false} BuiltLeaves(path: seq<string>, ops: seq<Op>, record: seq<Attr>)
    ensures Leaves(path, Built(ops, record)) == Leaves(path, Nest(ops, record))
    decreases |ops|
  {
    if ops != [] {
      var built, nested := Built(ops[1..], record), Nest(ops[1..], record);
      match ops[0]
      case Held(attrs) =>
        BuiltLeaves(path, ops[1..], record);
        LeavesConcat(path, attrs, built);
        LeavesConcat(path, attrs, nested);
      case Open(g) =>
        BuiltLeaves(path + [g], ops[1..], record);
        LeavesNonEmpty(path + [g], built);
        LeavesSingle(path, Attr(g, GroupValue(built)));
        LeavesSingle(path, Attr(g, Group(nested)));
    }
  }

  /** Without empty groups the loop computes the plain right fold. */
  lemma {:induction false} BuiltIsNest(ops: seq<Op>, record: seq<Attr>)
    requires PackedOps(ops) && Packed(record)
    ensures Built(ops, record) == Nest(ops, record) && NonEmpty(Built(ops, record)) == Nest(ops, record)
    decreases |ops|
  {
    PackedNest(ops, record);
    NonEmptyPacked(Nest(ops, record));
    if ops != [] {
      BuiltIsNest(ops[1..], record);
      PackedNest(ops[1..], record);
      NonEmptyPacked(Nest(ops[1..], record));
    }
  }

  function DeriveAll(h: Handler, ops: seq<Op>): Handler
    decreases |ops|
  {
    if ops == [] then h else DeriveAll(Derive(h, ops[0]), ops[1..])
  }

  predicate OnlyHeld(ops: seq<Op>) {
    forall i | 0 <= i < |ops| :: ops[i].Held?
  }

  lemma DeriveOne(h: Handler, op: Op)
    requires h.fields != [] && OnlyHeld(h.next) && (h.ops != [] ==> h.ops[0].Open?)
    ensures var g := Derive(h, op);
            && g.fields == h.fields && g.override == h.override && OnlyHeld(g.next)
            && g.next + g.ops == h.next + h.ops + Kept(op)
            && (g.ops != [] ==> g.ops[0].Open?)
  {
  }

  /** With global fields nothing but attributes is ever forwarded ahead: the first group
      and everything after it are held, in order. */
  lemma {:induction false} DeriveAllHolds(h: Handler, ops: seq<Op>)
    requires h.fields != [] && OnlyHeld(h.next) && (h.ops != [] ==> h.ops[0].Open?)
    ensures var g := DeriveAll(h, ops);
            && g.fields == h.fields && g.override == h.override && OnlyHeld(g.next)
            && g.next + g.ops == h.next + h.ops + Effective(ops)
            && (g.ops != [] ==> g.ops[0].Open?)
    decreases |ops|
  {
    if ops != [] {
      var d := Derive(h, ops[0]);
      DeriveOne(h, ops[0]);
      DeriveAllHolds(d, ops[1..]);
      assert h.next + h.ops + Effective(ops) == (h.next + h.ops + Kept(ops[0])) + Effective(ops[1..]);
    } else {
      assert h.next + h.ops + Effective(ops) == h.next + h.ops;
    }
  }

  lemma CallsAssociate(a: seq<Op>, b: seq<Op>, c: seq<Op>)
    ensures (a + b) + c == a + (b + c)
  {
  }

  lemma ForwardOne(h: Handler, op: Op)
    requires h.fields == [] && h.ops == []
    ensures Derive(h, op) == h.(next := h.next + Kept(op))
  {
    assert h.next + [] == h.next;
  }

  /** Without global fields the handler is transparent: every call that is not ignored goes
      to the wrapped handler, and so does the record, untouched. */
  lemma {:induction false} NoFieldsTransparent(h: Handler, ops: seq<Op>, record: seq<Attr>)
    requires h.fields == [] && h.ops == []
    ensures DeriveAll(h, ops) == h.(next := h.next + Effective(ops))
    ensures Forwarded(DeriveAll(h, ops), record) == record
    decreases |ops|
  {
    if ops == [] {
      assert h.next + [] == h.next;
    } else {
      var kept, later := Kept(ops[0]), Effective(ops[1..]);
      ForwardOne(h, ops[0]);
      NoFieldsTransparent(h.(next := h.next + kept), ops[1..], record);
      CallsAssociate(h.next, kept, later);
    }
  }

  lemma {:induction false} HeldFirst(a: seq<Op>, b: seq<Op>, record: seq<Attr>) returns (pre: seq<Attr>)
    requires OnlyHeld(a)
    ensures forall r :: Nest(a, r) == pre + r
    ensures Nest(a + b, record) == pre + Nest(b, record)
    decreases |a|
  {
    if a == [] {
      pre := [];
      assert a + b == b;
      forall r ensures Nest(a, r) == pre + r {
        assert [] + r == r;
      }
    } else {
      var rest := HeldFirst(a[1..], b, record);
      assert (a + b)[1..] == a[1..] + b;
      pre := a[0].attrs + rest;
      forall r ensures Nest(a, r) == pre + r {
        assert Nest(a[1..], r) == rest + r;
        assert a[0].attrs + (rest + r) == pre + r;
      }
      assert a[0].attrs + (rest + Nest(b, record)) == pre + Nest(b, record);
    }
  }

  /** Once a group is open, what reaches the output is the nested tree of all calls and
      the record, leaf by leaf, with the global fields inserted at the top level, behind
      the attributes that were added before the first group. */
  lemma GlobalsStayOnTop(fields: seq<Attr>, override: bool, ops: seq<Op>, record: seq<Attr>)
    returns (pre: seq<Attr>, post: seq<Attr>)
    requires Globals(fields) && fields != []
    requires DeriveAll(Handler([], fields, override, []), ops).ops != []
    ensures var h := DeriveAll(Handler([], fields, override, []), ops);
            Leaves([], Nest(h.next, Forwarded(h, record))) == Leaves([], pre) + Leaves([], fields) + Leaves([], post)
    ensures Leaves([], Nest(Effective(ops), record)) == Leaves([], pre) + Leaves([], post)
  {
    var start := Handler([], fields, override, []);
    var h := DeriveAll(start, ops);
    DeriveAllHolds(start, ops);
    assert h.next + h.ops == Effective(ops);
    post := Nest(h.ops, record);
    pre := HeldFirst(h.next, h.ops, record);
    LeavesConcat([], pre, post);
    OnTop(h, record, pre);
  }

  lemma OnTop(h: Handler, record: seq<Attr>, pre: seq<Attr>)
    requires h.fields != [] && h.ops != [] && forall r :: Nest(h.next, r) == pre + r
    ensures (Leaves([], Nest(h.next, Forwarded(h, record)))
             == Leaves([], pre) + Leaves([], h.fields) + Leaves([], Nest(h.ops, record)))
  {
    var built := Built(h.ops, record);
    LeavesConcat([], pre, h.fields + NonEmpty(built));
    LeavesConcat([], h.fields, NonEmpty(built));
    LeavesNonEmpty([], built);
    BuiltLeaves([], h.ops, record);
  }
}
