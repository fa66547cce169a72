/** Which keys the dedup handler keeps for the record's own fields: none of them is ever
    forwarded as an attribute. */
module DedupReserved {
  import opened Attrs
  import opened Dedup
  import opened DedupOutput
  import opened DedupForwarded

  /** The keys a handler protects when it is given these. */
  predicate Protected(given: seq<string>, k: string) {
    k == "time" || k == "level" || k == "msg" || (k != "" && k in given)
  }

  lemma ReservedAre(pinned: seq<Attr>, given: seq<string>, k: string)
    ensures k in NewHandler(pinned, given).reserved <==> Protected(given, k)
  {
  }

  lemma SlowKeys(h: Handler, record: seq<Attr>, i: nat) returns (k: string)
    requires i < |SlowPath(h, record)|
    ensures SlowPath(h, record)[i].key == if k in h.reserved then "attr." + k else k
  {
    var n := Replay(PinnedTree(h), h.ops, record);
    KeysPrinted(n, n.keys, h.reserved);
    assert Keys(SlowPath(h, record))[i] == RenameKeys(h.reserved, EmittedKeys(n, n.keys))[i];
    k := EmittedKeys(n, n.keys)[i];
  }

  /** Whatever is pinned, reserved, held or recorded: no forwarded top-level attribute has
      the key time, level or msg, and one has a key of the given list only if that key is
      itself what another protected key is renamed to. */
  lemma ReservedNeverForwarded(pinned: seq<Attr>, given: seq<string>, calls: seq<Op>, record: seq<Attr>, a: Attr)
    requires a in Output(DeriveAll(NewHandler(pinned, given), calls), record)
    ensures a.key != "time" && a.key != "level" && a.key != "msg"
    ensures a.key != "" && a.key in given ==> exists k :: Protected(given, k) && a.key == "attr." + k
  {
    var plain := NewHandler(pinned, given);
    var h := DeriveAll(plain, calls);
    DerivedHolds(plain, calls);
    var out := Output(h, record);
    var i :| 0 <= i < |out| && out[i] == a;
    ReservedAre(pinned, given, a.key);
    assert |"time"| == 4 && |"msg"| == 3 && |"attr."| == 5 && "level"[0] == 'l';
    if !Fast(h, record) {
      var k := SlowKeys(h, record, i);
      ReservedAre(pinned, given, k);
      assert ("attr." + k)[0] == 'a';
    }
  }

  /** Where no renaming is itself protected, no protected key is ever forwarded. */
  lemma ProtectedNeverForwarded(pinned: seq<Attr>, given: seq<string>, calls: seq<Op>, record: seq<Attr>, a: Attr)
    requires a in Output(DeriveAll(NewHandler(pinned, given), calls), record)
    requires forall k | Protected(given, k) :: "attr." + k !in given
    ensures !Protected(given, a.key)
  {
    ReservedNeverForwarded(pinned, given, calls, record, a);
  }

  /** The value written under a protected key is forwarded under that key behind attr. */
  lemma ProtectedIsRenamed(pinned: seq<Attr>, given: seq<string>, calls: seq<Op>, record: seq<Attr>,
                           k: string, v: Value)
    requires Protected(given, k)
    requires Leave(DeriveAll(NewHandler(pinned, given), calls), record, [k], v)
    ensures v in ValuesAt(Leaves(Output(DeriveAll(NewHandler(pinned, given), calls), record)), ["attr." + k])
  {
    var plain := NewHandler(pinned, given);
    var h := DeriveAll(plain, calls);
    DerivedHolds(plain, calls);
    HeldAreNamed(calls);
    assert [] + Effective(calls) == Effective(calls);
    ReservedAre(pinned, given, k);
    assert k != "";
    ForwardedByEvents(h, record, [k], v);
    assert Printed(h.reserved, [k]) == ["attr." + k];
  }
}
