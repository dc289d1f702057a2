/** The record list is a map from (guid, finger) to template data, over every sequence of operations. */
module RecordStoreProofs {
  import opened Bytes
  import opened Wrappers
  import opened RecordSpec

  type Key = (Guid, Finger)

  function KeyOf(r: Rec): Key { (r.guid, r.finger) }

  function ToMap(c: seq<Rec>): map<Key, bytes> {
    if c == [] then map[] else ToMap(c[1..])[KeyOf(c[0]) := c[0].data]
  }

  /** The map holds exactly the records of the list. */
  lemma {:induction false} MapHolds(c: seq<Rec>)
    requires UniqueKeys(c)
    ensures forall r :: r in c <==> KeyOf(r) in ToMap(c) && ToMap(c)[KeyOf(r)] == r.data
  {
    if c != [] {
      MapHolds(c[1..]);
      forall r ensures r in c <==> KeyOf(r) in ToMap(c) && ToMap(c)[KeyOf(r)] == r.data {
        if r in c[1..] { assert KeyOf(r) != KeyOf(c[0]); }
        if KeyOf(r) == KeyOf(c[0]) && r.data == c[0].data { assert r == c[0]; }
      }
    }
  }

  lemma HasKeyInMap(c: seq<Rec>, guid: Guid, finger: Finger)
    requires UniqueKeys(c)
    ensures HasKey(c, guid, finger) <==> (guid, finger) in ToMap(c)
  {
    MapHolds(c);
    if HasKey(c, guid, finger) {
      var i :| 0 <= i < |c| && c[i].guid == guid && c[i].finger == finger;
      assert c[i] in c;
    }
    if (guid, finger) in ToMap(c) {
      assert Rec(guid, finger, ToMap(c)[(guid, finger)]) in c;
    }
  }

  // ---------------------------------------------------------------- operations on both sides

  datatype Op =
    | Add(r: Rec)                                     // tudor_add_record, storage_AddRecord
    | Wipe(guid: Option<Guid>, finger: Finger)        // tudor_wipe_records, storage_DeleteRecord
    | AddOrReplace(r: Rec)                            // the host's ADD_RECORD

  function ListOp(c: seq<Rec>, op: Op): seq<Rec> {
    match op
    case Add(r) => Added(c, r)
    case Wipe(guid, finger) => Without(c, guid, finger)
    case AddOrReplace(r) => Replaced(c, r)
  }

  function MapWipe(m: map<Key, bytes>, guid: Option<Guid>, finger: Finger): map<Key, bytes> {
    map k | k in m && !Matches(Rec(k.0, k.1, m[k]), guid, finger) :: m[k]
  }

  function MapOp(m: map<Key, bytes>, op: Op): map<Key, bytes> {
    match op
    case Add(r) => if KeyOf(r) in m then m else m[KeyOf(r) := r.data]
    case Wipe(guid, finger) => MapWipe(m, guid, finger)
    case AddOrReplace(r) =>
      if KeyOf(r) in m then MapWipe(m, Some(r.guid), r.finger)[KeyOf(r) := r.data] else m[KeyOf(r) := r.data]
  }

  function ListRun(c: seq<Rec>, ops: seq<Op>): seq<Rec>
    decreases |ops|
  {
    if ops == [] then c else ListRun(ListOp(c, ops[0]), ops[1..])
  }

  function MapRun(m: map<Key, bytes>, ops: seq<Op>): map<Key, bytes>
    decreases |ops|
  {
    if ops == [] then m else MapRun(MapOp(m, ops[0]), ops[1..])
  }

  /** Two unique-keyed lists with the same records are the same map. */
  lemma SameRecordsSameMap(c: seq<Rec>, m: map<Key, bytes>)
    requires UniqueKeys(c)
    requires forall r :: r in c <==> KeyOf(r) in m && m[KeyOf(r)] == r.data
    ensures ToMap(c) == m
  {
    MapHolds(c);
    forall k ensures k in ToMap(c) <==> k in m {
      if k in ToMap(c) { assert Rec(k.0, k.1, ToMap(c)[k]) in c; }
      if k in m { assert Rec(k.0, k.1, m[k]) in c; }
    }
    forall k | k in m ensures ToMap(c)[k] == m[k] {
      assert Rec(k.0, k.1, m[k]) in c;
    }
  }

  lemma FrontMap(c: seq<Rec>, r: Rec)
    requires UniqueKeys(c) && !HasKey(c, r.guid, r.finger)
    ensures UniqueKeys([r] + c) && ToMap([r] + c) == ToMap(c)[KeyOf(r) := r.data]
  {
    assert ([r] + c)[1..] == c;
  }

  lemma WipeMap(c: seq<Rec>, guid: Option<Guid>, finger: Finger)
    requires UniqueKeys(c)
    ensures UniqueKeys(Without(c, guid, finger)) && ToMap(Without(c, guid, finger)) == MapWipe(ToMap(c), guid, finger)
  {
    WithoutKeeps(c, guid, finger);
    MapHolds(c);
    SameRecordsSameMap(Without(c, guid, finger), MapWipe(ToMap(c), guid, finger));
  }

  lemma OpRefines(c: seq<Rec>, op: Op)
    requires UniqueKeys(c)
    ensures UniqueKeys(ListOp(c, op)) && ToMap(ListOp(c, op)) == MapOp(ToMap(c), op)
  {
    match op
    case Add(r) =>
      HasKeyInMap(c, r.guid, r.finger);
      if !HasKey(c, r.guid, r.finger) { FrontMap(c, r); }
    case Wipe(guid, finger) => WipeMap(c, guid, finger);
    case AddOrReplace(r) =>
      HasKeyInMap(c, r.guid, r.finger);
      if HasKey(c, r.guid, r.finger) {
        WipeMap(c, Some(r.guid), r.finger);
        WipedKeyIsFree(c, r.guid, r.finger);
        FrontMap(Without(c, Some(r.guid), r.finger), r);
      } else {
        FrontMap(c, r);
      }
  }

  /** From any state with unique keys, every sequence of operations keeps keys unique and does on the
      list what it does on the map. */
  lemma {:induction false} StoreRefinesMap(c: seq<Rec>, ops: seq<Op>)
    requires UniqueKeys(c)
    ensures UniqueKeys(ListRun(c, ops)) && ToMap(ListRun(c, ops)) == MapRun(ToMap(c), ops)
    decreases |ops|
  {
    if ops != [] {
      OpRefines(c, ops[0]);
      StoreRefinesMap(ListOp(c, ops[0]), ops[1..]);
    }
  }

  // ---------------------------------------------------------------- ADD_RECORD

  /** Another finger of the same guid is stored. */
  predicate OtherFingers(c: seq<Rec>, guid: Guid, finger: Finger) {
    exists i :: 0 <= i < |c| && c[i].guid == guid && c[i].finger != finger
  }

  /** ADD_RECORD is a map update, except where it replaces a record stored under the finger "any":
      the wipe before the second add then takes every finger of that guid with it. */
  lemma AddRecordIsUpsertIff(c: seq<Rec>, r: Rec)
    requires UniqueKeys(c)
    ensures ToMap(Replaced(c, r)) == ToMap(c)[KeyOf(r) := r.data]
       <==> (r.finger != FINGER_ANY || !HasKey(c, r.guid, r.finger) || !OtherFingers(c, r.guid, r.finger))
  {
    OpRefines(c, AddOrReplace(r));
    HasKeyInMap(c, r.guid, r.finger);
    MapHolds(c);
    var m, w := ToMap(c), MapWipe(ToMap(c), Some(r.guid), r.finger);
    if HasKey(c, r.guid, r.finger) {
      if r.finger == FINGER_ANY && OtherFingers(c, r.guid, r.finger) {
        var i :| 0 <= i < |c| && c[i].guid == r.guid && c[i].finger != r.finger;
        assert c[i] in c && KeyOf(c[i]) in m && KeyOf(c[i]) !in w;
        assert KeyOf(c[i]) in m[KeyOf(r) := r.data] && KeyOf(c[i]) !in w[KeyOf(r) := r.data];
      } else {
        forall k | k in m && k != KeyOf(r) ensures k in w {
          assert Rec(k.0, k.1, m[k]) in c;
        }
        assert w[KeyOf(r) := r.data] == m[KeyOf(r) := r.data];
      }
    }
  }

  // ---------------------------------------------------------------- queries

  /** `part` is an in-order selection of elements of `c`. */
  predicate InOrder(part: seq<Rec>, c: seq<Rec>) {
    part == [] || (c != [] && if part[0] == c[0] then InOrder(part[1..], c[1..]) else InOrder(part, c[1..]))
  }

  lemma {:induction false} QueryInOrder(c: seq<Rec>, guid: Option<Guid>, finger: Finger)
    ensures InOrder(Matching(c, guid, finger), c)
    ensures Matching(c, guid, finger) != [] ==> Matches(Matching(c, guid, finger)[0], guid, finger)
  {
    if c != [] {
      QueryInOrder(c[1..], guid, finger);
      var m := Matching(c[1..], guid, finger);
      if Matches(c[0], guid, finger) {
        assert Matching(c, guid, finger)[1..] == m;
      } else {
        assert Matching(c, guid, finger) == m;
      }
    }
  }

  /** The result of a query holds exactly the matching records, each once. */
  lemma {:induction false} QueryIsExact(c: seq<Rec>, guid: Option<Guid>, finger: Finger)
    ensures forall r :: r in Matching(c, guid, finger) <==> r in c && Matches(r, guid, finger)
    ensures UniqueKeys(c) ==> UniqueKeys(Matching(c, guid, finger))
  {
    if c != [] {
      QueryIsExact(c[1..], guid, finger);
      var m := Matching(c[1..], guid, finger);
      assert forall r :: r in c <==> r == c[0] || r in c[1..];
      if UniqueKeys(c) && Matches(c[0], guid, finger) {
        forall j | 0 <= j < |m| ensures m[j].guid != c[0].guid || m[j].finger != c[0].finger {
          assert m[j] in c[1..];
        }
      }
    }
  }

  lemma {:induction false} NothingLeft(c: seq<Rec>, guid: Option<Guid>, finger: Finger)
    ensures Matching(Without(c, guid, finger), guid, finger) == []
  {
    if c != [] {
      NothingLeft(c[1..], guid, finger);
      var w := Without(c[1..], guid, finger);
      if Matches(c[0], guid, finger) {
        assert Without(c, guid, finger) == w;
      } else {
        assert Without(c, guid, finger)[1..] == w;
      }
    }
  }

  /** The number the enumeration reports, and the number a wipe of the same subject reports. */
  ghost predicate EnumerationAgrees(guid: Option<Guid>, finger: Finger) {
    forall c: seq<Rec> :: |Matching(c, guid, finger % 256)| == |Matching(c, guid, finger)|
  }

  ghost predicate NothingAfterWipe(guid: Option<Guid>, finger: Finger) {
    forall c: seq<Rec> :: Matching(Without(c, guid, finger), guid, finger % 256) == []
  }

  /** The enumeration narrows the finger to a byte, the wipe does not: they report the same number on every
      store, and the enumeration finds nothing after the wipe, exactly when the finger fits in a byte. */
  lemma EnumerationAgreesIff(guid: Option<Guid>, finger: Finger)
    ensures EnumerationAgrees(guid, finger) <==> finger < 256
    ensures NothingAfterWipe(guid, finger) <==> finger < 256
  {
    if finger < 256 {
      forall c: seq<Rec> ensures Matching(Without(c, guid, finger), guid, finger % 256) == [] {
        NothingLeft(c, guid, finger);
      }
    } else {
      var r := Rec(if guid.Some? then guid.value else 0, finger % 256, []);
      assert [r][1..] == [];
      assert |Matching([r], guid, finger % 256)| == 1 && |Matching([r], guid, finger)| == 0;
      assert Without([r], guid, finger) == [r];
    }
  }
}
