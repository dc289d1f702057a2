/**
 The in-memory template store (storage.c with the enumeration of device.c): a doubly linked
 list of records, threaded by a second chain of query results with a cursor.

 `Contents()` is the list as a sequence of values, newest first. Every method is tied to a
 function on that sequence; RecordStoreProofs shows that the sequence is a keyed map.
 */
module RecordSpec {
  import opened Bytes
  import opened Wrappers

  /** A RECGUID, compared bytewise by the source. */
  type Guid = g: nat | g < 0x1_0000_0000_0000_0000_0000_0000_0000_0000

  /** `enum tudor_finger` as it arrives over IPC: any 32-bit value. */
  type Finger = f: nat | f < 0x1_0000_0000

  /** TUDOR_FINGER_ANY and WINBIO_SUBTYPE_ANY. */
  const FINGER_ANY: Finger := 0xFF

  datatype Rec = Rec(guid: Guid, finger: Finger, data: bytes)

  /** The record test of the list loops: no guid (or a wildcard identity) matches every guid. */
  predicate Matches(r: Rec, guid: Option<Guid>, finger: Finger) {
    (guid.None? || r.guid == guid.value) && (finger == FINGER_ANY || r.finger == finger)
  }

  function Matching(c: seq<Rec>, guid: Option<Guid>, finger: Finger): seq<Rec> {
    if c == [] then []
    else (if Matches(c[0], guid, finger) then [c[0]] else []) + Matching(c[1..], guid, finger)
  }

  function Without(c: seq<Rec>, guid: Option<Guid>, finger: Finger): seq<Rec> {
    if c == [] then []
    else (if Matches(c[0], guid, finger) then [] else [c[0]]) + Without(c[1..], guid, finger)
  }

  predicate HasKey(c: seq<Rec>, guid: Guid, finger: Finger) {
    exists i :: 0 <= i < |c| && c[i].guid == guid && c[i].finger == finger
  }

  ghost predicate UniqueKeys(c: seq<Rec>) {
    forall i, j :: 0 <= i < j < |c| ==> c[i].guid != c[j].guid || c[i].finger != c[j].finger
  }

  /** `tudor_add_record`. */
  function Added(c: seq<Rec>, r: Rec): seq<Rec> {
    if HasKey(c, r.guid, r.finger) then c else [r] + c
  }

  /** The host's ADD_RECORD on list storage: add, or else wipe the key and add again. */
  function Replaced(c: seq<Rec>, r: Rec): seq<Rec> {
    if HasKey(c, r.guid, r.finger) then Added(Without(c, Some(r.guid), r.finger), r) else [r] + c
  }

  lemma {:induction false} MatchingSnoc(c: seq<Rec>, r: Rec, guid: Option<Guid>, finger: Finger)
    ensures Matching(c + [r], guid, finger) == Matching(c, guid, finger) + if Matches(r, guid, finger) then [r] else []
  {
    if c == [] {
      assert c + [r] == [r] && [r][1..] == [];
    } else {
      MatchingSnoc(c[1..], r, guid, finger);
      assert (c + [r])[1..] == c[1..] + [r];
    }
  }

  /** `c` without its element `k`. */
  function RemoveAt(c: seq<Rec>, k: nat): seq<Rec>
    requires k < |c|
  {
    c[..k] + c[k + 1..]
  }

  ghost predicate NoMatchBefore(c: seq<Rec>, k: nat, guid: Option<Guid>, finger: Finger) {
    k <= |c| && forall j :: 0 <= j < k ==> !Matches(c[j], guid, finger)
  }

  /** Removing one matching record brings a deletion loop one step closer to its result. */
  lemma {:induction false} RemoveMatch(c: seq<Rec>, k: nat, guid: Option<Guid>, finger: Finger)
    requires k < |c| && Matches(c[k], guid, finger)
    ensures Without(RemoveAt(c, k), guid, finger) == Without(c, guid, finger)
    ensures |Matching(RemoveAt(c, k), guid, finger)| + 1 == |Matching(c, guid, finger)|
    ensures NoMatchBefore(c, k, guid, finger) ==> NoMatchBefore(RemoveAt(c, k), k, guid, finger)
  {
    if k == 0 {
      assert RemoveAt(c, k) == c[1..];
    } else {
      RemoveMatch(c[1..], k - 1, guid, finger);
      assert RemoveAt(c, k)[0] == c[0] && RemoveAt(c, k)[1..] == RemoveAt(c[1..], k - 1);
    }
  }

  lemma {:induction false} NoMatchAtAll(c: seq<Rec>, guid: Option<Guid>, finger: Finger)
    requires NoMatchBefore(c, |c|, guid, finger)
    ensures Without(c, guid, finger) == c && Matching(c, guid, finger) == []
  {
    if c != [] { NoMatchAtAll(c[1..], guid, finger); }
  }

  /** The matching records among the first `i`. */
  function MatchingBefore(c: seq<Rec>, i: nat, guid: Option<Guid>, finger: Finger): seq<Rec>
    requires i <= |c|
  {
    Matching(c[..i], guid, finger)
  }

  lemma MatchingNext(c: seq<Rec>, i: nat, guid: Option<Guid>, finger: Finger)
    requires i < |c|
    ensures MatchingBefore(c, i + 1, guid, finger)
         == MatchingBefore(c, i, guid, finger) + if Matches(c[i], guid, finger) then [c[i]] else []
  {
    assert c[..i + 1] == c[..i] + [c[i]];
    MatchingSnoc(c[..i], c[i], guid, finger);
  }

  /** Removal keeps exactly the records that do not match, and with them the uniqueness of keys. */
  lemma {:induction false} WithoutKeeps(c: seq<Rec>, guid: Option<Guid>, finger: Finger)
    ensures forall r :: r in Without(c, guid, finger) <==> r in c && !Matches(r, guid, finger)
    ensures UniqueKeys(c) ==> UniqueKeys(Without(c, guid, finger))
    ensures |Without(c, guid, finger)| + |Matching(c, guid, finger)| == |c|
  {
    if c != [] {
      WithoutKeeps(c[1..], guid, finger);
      var w := Without(c[1..], guid, finger);
      assert forall r :: r in c <==> r == c[0] || r in c[1..];
      if UniqueKeys(c) && !Matches(c[0], guid, finger) {
        forall j | 0 <= j < |w| ensures w[j].guid != c[0].guid || w[j].finger != c[0].finger {
          assert w[j] in c[1..];
        }
      }
    }
  }

  lemma WithoutUnique(c: seq<Rec>, guid: Option<Guid>, finger: Finger)
    requires UniqueKeys(c)
    ensures UniqueKeys(Without(c, guid, finger))
  {
    WithoutKeeps(c, guid, finger);
  }

  /** After a wipe of a key the key is free. */
  lemma WipedKeyIsFree(c: seq<Rec>, guid: Guid, finger: Finger)
    ensures !HasKey(Without(c, Some(guid), finger), guid, finger)
  {
    var w := Without(c, Some(guid), finger);
    WithoutKeeps(c, Some(guid), finger);
    forall i | 0 <= i < |w| ensures w[i].guid != guid || w[i].finger != finger {
      assert w[i] in w;
    }
  }
}

module RecordStore {
  import opened Bytes
  import opened Wrappers
  import opened RecordSpec

  /** The results a storage adapter call returns. */
  datatype HResult = Success | InvalidArg | DuplicateEnrollment | NoSuchRecord | NoResults | NoMoreRecords

  /** A WINBIO_IDENTITY: only wildcard and guid identities are accepted. */
  datatype Identity = Wildcard | ById(guid: Guid) | OtherIdentity

  /** struct tudor_record; `identityGuid` is the guid inside its separately allocated identity. */
  class Record {
    const identityGuid: Guid
    const guid: Guid
    const finger: Finger
    const data: bytes
    var prev: Record?
    var next: Record?
    var resNext: Record?

    constructor (identityGuid: Guid, guid: Guid, finger: Finger, data: bytes, next: Record?)
      ensures this.identityGuid == identityGuid && this.guid == guid && this.finger == finger && this.data == data
      ensures this.prev == null && this.next == next
    {
      this.identityGuid, this.guid, this.finger, this.data := identityGuid, guid, finger, data;
      this.prev, this.next := null, next;
    }
  }

  function ValueOf(r: Record): Rec {
    Rec(r.guid, r.finger, r.data)
  }

  function Values(list: seq<Record>): (c: seq<Rec>)
    ensures |c| == |list|
    ensures forall i {:trigger c[i]} :: 0 <= i < |list| ==> c[i] == ValueOf(list[i])
  {
    seq(|list|, i requires 0 <= i < |list| => ValueOf(list[i]))
  }

  ghost predicate Distinct(list: seq<Record>) {
    forall i, j :: 0 <= i < j < |list| ==> list[i] != list[j]
  }

  function At(list: seq<Record>, i: int): Record? {
    if 0 <= i < |list| then list[i] else null
  }

  /** `list` is the doubly linked list that starts at `head`, among the allocated `nodes`. */
  ghost predicate Linked(head: Record?, list: seq<Record>, nodes: set<Record>)
    reads nodes`prev, nodes`next
  {
    && (forall i {:trigger list[i]} :: 0 <= i < |list| ==> list[i] in nodes)
    && Distinct(list)
    && head == At(list, 0)
    && (forall i {:trigger list[i].next} :: 0 <= i < |list| ==> list[i].next == At(list, i + 1))
    && (forall i {:trigger list[i].prev} :: 0 <= i < |list| ==> list[i].prev == At(list, i - 1))
  }

  ghost predicate SameGuids(nodes: set<Record>) {
    forall r :: r in nodes ==> r.identityGuid == r.guid
  }

  ghost predicate Increasing(idx: seq<nat>, bound: nat) {
    && (forall k, l :: 0 <= k < l < |idx| ==> idx[k] < idx[l])
    && (forall k :: 0 <= k < |idx| ==> idx[k] < bound)
  }

  /** The records at the positions `idx` of `list`. */
  function Pick(list: seq<Record>, idx: seq<nat>): (p: seq<Record>)
    requires forall k :: 0 <= k < |idx| ==> idx[k] < |list|
    ensures |p| == |idx| && forall k {:trigger p[k]} :: 0 <= k < |idx| ==> p[k] == list[idx[k]]
  {
    seq(|idx|, k requires 0 <= k < |idx| => list[idx[k]])
  }

  /** `picked` is threaded through `resNext` and terminated. */
  ghost predicate Chained(head: Record?, picked: seq<Record>, nodes: set<Record>)
    requires forall k :: 0 <= k < |picked| ==> picked[k] in nodes
    reads nodes`resNext
  {
    && head == At(picked, 0)
    && (forall k {:trigger picked[k].resNext} :: 0 <= k < |picked| ==> picked[k].resNext == At(picked, k + 1))
  }

  function Shifted(idx: seq<nat>): (t: seq<nat>)
    ensures |t| == |idx| && forall k {:trigger t[k]} :: 0 <= k < |idx| ==> t[k] == idx[k] + 1
  {
    seq(|idx|, k requires 0 <= k < |idx| => idx[k] + 1)
  }

  lemma PrependValues(rec: Record, list: seq<Record>, idx: seq<nat>)
    requires Increasing(idx, |list|)
    ensures Values([rec] + list) == [ValueOf(rec)] + Values(list)
    ensures Increasing(Shifted(idx), |list| + 1)
    ensures Pick([rec] + list, Shifted(idx)) == Pick(list, idx)
  {
  }

  /** `list` without its element `k`. */
  function Cut(list: seq<Record>, k: nat): (t: seq<Record>)
    requires k < |list|
    ensures |t| == |list| - 1
    ensures forall j {:trigger t[j]} :: 0 <= j < |t| ==> t[j] == if j < k then list[j] else list[j + 1]
    ensures Values(t) == RemoveAt(Values(list), k)
  {
    list[..k] + list[k + 1..]
  }

  /** A later position extends the picked records by one that is not among them. */
  lemma PickMore(list: seq<Record>, idx: seq<nat>, i: nat)
    requires Increasing(idx, i) && i < |list| && Distinct(list)
    ensures Increasing(idx + [i], i + 1) && Distinct(Pick(list, idx))
    ensures Pick(list, idx + [i]) == Pick(list, idx) + [list[i]]
    ensures Values(Pick(list, idx + [i])) == Values(Pick(list, idx)) + [ValueOf(list[i])]
    ensures forall k :: 0 <= k < |idx| ==> Pick(list, idx)[k] != list[i]
  {
  }

  lemma UniquePrepend(c: seq<Rec>, r: Rec)
    requires UniqueKeys(c) && !HasKey(c, r.guid, r.finger)
    ensures UniqueKeys([r] + c)
  {
  }

  /** The records an accepted identity asks for. */
  function Subject(identity: Identity): Option<Guid> {
    if identity.ById? then Some(identity.guid) else None
  }

  /** What the enumeration callback is given for a record. */
  function VisitOf(r: Rec): (Guid, byte) {
    (r.guid, r.finger % 256)
  }

  function Visits(c: seq<Rec>): (v: seq<(Guid, byte)>)
    ensures |v| == |c| && forall i {:trigger v[i]} :: 0 <= i < |c| ==> v[i] == VisitOf(c[i])
  {
    seq(|c|, i requires 0 <= i < |c| => VisitOf(c[i]))
  }

  lemma VisitsMean(c: seq<Rec>)
    ensures |Visits(c)| == |c|
    ensures forall i {:trigger Visits(c)[i]} :: 0 <= i < |c| ==> Visits(c)[i].0 == c[i].guid && Visits(c)[i].1 == c[i].finger % 256
    ensures c == [] ==> Visits(c) == []
  {
  }

  class Store {
    var recordsHead: Record?
    var resultHead: Record?
    var resultCursor: Record?

    ghost var nodes: set<Record>
    ghost var list: seq<Record>
    ghost var idx: seq<nat>      // positions of the result chain in `list`
    ghost var cursor: nat        // position of the cursor in the result chain

    /** The list is doubly linked, keys are distinct, guids agree, the result chain is an in-order
        subsequence of live records that contains the cursor, or chain and cursor are null. */
    ghost predicate Valid()
      reads this, nodes
    {
      && Linked(recordsHead, list, nodes) && SameGuids(nodes) && UniqueKeys(Values(list))
      && Increasing(idx, |list|)
      && Chained(resultHead, Pick(list, idx), nodes)
      && (if idx == [] then resultCursor == null && cursor == 0
          else cursor < |idx| && resultCursor == list[idx[cursor]])
    }

    ghost function Contents(): (c: seq<Rec>)
      reads this`list
    {
      Values(list)
    }

    /** The result chain as values. */
    ghost function Results(): (c: seq<Rec>)
      requires Valid()
      reads this, nodes
    {
      Values(Pick(list, idx))
    }

    constructor ()
      ensures Valid() && Contents() == [] && Results() == []
    {
      recordsHead, resultHead, resultCursor := null, null, null;
      nodes, list, idx, cursor := {}, [], [], 0;
    }

    /** Puts a new record in front of the list. */
    method LinkFront(rec: Record)
      requires Linked(recordsHead, list, nodes) && rec !in nodes
      requires rec.prev == null && rec.next == recordsHead
      modifies this`recordsHead, this`list, this`nodes, nodes`prev
      ensures list == [rec] + old(list) && nodes == old(nodes) + {rec}
      ensures Linked(recordsHead, list, nodes)
    {
      if recordsHead != null { recordsHead.prev := rec; }
      recordsHead := rec;
      list, nodes := [rec] + list, nodes + {rec};
    }

    /** The common end of both ways to add a record; the result chain is not touched. */
    method Prepend(identityGuid: Guid, guid: Guid, finger: Finger, data: bytes)
      requires Valid() && identityGuid == guid && !HasKey(Contents(), guid, finger)
      modifies this, nodes
      ensures Valid() && fresh(nodes - old(nodes))
      ensures Contents() == [Rec(guid, finger, data)] + old(Contents())
      ensures Results() == old(Results()) && cursor == old(cursor)
    {
      hide *;
      OpenValid();
      var rec := new Record(identityGuid, guid, finger, data, recordsHead);
      PrependValues(rec, list, idx);
      ValueIs(rec);
      UniquePrepend(Values(list), ValueOf(rec));
      ghost var picked := Pick(list, idx);
      LinkFront(rec);
      idx := Shifted(idx);
      ClosePrepend(rec, picked, cursor);
    }

    static lemma ValueIs(rec: Record)
      ensures ValueOf(rec) == Rec(rec.guid, rec.finger, rec.data)
    {
    }

    lemma OpenValid()
      requires Valid()
      ensures Linked(recordsHead, list, nodes) && Increasing(idx, |list|) && UniqueKeys(Values(list)) && SameGuids(nodes)
      ensures Contents() == Values(list) && Results() == Values(Pick(list, idx))
      ensures Placed(Pick(list, idx), cursor)
    {
    }

    /** The result chain runs through `picked`, with the cursor at its place. */
    ghost predicate Placed(picked: seq<Record>, cursor: nat)
      reads this`resultHead, this`resultCursor, picked
    {
      && resultHead == At(picked, 0)
      && (forall k {:trigger picked[k].resNext} :: 0 <= k < |picked| ==> picked[k].resNext == At(picked, k + 1))
      && (if picked == [] then resultCursor == null && cursor == 0 else cursor < |picked| && resultCursor == picked[cursor])
    }

    lemma ClosePrepend(rec: Record, picked: seq<Record>, at: nat)
      requires Linked(recordsHead, list, nodes) && UniqueKeys(Values(list)) && Increasing(idx, |list|) && at == cursor
      requires rec in nodes && SameGuids(nodes - {rec}) && rec.identityGuid == rec.guid
      requires Pick(list, idx) == picked && Placed(picked, cursor)
      ensures Valid() && Contents() == Values(list) && Results() == Values(picked)
    {
    }

    method HasRecord(guid: Guid, finger: Finger) returns (found: bool)
      requires Valid()
      ensures found == HasKey(Contents(), guid, finger)
    {
      var rec := recordsHead;
      ghost var i := 0;
      while rec != null
        invariant 0 <= i <= |list| && rec == At(list, i)
        invariant forall j :: 0 <= j < i ==> Contents()[j].guid != guid || Contents()[j].finger != finger
        decreases |list| - i
      {
        if rec.guid == guid && rec.finger == finger {
          assert Contents()[i] == ValueOf(rec);
          return true;
        }
        rec := rec.next;
        i := i + 1;
      }
      return false;
    }

    /** `tudor_add_record`. */
    method AddRecord(guid: Guid, finger: Finger, data: bytes) returns (ok: bool)
      requires Valid()
      modifies this, nodes
      ensures Valid() && fresh(nodes - old(nodes))
      ensures ok == !HasKey(old(Contents()), guid, finger)
      ensures Contents() == Added(old(Contents()), Rec(guid, finger, data))
      ensures Results() == old(Results()) && cursor == old(cursor)
    {
      var found := HasRecord(guid, finger);
      if found { return false; }
      Prepend(guid, guid, finger, data);
      return true;
    }

    /** Takes `rec` out of the list. */
    method Bypass(rec: Record, ghost k: nat)
      requires k < |list| && list[k] == rec && Linked(recordsHead, list, nodes)
      modifies this`recordsHead, this`list, nodes`prev, nodes`next
      ensures list == Cut(old(list), k) && Linked(recordsHead, list, nodes)
    {
      if rec.prev != null { rec.prev.next := rec.next; } else { recordsHead := rec.next; }
      if rec.next != null { rec.next.prev := rec.prev; }
      list := Cut(list, k);
    }

    /** Takes `rec` out of the list and drops the query results. */
    method Unlink(rec: Record, ghost k: nat)
      requires k < |list| && list[k] == rec && Linked(recordsHead, list, nodes)
      modifies this`recordsHead, this`resultHead, this`resultCursor, this`list, this`idx, this`cursor, nodes`prev, nodes`next
      ensures Linked(recordsHead, list, nodes) && |list| == old(|list|) - 1 && At(list, k) == At(old(list), k + 1)
      ensures Contents() == RemoveAt(old(Contents()), k)
      ensures NoneSelected()
    {
      Bypass(rec, k);
      resultHead, resultCursor := null, null;
      idx, cursor := [], 0;
    }

    /** There are no query results. */
    ghost predicate NoneSelected()
      reads this
    {
      resultHead == null && resultCursor == null && idx == [] && cursor == 0
    }

    /** The deletion loop shared by `tudor_wipe_records` and `storage_DeleteRecord`; the successor is
        read before the record may go. */
    method DropAllMatching(guid: Option<Guid>, finger: Finger) returns (deleted: nat)
      requires Linked(recordsHead, list, nodes) && SameGuids(nodes)
      modifies this`recordsHead, this`resultHead, this`resultCursor, this`list, this`idx, this`cursor, nodes`prev, nodes`next
      ensures Linked(recordsHead, list, nodes)
      ensures Contents() == Without(old(Contents()), guid, finger)
      ensures deleted == |Matching(old(Contents()), guid, finger)|
      ensures if deleted == 0 then unchanged(this) else NoneSelected()
    {
      ghost var c, k := Contents(), 0;
      var rec := recordsHead;
      deleted := 0;
      while rec != null
        invariant k <= |list| && rec == At(list, k) && Linked(recordsHead, list, nodes)
        invariant NoMatchBefore(Contents(), k, guid, finger)
        invariant Without(Contents(), guid, finger) == Without(c, guid, finger)
        invariant deleted + |Matching(Contents(), guid, finger)| == |Matching(c, guid, finger)|
        invariant if deleted == 0 then unchanged(this) else NoneSelected()
        decreases |list| - k
      {
        var next := rec.next;
        if (guid.None? || rec.identityGuid == guid.value) && (finger == FINGER_ANY || rec.finger == finger) {
          RemoveMatch(Contents(), k, guid, finger);
          Unlink(rec, k);
          deleted := deleted + 1;
        } else {
          k := k + 1;
        }
        rec := next;
      }
      NoMatchAtAll(Contents(), guid, finger);
    }

    /** The list branch of `tudor_wipe_records`. */
    method WipeRecords(guid: Option<Guid>, finger: Finger) returns (deleted: nat)
      requires Valid()
      modifies this, nodes
      ensures Valid() && nodes == old(nodes)
      ensures Contents() == Without(old(Contents()), guid, finger)
      ensures deleted == |Matching(old(Contents()), guid, finger)|
      ensures deleted > 0 ==> Results() == []
      ensures deleted == 0 ==> Results() == old(Results()) && cursor == old(cursor)
    {
      WithoutUnique(Values(list), guid, finger);
      ghost var picked := Pick(list, idx);
      deleted := DropAllMatching(guid, finger);
      assert Pick(list, idx) == if deleted > 0 then [] else picked;
    }

    /** `storage_AddRecord`. */
    method StorageAddRecord(identity: Identity, subfactor: byte, indexElements: nat, payloadSize: nat, blob: bytes)
      returns (hr: HResult)
      requires Valid()
      modifies this, nodes
      ensures Valid() && fresh(nodes - old(nodes))
      ensures hr == InvalidArg <==> !identity.ById? || indexElements != 0 || payloadSize != 0
      ensures hr == InvalidArg ==> Contents() == old(Contents())
      ensures hr != InvalidArg ==>
                && Contents() == Added(old(Contents()), Rec(identity.guid, subfactor, blob))
                && hr == if HasKey(old(Contents()), identity.guid, subfactor) then DuplicateEnrollment else Success
      ensures Results() == old(Results()) && cursor == old(cursor)
    {
      if !identity.ById? || indexElements != 0 || payloadSize != 0 { return InvalidArg; }
      var found := HasRecord(identity.guid, subfactor);
      if found { return DuplicateEnrollment; }
      Prepend(identity.guid, identity.guid, subfactor, blob);
      return Success;
    }

    /** `storage_DeleteRecord`. */
    method StorageDeleteRecord(identity: Identity, subfactor: byte) returns (hr: HResult)
      requires Valid()
      modifies this, nodes
      ensures Valid() && nodes == old(nodes)
      ensures identity.OtherIdentity? ==> hr == InvalidArg && Contents() == old(Contents())
      ensures !identity.OtherIdentity? ==>
                && Contents() == Without(old(Contents()), Subject(identity), subfactor)
                && hr == if Matching(old(Contents()), Subject(identity), subfactor) == [] then NoSuchRecord else Success
      ensures Results() == if hr == Success then [] else old(Results())
    {
      if identity.OtherIdentity? { return InvalidArg; }
      WithoutUnique(Values(list), Subject(identity), subfactor);
      ghost var picked := Pick(list, idx);
      var deleted := DropAllMatching(Subject(identity), subfactor);
      assert Pick(list, idx) == if deleted > 0 then [] else picked;
      return if deleted > 0 then Success else NoSuchRecord;
    }

    /** The query loop has looked at the first `i` records; `last` ends the chain built so far. */
    ghost predicate Selecting(i: nat, last: Record?)
      reads this, nodes`resNext
    {
      && i <= |list| && (forall j {:trigger list[j]} :: 0 <= j < |list| ==> list[j] in nodes) && Distinct(list)
      && Increasing(idx, i) && Chained(resultHead, Pick(list, idx), nodes)
      && resultCursor == resultHead && last == At(Pick(list, idx), |idx| - 1) && cursor == 0
    }

    /** The records chained so far, as values. */
    ghost function Selected(): seq<Rec>
      reads this
    {
      if Increasing(idx, |list|) then Values(Pick(list, idx)) else []
    }

    /** A record that does not match is passed over. */
    lemma SkipsOne(i: nat, last: Record?)
      requires Selecting(i, last) && i < |list|
      ensures Selecting(i + 1, last)
    {
    }

    lemma TestIsMatch(rec: Record, i: nat, identity: Identity, subfactor: byte)
      requires Linked(recordsHead, list, nodes) && SameGuids(nodes) && rec == At(list, i) && !identity.OtherIdentity?
      ensures i < |list| && rec == list[i] && rec.next == At(list, i + 1)
      ensures i < |Contents()| && Contents()[i] == ValueOf(rec)
      ensures (identity.Wildcard? || rec.identityGuid == identity.guid) && (subfactor == FINGER_ANY || rec.finger == subfactor)
         <==> Matches(Contents()[i], Subject(identity), subfactor)
    {
    }

    /** Puts `rec` behind the chain `picked`. */
    method ChainBehind(rec: Record, last: Record?, ghost picked: seq<Record>)
      requires (forall k {:trigger picked[k]} :: 0 <= k < |picked| ==> picked[k] in nodes && picked[k] != rec)
      requires Distinct(picked) && rec in nodes && Chained(resultHead, picked, nodes)
      requires resultCursor == resultHead && last == At(picked, |picked| - 1)
      modifies this`resultHead, this`resultCursor, nodes`resNext
      ensures Chained(resultHead, picked + [rec], nodes) && resultCursor == resultHead
    {
      if last != null { last.resNext := rec; } else { resultHead, resultCursor := rec, rec; }
      rec.resNext := null;
    }

    /** Chains the record at position `i`. */
    method Select(rec: Record, last: Record?, ghost i: nat)
      requires Selecting(i, last) && i < |list| && rec == list[i]
      modifies this`resultHead, this`resultCursor, this`idx, nodes`resNext
      ensures Selecting(i + 1, rec) && Selected() == old(Selected()) + [ValueOf(rec)]
    {
      PickMore(list, idx, i);
      ChainBehind(rec, last, Pick(list, idx));
      idx := idx + [i];
    }

    /** One round of the query loop. */
    method SelectIf(rec: Record, last: Record?, ghost i: nat, identity: Identity, subfactor: byte)
      returns (last': Record?, next: Record?)
      requires Linked(recordsHead, list, nodes) && SameGuids(nodes) && !identity.OtherIdentity?
      requires Selecting(i, last) && rec == At(list, i) && |Contents()| == |list| && i <= |list|
      requires Selected() == MatchingBefore(Contents(), i, Subject(identity), subfactor)
      modifies this`resultHead, this`resultCursor, this`idx, nodes`resNext
      ensures i < |list| && Selecting(i + 1, last') && next == At(list, i + 1)
      ensures Selected() == MatchingBefore(Contents(), i + 1, Subject(identity), subfactor)
    {
      hide *;
      TestIsMatch(rec, i, identity, subfactor);
      MatchingNext(Contents(), i, Subject(identity), subfactor);
      last' := last;
      SkipsOne(i, last);
      if (identity.Wildcard? || rec.identityGuid == identity.guid) && (subfactor == FINGER_ANY || rec.finger == subfactor) {
        Select(rec, last, i);
        last' := rec;
      }
      next := rec.next;
    }

    /** `storage_QueryBySubject`: rebuilds the result chain over the whole list. */
    method QueryBySubject(identity: Identity, subfactor: byte) returns (hr: HResult)
      requires Valid()
      modifies this, nodes
      ensures Valid() && nodes == old(nodes) && Contents() == old(Contents())
      ensures identity.OtherIdentity? ==> hr == InvalidArg && Results() == old(Results()) && cursor == old(cursor)
      ensures !identity.OtherIdentity? ==>
                && Results() == Matching(Contents(), Subject(identity), subfactor) && cursor == 0
                && hr == if Results() == [] then NoResults else Success
    {
      if identity.OtherIdentity? { return InvalidArg; }
      var last := SelectAll(identity, subfactor);
      return if last != null then Success else NoResults;
    }

    /** The loop of the query. */
    method SelectAll(identity: Identity, subfactor: byte) returns (last: Record?)
      requires Linked(recordsHead, list, nodes) && SameGuids(nodes) && !identity.OtherIdentity?
      modifies this`resultHead, this`resultCursor, this`idx, this`cursor, nodes`resNext
      ensures Selecting(|list|, last)
      ensures Selected() == Matching(Contents(), Subject(identity), subfactor)
    {
      hide *;
      var rec := recordsHead;
      last := null;
      resultHead, resultCursor := null, null;
      idx, cursor := [], 0;
      ghost var i := 0;
      NothingSelected(identity, subfactor);
      while rec != null
        invariant i <= |list| && rec == At(list, i) && Selecting(i, last)
        invariant Selected() == MatchingBefore(Contents(), i, Subject(identity), subfactor)
        decreases |list| - i
      {
        last, rec := SelectIf(rec, last, i, identity, subfactor);
        i := i + 1;
      }
      AllSelected(i, last, identity, subfactor);
    }

    lemma NothingSelected(identity: Identity, subfactor: byte)
      requires Linked(recordsHead, list, nodes) && resultHead == resultCursor == null && idx == [] && cursor == 0
      ensures recordsHead == At(list, 0) && Selecting(0, null) && |Contents()| == |list|
      ensures Selected() == MatchingBefore(Contents(), 0, Subject(identity), subfactor)
    {
    }

    lemma AllSelected(i: nat, last: Record?, identity: Identity, subfactor: byte)
      requires i <= |list| && At(list, i) == null && Selecting(i, last) && |Contents()| == |list|
      requires Selected() == MatchingBefore(Contents(), i, Subject(identity), subfactor)
      ensures i == |list| && Selected() == Matching(Contents(), Subject(identity), subfactor)
    {
      assert Contents()[..i] == Contents();
    }

    /** `storage_GetRecordCount`. */
    method GetRecordCount() returns (hr: HResult, n: nat)
      requires Valid()
      ensures n == |Results()| && hr == if n == 0 then NoResults else Success
    {
      n := 0;
      var rec := resultHead;
      while rec != null
        invariant n <= |idx| && rec == At(Pick(list, idx), n)
        decreases |idx| - n
      {
        rec := rec.resNext;
        n := n + 1;
      }
      return if n == 0 then NoResults else Success, n;
    }

    /** `storage_FirstRecord`. */
    method FirstRecord() returns (hr: HResult)
      requires Valid()
      modifies this`resultCursor, this`cursor
      ensures Valid() && Results() == old(Results()) && cursor == 0
      ensures hr == if Results() == [] then NoResults else Success
    {
      if resultHead == null { return NoResults; }
      resultCursor := resultHead;
      cursor := 0;
      return Success;
    }

    /** `storage_NextRecord`. */
    method NextRecord() returns (hr: HResult)
      requires Valid()
      modifies this`resultCursor, this`cursor
      ensures Valid() && Results() == old(Results())
      ensures Results() == [] ==> hr == NoResults && cursor == old(cursor)
      ensures Results() != [] && old(cursor) + 1 < |Results()| ==> hr == Success && cursor == old(cursor) + 1
      ensures Results() != [] && old(cursor) + 1 >= |Results()| ==> hr == NoMoreRecords && cursor == old(cursor)
    {
      if resultHead == null { return NoResults; }
      assert resultCursor == Pick(list, idx)[cursor];
      var next := if resultCursor != null then resultCursor.resNext else null;
      if next == null { return NoMoreRecords; }
      resultCursor := next;
      cursor := cursor + 1;
      return Success;
    }

    /** `storage_GetCurrentRecord`. */
    method GetCurrentRecord() returns (hr: HResult, guid: Guid, subfactor: byte, data: bytes)
      requires Valid()
      ensures hr == if Results() == [] then NoResults else Success
      ensures hr == Success ==> var r := Results()[cursor]; guid == r.guid && subfactor == r.finger % 256 && data == r.data
    {
      if resultHead == null { return NoResults, 0, 0, []; }
      return Success, resultCursor.identityGuid, resultCursor.finger % 256, resultCursor.data;
    }

    /** Reads the record under the cursor and moves on. */
    method VisitAndAdvance() returns (visit: (Guid, byte), hr: HResult)
      requires Valid() && Results() != []
      modifies this`resultCursor, this`cursor
      ensures Valid() && Results() == old(Results())
      ensures old(cursor) < |Results()| && visit == VisitOf(Results()[old(cursor)])
      ensures hr == Success <==> old(cursor) + 1 < |Results()|
      ensures hr == Success ==> cursor == old(cursor) + 1
    {
      var g, f, d;
      hr, g, f, d := GetCurrentRecord();
      assert hr == Success;
      visit := (g, f);
      hr := NextRecord();
    }

    /** The enumeration loop, from the first result on. */
    method VisitAll() returns (count: nat, visited: seq<(Guid, byte)>)
      requires Valid() && Results() != [] && cursor == 0
      modifies this`resultCursor, this`cursor
      ensures Valid() && Results() == old(Results())
      ensures visited == Visits(Results()) && count == |visited|
    {
      count, visited := 0, [];
      ghost var found := Results();
      var hr := Success;
      while hr == Success
        invariant Valid() && Results() == found
        invariant count == |visited| == (if hr == Success then cursor else |found|)
        invariant hr == Success ==> cursor < |found|
        invariant forall j {:trigger visited[j]} :: 0 <= j < |visited| <= |found| ==> visited[j] == VisitOf(found[j])
        decreases |found| - count
      {
        var visit;
        visit, hr := VisitAndAdvance();
        visited := visited + [visit];
        count := count + 1;
      }
    }

    /** `tudor_enumerate_records` on list storage, with what its callback is given. */
    method EnumerateRecords(guid: Option<Guid>, finger: Finger) returns (count: nat, visited: seq<(Guid, byte)>)
      requires Valid()
      modifies this, nodes
      ensures Valid() && nodes == old(nodes) && Contents() == old(Contents())
      ensures var found := Matching(Contents(), guid, finger % 256);
        && count == |visited| == |found|
        && forall i {:trigger visited[i]} :: 0 <= i < count ==> visited[i].0 == found[i].guid && visited[i].1 == found[i].finger % 256
    {
      VisitsMean(Matching(Contents(), guid, finger % 256));
      hide Visits, VisitOf, Matching;
      count, visited := 0, [];
      var hr := QueryBySubject(if guid.Some? then ById(guid.value) else Wildcard, finger % 256);
      if hr != Success { return; }
      hr := FirstRecord();
      if hr == Success { count, visited := VisitAll(); }
    }

    /** The host's ADD_RECORD; the abort behind the second add is unreachable. */
    method HandleAddRecord(guid: Guid, finger: Finger, data: bytes, useDllStorage: bool)
      requires Valid()
      modifies this, nodes
      ensures Valid() && fresh(nodes - old(nodes))
      ensures Contents() == if useDllStorage then Added(old(Contents()), Rec(guid, finger, data))
                            else Replaced(old(Contents()), Rec(guid, finger, data))
    {
      ghost var c := Contents();
      var added := AddRecord(guid, finger, data);
      if !added && !useDllStorage {
        var n := WipeRecords(Some(guid), finger);
        WipedKeyIsFree(c, guid, finger);
        added := AddRecord(guid, finger, data);
        assert added;
      }
    }
  }
}
