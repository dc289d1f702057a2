/**
 The data store file (datastore.c): pairing data by sensor name, then template records. The format is
 stated as functions on byte strings; DataStore is the code that reads and writes streams and changes
 the two lists.
 */
module DataStoreSpec {
  import opened Bytes
  import opened Wrappers
  import opened RecordSpec

  const GUID_SIZE: nat := 16
  const FINGER_SIZE: nat := 4
  const SIZE_T: nat := 8

  /** struct pdata. */
  datatype Pair = Pair(name: bytes, data: bytes)

  function Reverse<T>(s: seq<T>): (r: seq<T>)
    ensures |r| == |s| && forall i {:trigger r[i]} :: 0 <= i < |s| ==> r[i] == s[|s| - 1 - i]
  {
    seq(|s|, i requires 0 <= i < |s| => s[|s| - 1 - i])
  }

  /** A C string in a buffer: the bytes before the first zero. */
  function CString(bs: bytes): bytes {
    if bs == [] || bs[0] == 0 then [] else [bs[0]] + CString(bs[1..])
  }

  predicate IsCString(bs: bytes) {
    forall i :: 0 <= i < |bs| ==> bs[i] != 0
  }

  lemma {:induction false} CStringId(bs: bytes)
    requires IsCString(bs)
    ensures CString(bs) == bs
  {
    if bs != [] { CStringId(bs[1..]); }
  }

  lemma {:induction false} CStringLength(bs: bytes)
    ensures |CString(bs)| <= |bs| && IsCString(CString(bs))
  {
    if bs != [] { CStringLength(bs[1..]); }
  }

  // ---------------------------------------------------------------- what is written

  /** The name length is cut to one byte. */
  function PairBytes(p: Pair): bytes {
    [|p.name| % 256] + p.name + ToLE(|p.data|, SIZE_T) + p.data
  }

  function PairsBytes(ps: seq<Pair>): bytes {
    if ps == [] then [0] else PairBytes(ps[0]) + PairsBytes(ps[1..])
  }

  function RecordBytes(r: Rec): bytes {
    [1] + ToLE(r.guid, GUID_SIZE) + ToLE(r.finger, FINGER_SIZE) + ToLE(|r.data|, SIZE_T) + r.data
  }

  function RecordsBytes(rs: seq<Rec>): bytes {
    if rs == [] then [0] else RecordBytes(rs[0]) + RecordsBytes(rs[1..])
  }

  // ---------------------------------------------------------------- what is read

  /** Entries in file order, whether the section is intact, and what follows it. */
  datatype Parsed<T> = Parsed(ok: bool, entries: seq<T>, rest: bytes)

  /** A size and that many bytes, at the start of `bs`. */
  function Blob(bs: bytes): Option<(bytes, bytes)> {
    if |bs| < SIZE_T then None
    else
      var n := FromLE(bs[..SIZE_T]);
      if |bs| < SIZE_T + n then None else Some((bs[SIZE_T..SIZE_T + n], bs[SIZE_T + n..]))
  }

  function ParsePairs(bs: bytes): Parsed<Pair>
    decreases |bs|
  {
    if bs == [] then Parsed(true, [], [])
    else if bs[0] == 0 then Parsed(true, [], bs[1..])
    else
      var n: nat := bs[0];
      if |bs| < 1 + n then Parsed(false, [], [])
      else
        match Blob(bs[1 + n..])
        case None => Parsed(false, [], [])
        case Some((data, rest)) =>
          var p := ParsePairs(rest);
          p.(entries := [Pair(CString(bs[1..1 + n]), data)] + p.entries)
  }

  /** A record indicator of 0xFF reads as the end of the file, as the code compares a char with EOF. */
  function ParseRecords(bs: bytes): Parsed<Rec>
    decreases |bs|
  {
    if bs == [] then Parsed(true, [], [])
    else if bs[0] == 0 || bs[0] == 0xFF then Parsed(true, [], bs[1..])
    else if |bs| < 1 + GUID_SIZE + FINGER_SIZE then Parsed(false, [], [])
    else
      match Blob(bs[1 + GUID_SIZE + FINGER_SIZE..])
      case None => Parsed(false, [], [])
      case Some((data, rest)) =>
        var p := ParseRecords(rest);
        p.(entries := [Rec(GuidOf(bs[1..1 + GUID_SIZE]),
                           FingerOf(bs[1 + GUID_SIZE..1 + GUID_SIZE + FINGER_SIZE]), data)] + p.entries)
  }

  function GuidOf(bs: bytes): Guid
    requires |bs| == GUID_SIZE
  {
    FromLEBound(bs);
    Pow16();
    FromLE(bs)
  }

  function FingerOf(bs: bytes): Finger
    requires |bs| == FINGER_SIZE
  {
    FromLEBound(bs);
    Pow16();
    FromLE(bs)
  }

  lemma Pow16()
    ensures Pow256(4) == 0x1_0000_0000 && Pow256(8) == 0x1_0000_0000_0000_0000
    ensures Pow256(16) == 0x1_0000_0000_0000_0000_0000_0000_0000_0000
  {
    assert Pow256(4) == 256 * (256 * (256 * (256 * Pow256(0))));
    assert Pow256(8) == 256 * (256 * (256 * (256 * Pow256(4))));
    assert Pow256(12) == 256 * (256 * (256 * (256 * Pow256(8))));
    assert Pow256(16) == 256 * (256 * (256 * (256 * Pow256(12))));
  }

  /** The list after the entries were added in file order; a record whose key is taken stops it. */
  function AddAll(rs: seq<Rec>, entries: seq<Rec>): (bool, seq<Rec>)
    decreases |entries|
  {
    if entries == [] then (true, rs)
    else if HasKey(rs, entries[0].guid, entries[0].finger) then (false, rs)
    else AddAll(Added(rs, entries[0]), entries[1..])
  }

  /** The first entry with this name. */
  function Lookup(ps: seq<Pair>, name: bytes): Option<bytes> {
    if ps == [] then None else if ps[0].name == name then Some(ps[0].data) else Lookup(ps[1..], name)
  }

  function Overwritten(ps: seq<Pair>, name: bytes, data: bytes): seq<Pair> {
    if ps == [] then []
    else if ps[0].name == name then [Pair(name, data)] + ps[1..]
    else [ps[0]] + Overwritten(ps[1..], name, data)
  }

  function SetPair(ps: seq<Pair>, name: bytes, data: bytes): seq<Pair> {
    if Lookup(ps, name).Some? then Overwritten(ps, name, data) else [Pair(name, data)] + ps
  }

  // ---------------------------------------------------------------- set and get

  ghost predicate UniqueNames(ps: seq<Pair>) {
    forall i, j :: 0 <= i < j < |ps| ==> ps[i].name != ps[j].name
  }

  lemma {:induction false} LookupFinds(ps: seq<Pair>, name: bytes)
    ensures Lookup(ps, name).Some? <==> exists i :: 0 <= i < |ps| && ps[i].name == name
    ensures Lookup(ps, name).Some? ==> exists i :: 0 <= i < |ps| && ps[i] == Pair(name, Lookup(ps, name).value)
  {
    if ps != [] {
      LookupFinds(ps[1..], name);
      if ps[0].name == name {
        assert ps[0] == Pair(name, Lookup(ps, name).value);
      } else {
        assert forall i :: 0 < i < |ps| ==> ps[i] == ps[1..][i - 1];
        if Lookup(ps[1..], name).Some? {
          var i :| 0 <= i < |ps[1..]| && ps[1..][i] == Pair(name, Lookup(ps, name).value);
          assert ps[i + 1] == Pair(name, Lookup(ps, name).value);
        }
      }
    }
  }

  lemma {:induction false} OverwrittenKeeps(ps: seq<Pair>, name: bytes, data: bytes)
    ensures var t := Overwritten(ps, name, data);
      |t| == |ps| && forall i :: 0 <= i < |ps| ==> t[i].name == ps[i].name
    ensures forall n :: n != name || Lookup(ps, name).None? ==> Lookup(Overwritten(ps, name, data), n) == Lookup(ps, n)
    ensures Lookup(ps, name).Some? ==> Lookup(Overwritten(ps, name, data), name) == Some(data)
  {
    if ps != [] {
      OverwrittenKeeps(ps[1..], name, data);
      assert Overwritten(ps, name, data)[1..] == if ps[0].name == name then ps[1..] else Overwritten(ps[1..], name, data);
    }
  }

  /** Setting pairing data is a map update, and keeps names unique. */
  lemma SetPairIsUpdate(ps: seq<Pair>, name: bytes, data: bytes)
    requires UniqueNames(ps)
    ensures UniqueNames(SetPair(ps, name, data))
    ensures forall n :: Lookup(SetPair(ps, name, data), n) == if n == name then Some(data) else Lookup(ps, n)
  {
    if Lookup(ps, name).Some? { OverwrittenKeeps(ps, name, data); } else { PrependUpdate(ps, name, data); }
    hide Overwritten;
  }

  lemma PrependUpdate(ps: seq<Pair>, name: bytes, data: bytes)
    requires UniqueNames(ps) && Lookup(ps, name).None?
    ensures UniqueNames([Pair(name, data)] + ps)
    ensures forall n :: Lookup([Pair(name, data)] + ps, n) == if n == name then Some(data) else Lookup(ps, n)
  {
    LookupFinds(ps, name);
    assert ([Pair(name, data)] + ps)[1..] == ps;
  }

  // ---------------------------------------------------------------- pairing data: round trip

  predicate Fits(data: bytes) {
    |data| < 0x1_0000_0000_0000_0000
  }

  /** C names of any length, and data sizes of 64 bits. */
  ghost predicate Storable(ps: seq<Pair>) {
    forall i {:trigger ps[i]} :: 0 <= i < |ps| ==> IsCString(ps[i].name) && Fits(ps[i].data)
  }

  ghost predicate ShortNames(ps: seq<Pair>) {
    forall i {:trigger ps[i]} :: 0 <= i < |ps| ==> 1 <= |ps[i].name| <= 255
  }

  lemma BlobBack(data: bytes, rest: bytes)
    requires Fits(data)
    ensures Blob(ToLE(|data|, SIZE_T) + data + rest) == Some((data, rest))
  {
    SizeBack(|data|);
    BlobOf(ToLE(|data|, SIZE_T), data, rest);
  }

  lemma SizeBack(n: nat)
    requires n < 0x1_0000_0000_0000_0000
    ensures |ToLE(n, SIZE_T)| == SIZE_T && FromLE(ToLE(n, SIZE_T)) == n
  {
    Pow16();
    FromToLE(n, SIZE_T);
  }

  lemma BlobOf(size: bytes, data: bytes, rest: bytes)
    requires |size| == SIZE_T && FromLE(size) == |data|
    ensures Blob(size + data + rest) == Some((data, rest))
  {
    var bs := size + data + rest;
    assert bs[..SIZE_T] == size;
    assert bs[SIZE_T..SIZE_T + |data|] == data && bs[SIZE_T + |data|..] == rest;
  }

  lemma PairBack(p: Pair, rest: bytes)
    requires IsCString(p.name) && Fits(p.data) && 1 <= |p.name| <= 255
    ensures ParsePairs(PairBytes(p) + rest)
         == ParsePairs(rest).(entries := [p] + ParsePairs(rest).entries)
  {
    var bs, n := PairBytes(p) + rest, |p.name|;
    assert bs[0] == n && bs[1..1 + n] == p.name;
    assert bs[1 + n..] == ToLE(|p.data|, SIZE_T) + p.data + rest;
    BlobBack(p.data, rest);
    CStringId(p.name);
  }

  lemma {:induction false} PairsBack(ps: seq<Pair>, rest: bytes)
    requires Storable(ps) && ShortNames(ps)
    ensures ParsePairs(PairsBytes(ps) + rest) == Parsed(true, ps, rest)
  {
    if ps == [] {
      assert ([0] + rest)[1..] == rest;
    } else {
      var p, more := ps[0], ps[1..];
      assert Storable(more) && ShortNames(more);
      PairsBack(more, rest);
      PairBack(p, PairsBytes(more) + rest);
      assert PairsBytes(ps) + rest == PairBytes(p) + (PairsBytes(more) + rest);
      assert [p] + more == ps;
    }
  }

  /** No name that was read is longer than 255 bytes. */
  lemma {:induction false} ReadNamesAreShort(bs: bytes)
    ensures forall i {:trigger ParsePairs(bs).entries[i]} :: 0 <= i < |ParsePairs(bs).entries| ==>
      |ParsePairs(bs).entries[i].name| <= 255
    decreases |bs|
  {
    if bs != [] && bs[0] != 0 && |bs| >= 1 + bs[0] as nat && Blob(bs[1 + bs[0] as nat..]).Some? {
      var n: nat := bs[0];
      var rest := Blob(bs[1 + n..]).value.1;
      CStringLength(bs[1..1 + n]);
      ReadNamesAreShort(rest);
      assert ParsePairs(bs).entries[1..] == ParsePairs(rest).entries;
      assert forall i :: 1 <= i < |ParsePairs(bs).entries| ==> ParsePairs(bs).entries[i] == ParsePairs(rest).entries[i - 1];
    }
  }

  /** An empty name ends the section early. */
  lemma {:induction false} EmptyNameStops(ps: seq<Pair>, k: nat, rest: bytes)
    requires k < |ps| && Storable(ps) && ps[k].name == []
    requires forall i {:trigger ps[i]} :: 0 <= i < k ==> 1 <= |ps[i].name| <= 255
    ensures |ParsePairs(PairsBytes(ps) + rest).entries| == k
  {
    hide ParsePairs, PairBytes, PairsBytes, Fits, IsCString;
    ConsPairs(ps, rest);
    if k == 0 {
      EmptyFirst(ps[0], PairsBytes(ps[1..]) + rest);
    } else {
      ShortTail(ps, k);
      EmptyNameStops(ps[1..], k - 1, rest);
      PairBack(ps[0], PairsBytes(ps[1..]) + rest);
    }
  }

  lemma ShortTail(ps: seq<Pair>, k: nat)
    requires 0 < k < |ps| && Storable(ps) && ps[k].name == []
    requires forall i {:trigger ps[i]} :: 0 <= i < k ==> 1 <= |ps[i].name| <= 255
    ensures IsCString(ps[0].name) && Fits(ps[0].data) && 1 <= |ps[0].name| <= 255
    ensures Storable(ps[1..]) && ps[1..][k - 1].name == []
    ensures forall i {:trigger ps[1..][i]} :: 0 <= i < k - 1 ==> 1 <= |ps[1..][i].name| <= 255
  {
    assert ps[0] == ps[0];
  }

  lemma ConsPairs(ps: seq<Pair>, rest: bytes)
    requires ps != []
    ensures PairsBytes(ps) + rest == PairBytes(ps[0]) + (PairsBytes(ps[1..]) + rest)
  {
  }

  lemma EmptyFirst(p: Pair, rest: bytes)
    requires p.name == []
    ensures ParsePairs(PairBytes(p) + rest).entries == []
  {
    assert (PairBytes(p) + rest)[0] == 0;
  }

  /** Loading what was saved gives the entries back exactly if every name has 1 to 255 bytes. */
  lemma PairsRoundTripIff(ps: seq<Pair>, rest: bytes)
    requires Storable(ps)
    ensures ParsePairs(PairsBytes(ps) + rest) == Parsed(true, ps, rest) <==> ShortNames(ps)
  {
    if ShortNames(ps) {
      PairsBack(ps, rest);
    } else if ParsePairs(PairsBytes(ps) + rest).entries == ps {
      ReadNamesAreShort(PairsBytes(ps) + rest);
      assert forall i {:trigger ps[i]} :: 0 <= i < |ps| ==> |ps[i].name| <= 255;
      var k := FirstEmpty(ps);
      EmptyNameStops(ps, k, rest);
    }
  }

  lemma FirstEmpty(ps: seq<Pair>) returns (k: nat)
    requires !ShortNames(ps) && forall i {:trigger ps[i]} :: 0 <= i < |ps| ==> |ps[i].name| <= 255
    ensures k < |ps| && ps[k].name == [] && forall i {:trigger ps[i]} :: 0 <= i < k ==> 1 <= |ps[i].name| <= 255
  {
    k := 0;
    while k < |ps| && ps[k].name != []
      invariant k <= |ps| && forall i {:trigger ps[i]} :: 0 <= i < k ==> 1 <= |ps[i].name| <= 255
    {
      k := k + 1;
    }
  }

  /** How many entries end within the first `n` bytes of a section, and how many bytes are left then. */
  function WholePairs(ps: seq<Pair>, n: nat): nat {
    if ps == [] || n < |PairBytes(ps[0])| then 0 else 1 + WholePairs(ps[1..], n - |PairBytes(ps[0])|)
  }

  function BytesLeft(ps: seq<Pair>, n: nat): nat {
    if ps == [] || n < |PairBytes(ps[0])| then n else BytesLeft(ps[1..], n - |PairBytes(ps[0])|)
  }

  /** An entry that is cut off anywhere is not read. */
  lemma PairCut(p: Pair, n: nat)
    requires IsCString(p.name) && Fits(p.data) && 1 <= |p.name| <= 255 && 0 < n < |PairBytes(p)|
    ensures ParsePairs(PairBytes(p)[..n]) == Parsed(false, [], [])
  {
    var bs, k := PairBytes(p)[..n], |p.name|;
    assert bs[0] == k;
    if 1 + k <= n {
      assert PairBytes(p)[1 + k..] == ToLE(|p.data|, SIZE_T) + p.data;
      assert bs[1 + k..] == PairBytes(p)[1 + k..][..n - 1 - k];
      SizeBack(|p.data|);
      BlobCut(ToLE(|p.data|, SIZE_T), p.data, n - 1 - k);
    }
  }

  lemma BlobCut(size: bytes, data: bytes, n: nat)
    requires |size| == SIZE_T && FromLE(size) == |data| && n < SIZE_T + |data|
    ensures Blob((size + data)[..n]) == None
  {
    if n >= SIZE_T { assert (size + data)[..n][..SIZE_T] == size; }
  }

  /** A file that was cut off: the whole entries are read, and it counts as damaged unless it was cut between two. */
  lemma {:induction false} PairsCut(ps: seq<Pair>, n: nat)
    requires Storable(ps) && ShortNames(ps) && n < |PairsBytes(ps)|
    ensures WholePairs(ps, n) <= |ps|
    ensures ParsePairs(PairsBytes(ps)[..n]) == Parsed(BytesLeft(ps, n) == 0, ps[..WholePairs(ps, n)], [])
  {
    hide ParsePairs, PairBytes, Fits, IsCString;
    if ps == [] || n == 0 {
      NothingParsed(PairsBytes(ps)[..n]);
      assert ps[..0] == [];
      if ps != [] { PairNotEmpty(ps[0]); }
    } else {
      var p, more, size := ps[0], ps[1..], |PairBytes(ps[0])|;
      ConsPairs(ps, []);
      assert PairsBytes(ps) + [] == PairsBytes(ps) && PairsBytes(more) + [] == PairsBytes(more);
      if n < size {
        assert PairsBytes(ps)[..n] == PairBytes(p)[..n];
        PairCut(p, n);
        assert ps[..0] == [];
      } else {
        assert Storable(more) && ShortNames(more);
        PairsCut(more, n - size);
        assert PairsBytes(ps)[..n] == PairBytes(p) + PairsBytes(more)[..n - size];
        PairBack(p, PairsBytes(more)[..n - size]);
        assert [p] + more[..WholePairs(more, n - size)] == ps[..WholePairs(ps, n)];
      }
    }
  }

  lemma NothingParsed(bs: bytes)
    requires bs == []
    ensures ParsePairs(bs) == Parsed(true, [], [])
  {
  }

  lemma PairNotEmpty(p: Pair)
    ensures |PairBytes(p)| > 0
  {
  }

  /** The reversed list is the same map. */
  lemma LookupReversed(ps: seq<Pair>, name: bytes)
    requires UniqueNames(ps)
    ensures UniqueNames(Reverse(ps)) && Lookup(Reverse(ps), name) == Lookup(ps, name)
  {
    var t := Reverse(ps);
    LookupFinds(ps, name);
    LookupFinds(t, name);
    assert forall i :: 0 <= i < |ps| ==> ps[i] == t[|ps| - 1 - i];
    if Lookup(ps, name).Some? {
      var i :| 0 <= i < |ps| && ps[i] == Pair(name, Lookup(ps, name).value);
      assert t[|ps| - 1 - i] == ps[i];
      var j :| 0 <= j < |t| && t[j] == Pair(name, Lookup(t, name).value);
      assert ps[|ps| - 1 - j] == t[j];
    }
  }

  /** Two rounds of saving and loading restore the original bytes. */
  lemma PairsTwoRounds(ps: seq<Pair>, rest: bytes)
    requires Storable(ps) && ShortNames(ps)
    ensures var once := Reverse(ParsePairs(PairsBytes(ps) + rest).entries);
      var twice := Reverse(ParsePairs(PairsBytes(once) + rest).entries);
      once == Reverse(ps) && twice == ps && PairsBytes(twice) == PairsBytes(ps)
  {
    hide ParsePairs, PairsBytes;
    PairsBack(ps, rest);
    ReverseKeeps(ps);
    PairsBack(Reverse(ps), rest);
    assert Reverse(Reverse(ps)) == ps;
  }

  lemma ReverseKeeps(ps: seq<Pair>)
    ensures Storable(ps) ==> Storable(Reverse(ps))
    ensures ShortNames(ps) ==> ShortNames(Reverse(ps))
  {
    var t := Reverse(ps);
    assert forall i {:trigger t[i]} :: 0 <= i < |t| ==> t[i] == ps[|ps| - 1 - i];
  }

  // ---------------------------------------------------------------- records: round trip

  ghost predicate RecordsFit(rs: seq<Rec>) {
    forall i {:trigger rs[i]} :: 0 <= i < |rs| ==> Fits(rs[i].data)
  }

  lemma FieldsBack(r: Rec)
    ensures |ToLE(r.guid, GUID_SIZE)| == GUID_SIZE && GuidOf(ToLE(r.guid, GUID_SIZE)) == r.guid
    ensures |ToLE(r.finger, FINGER_SIZE)| == FINGER_SIZE && FingerOf(ToLE(r.finger, FINGER_SIZE)) == r.finger
  {
    Pow16();
    FromToLE(r.guid, GUID_SIZE);
    FromToLE(r.finger, FINGER_SIZE);
  }

  lemma RecordParts(r: Rec, rest: bytes)
    ensures var bs := RecordBytes(r) + rest;
      && |bs| >= 21 && bs[0] == 1 && bs[1..17] == ToLE(r.guid, GUID_SIZE) && bs[17..21] == ToLE(r.finger, FINGER_SIZE)
      && bs[21..] == ToLE(|r.data|, SIZE_T) + r.data + rest
  {
    hide ToLE;
    assert |ToLE(r.guid, GUID_SIZE)| == 16 && |ToLE(r.finger, FINGER_SIZE)| == 4;
  }

  lemma RecordBack(r: Rec, rest: bytes)
    requires Fits(r.data)
    ensures ParseRecords(RecordBytes(r) + rest) == ParseRecords(rest).(entries := [r] + ParseRecords(rest).entries)
  {
    hide ToLE, FromLE, Blob, RecordBytes, GuidOf, FingerOf, Fits;
    RecordParts(r, rest);
    FieldsBack(r);
    BlobBack(r.data, rest);
  }

  lemma {:induction false} RecordsBack(rs: seq<Rec>, rest: bytes)
    requires RecordsFit(rs)
    ensures ParseRecords(RecordsBytes(rs) + rest) == Parsed(true, rs, rest)
  {
    if rs == [] {
      assert ([0] + rest)[1..] == rest;
    } else {
      var r, more := rs[0], rs[1..];
      assert RecordsFit(more);
      RecordsBack(more, rest);
      RecordBack(r, RecordsBytes(more) + rest);
      assert RecordsBytes(rs) + rest == RecordBytes(r) + (RecordsBytes(more) + rest);
      assert [r] + more == rs;
    }
  }

  function WholeRecords(rs: seq<Rec>, n: nat): nat {
    if rs == [] || n < |RecordBytes(rs[0])| then 0 else 1 + WholeRecords(rs[1..], n - |RecordBytes(rs[0])|)
  }

  function RecordBytesLeft(rs: seq<Rec>, n: nat): nat {
    if rs == [] || n < |RecordBytes(rs[0])| then n else RecordBytesLeft(rs[1..], n - |RecordBytes(rs[0])|)
  }

  lemma RecordCut(r: Rec, n: nat)
    requires Fits(r.data) && 0 < n < |RecordBytes(r)|
    ensures ParseRecords(RecordBytes(r)[..n]) == Parsed(false, [], [])
  {
    var bs := RecordBytes(r)[..n];
    assert bs[0] == 1;
    if n >= 1 + GUID_SIZE + FINGER_SIZE {
      assert RecordBytes(r)[21..] == ToLE(|r.data|, SIZE_T) + r.data;
      assert bs[21..] == RecordBytes(r)[21..][..n - 21];
      SizeBack(|r.data|);
      BlobCut(ToLE(|r.data|, SIZE_T), r.data, n - 21);
    }
  }

  lemma ConsRecords(rs: seq<Rec>)
    requires rs != []
    ensures RecordsBytes(rs) == RecordBytes(rs[0]) + RecordsBytes(rs[1..]) && |RecordBytes(rs[0])| > 0
  {
  }

  lemma NoRecords(bs: bytes)
    requires bs == []
    ensures ParseRecords(bs) == Parsed(true, [], [])
  {
  }

  /** The same for the records of a file that was cut off. */
  lemma {:induction false} RecordsCut(rs: seq<Rec>, n: nat)
    requires RecordsFit(rs) && n < |RecordsBytes(rs)|
    ensures WholeRecords(rs, n) <= |rs|
    ensures ParseRecords(RecordsBytes(rs)[..n]) == Parsed(RecordBytesLeft(rs, n) == 0, rs[..WholeRecords(rs, n)], [])
  {
    hide ParseRecords, RecordBytes, Fits;
    if rs == [] || n == 0 {
      NoRecords(RecordsBytes(rs)[..n]);
      assert rs[..0] == [];
      if rs != [] { ConsRecords(rs); }
    } else {
      var r, more, size := rs[0], rs[1..], |RecordBytes(rs[0])|;
      ConsRecords(rs);
      if n < size {
        assert RecordsBytes(rs)[..n] == RecordBytes(r)[..n];
        RecordCut(r, n);
        assert rs[..0] == [];
      } else {
        assert RecordsFit(more);
        RecordsCut(more, n - size);
        assert RecordsBytes(rs)[..n] == RecordBytes(r) + RecordsBytes(more)[..n - size];
        RecordBack(r, RecordsBytes(more)[..n - size]);
        assert [r] + more[..WholeRecords(more, n - size)] == rs[..WholeRecords(rs, n)];
      }
    }
  }

  /** Records with distinct keys are all accepted, and end up in reverse. */
  lemma {:induction false} AllAccepted(rs: seq<Rec>, entries: seq<Rec>)
    requires UniqueKeys(Reverse(entries) + rs)
    ensures AddAll(rs, entries) == (true, Reverse(entries) + rs)
    decreases |entries|
  {
    if entries == [] {
      assert Reverse(entries) + rs == rs;
    } else {
      var e, more, all := entries[0], entries[1..], Reverse(entries) + rs;
      var n := |entries|;
      assert all[n - 1] == e && all[n..] == rs;
      assert !HasKey(rs, e.guid, e.finger) by {
        forall i | 0 <= i < |rs| ensures rs[i].guid != e.guid || rs[i].finger != e.finger { assert all[n + i] == rs[i]; }
      }
      assert Reverse(more) + ([e] + rs) == all;
      AllAccepted([e] + rs, more);
    }
  }

  /** What stands behind the first entry in the reversed list, and that its key is free there. */
  lemma FirstIsNew(rs: seq<Rec>, entries: seq<Rec>)
    requires entries != [] && UniqueKeys(Reverse(entries) + rs)
    ensures !HasKey(rs, entries[0].guid, entries[0].finger)
    ensures Reverse(entries[1..]) + ([entries[0]] + rs) == Reverse(entries) + rs
  {
    var e, all, n := entries[0], Reverse(entries) + rs, |entries|;
    assert all[n - 1] == e && all[n..] == rs;
    forall i | 0 <= i < |rs| ensures rs[i].guid != e.guid || rs[i].finger != e.finger { assert all[n + i] == rs[i]; }
  }

  /** A record whose key is taken stops the loading: the records before it are kept, and it fails. */
  lemma {:induction false} TakenKeyStops(rs: seq<Rec>, before: seq<Rec>, taken: Rec, more: seq<Rec>)
    requires UniqueKeys(Reverse(before) + rs) && HasKey(Reverse(before) + rs, taken.guid, taken.finger)
    ensures AddAll(rs, before + [taken] + more) == (false, Reverse(before) + rs)
    decreases |before|
  {
    hide UniqueKeys, HasKey;
    var entries := before + [taken] + more;
    if before == [] {
      assert Reverse(before) + rs == rs && entries[0] == taken;
    } else {
      FirstIsNew(rs, before);
      assert entries[0] == before[0] && entries[1..] == before[1..] + [taken] + more;
      TakenKeyStops([before[0]] + rs, before[1..], taken, more);
    }
  }

  /** Loading saved records into an empty list accepts all of them and reverses the list. */
  lemma RecordsRoundTrip(rs: seq<Rec>, rest: bytes)
    requires RecordsFit(rs) && UniqueKeys(rs)
    ensures ParseRecords(RecordsBytes(rs) + rest) == Parsed(true, rs, rest)
    ensures AddAll([], rs) == (true, Reverse(rs))
  {
    RecordsBack(rs, rest);
    var t := Reverse(rs);
    assert t + [] == t;
    forall i, j | 0 <= i < j < |t| ensures t[i].guid != t[j].guid || t[i].finger != t[j].finger {
      assert t[i] == rs[|rs| - 1 - i] && t[j] == rs[|rs| - 1 - j];
    }
    AllAccepted([], rs);
  }

  /** The reversed list holds the same records. */
  lemma SameRecords(rs: seq<Rec>)
    ensures forall r :: r in Reverse(rs) <==> r in rs
    ensures forall guid, finger :: HasKey(Reverse(rs), guid, finger) <==> HasKey(rs, guid, finger)
  {
    var t := Reverse(rs);
    assert forall i {:trigger rs[i]} :: 0 <= i < |rs| ==> t[|rs| - 1 - i] == rs[i];
    forall guid, finger ensures HasKey(t, guid, finger) <==> HasKey(rs, guid, finger) {
      if HasKey(rs, guid, finger) {
        var i :| 0 <= i < |rs| && rs[i].guid == guid && rs[i].finger == finger;
        assert t[|rs| - 1 - i] == rs[i];
      }
    }
  }

  lemma ReverseKeepsRecords(rs: seq<Rec>)
    ensures RecordsFit(rs) ==> RecordsFit(Reverse(rs))
    ensures UniqueKeys(rs) ==> UniqueKeys(Reverse(rs))
  {
    var t := Reverse(rs);
    assert forall i {:trigger t[i]} :: 0 <= i < |t| ==> t[i] == rs[|rs| - 1 - i];
  }

  /** Two rounds of saving, parsing and adding restore the records in their order, and the original bytes. */
  lemma RecordsTwoRounds(rs: seq<Rec>, rest: bytes)
    requires RecordsFit(rs) && UniqueKeys(rs)
    ensures var (ok1, once) := AddAll([], ParseRecords(RecordsBytes(rs) + rest).entries);
      var (ok2, twice) := AddAll([], ParseRecords(RecordsBytes(once) + rest).entries);
      ok1 && ok2 && once == Reverse(rs) && twice == rs && RecordsBytes(twice) == RecordsBytes(rs)
  {
    hide AddAll, ParseRecords, RecordsBytes;
    RecordsRoundTrip(rs, rest);
    ReverseKeepsRecords(rs);
    RecordsRoundTrip(Reverse(rs), rest);
    assert Reverse(Reverse(rs)) == rs;
  }
}

/** datastore.c itself. Writes to the file succeed. */
module DataStore {
  import opened Bytes
  import opened Wrappers
  import opened RecordSpec
  import opened DataStoreSpec

  /** An open file: reads come from `pos` on, writes go to the end. */
  class FileStream {
    var content: bytes
    var pos: nat

    ghost predicate Valid()
      reads this
    {
      pos <= |content|
    }

    ghost function Unread(): bytes
      requires Valid()
      reads this
    {
      content[pos..]
    }

    constructor (content: bytes)
      ensures Valid() && Unread() == content && this.content == content
    {
      this.content, pos := content, 0;
    }

    /** fgetc; None is the end of the file. */
    method Fgetc() returns (c: Option<byte>)
      requires Valid()
      modifies this`pos
      ensures Valid() && (c.Some? <==> old(Unread()) != [])
      ensures c.Some? ==> c.value == old(Unread())[0] && Unread() == old(Unread())[1..]
      ensures c.None? ==> Unread() == old(Unread())
    {
      if pos == |content| { return None; }
      c := Some(content[pos]);
      pos := pos + 1;
    }

    /** fread of `n` bytes; at the end of the file there are fewer. */
    method Fread(n: nat) returns (bs: bytes)
      requires Valid()
      modifies this`pos
      ensures Valid() && bs + Unread() == old(Unread())
      ensures |bs| == if n <= |old(Unread())| then n else |old(Unread())|
    {
      var m := if n <= |content| - pos then n else |content| - pos;
      bs := content[pos..pos + m];
      pos := pos + m;
    }

    method Write(bs: bytes)
      modifies this`content
      ensures content == old(content) + bs
    {
      content := content + bs;
    }
  }

  /** A size and that many bytes. */
  method ReadBlob(file: FileStream) returns (data: Option<bytes>)
    requires file.Valid()
    modifies file`pos
    ensures file.Valid()
    ensures data.Some? <==> Blob(old(file.Unread())).Some?
    ensures data.Some? ==> (data.value, file.Unread()) == Blob(old(file.Unread())).value
    ensures data.None? ==> file.Unread() == []
  {
    ghost var all := file.Unread();
    var size := file.Fread(SIZE_T);
    if |size| != SIZE_T { return None; }
    assert size == all[..SIZE_T] && file.Unread() == all[SIZE_T..];
    var n := FromLE(size);
    var bs := file.Fread(n);
    if |bs| != n { return None; }
    assert bs == all[SIZE_T..SIZE_T + n] && file.Unread() == all[SIZE_T + n..];
    return Some(bs);
  }

  /** The lists the program keeps: pairing data, and the records of the device. */
  class Stores {
    var pdata: seq<Pair>
    var records: seq<Rec>

    constructor ()
      ensures pdata == [] && records == []
    {
      pdata, records := [], [];
    }

    method GetPairData(name: bytes) returns (data: Option<bytes>)
      ensures data == Lookup(pdata, name)
    {
      var i := 0;
      assert pdata[0..] == pdata;
      while i < |pdata|
        invariant i <= |pdata| && Lookup(pdata[i..], name) == Lookup(pdata, name)
      {
        assert pdata[i..][1..] == pdata[i + 1..];
        if pdata[i].name == name { return Some(pdata[i].data); }
        i := i + 1;
      }
      return None;
    }

    method SetPairData(name: bytes, data: bytes)
      modifies this`pdata
      ensures pdata == SetPair(old(pdata), name, data)
    {
      hide *;
      var i := 0;
      while i < |pdata|
        invariant i <= |pdata| && pdata == old(pdata) && forall j :: 0 <= j < i ==> pdata[j].name != name
      {
        if pdata[i].name == name {
          SetsAt(pdata, i, name, data);
          pdata := pdata[i := Pair(name, data)];
          return;
        }
        i := i + 1;
      }
      SetsNew(pdata, name, data);
      pdata := [Pair(name, data)] + pdata;
    }

    /** `save_datastore_pair_data`. */
    method SavePairData(file: FileStream)
      modifies file`content
      ensures file.content == old(file.content) + PairsBytes(pdata)
    {
      hide *;
      var i := 0;
      assert pdata[0..] == pdata;
      while i < |pdata|
        invariant i <= |pdata| && file.content + PairsBytes(pdata[i..]) == old(file.content) + PairsBytes(pdata)
      {
        var p := pdata[i];
        PairSaved(file.content, pdata, i);
        file.Write([|p.name| % 256] + p.name);
        file.Write(ToLE(|p.data|, SIZE_T) + p.data);
        i := i + 1;
      }
      NothingLeft(pdata[i..], records[|records|..]);
      file.Write([0]);
    }

    /** `load_datastore_pair_data`: entries go in front of the list, also when the section is damaged. */
    method LoadPairData(file: FileStream) returns (ok: bool)
      requires file.Valid()
      modifies this`pdata, file`pos
      ensures file.Valid()
      ensures var p := ParsePairs(old(file.Unread()));
        ok == p.ok && file.Unread() == p.rest && pdata == Reverse(p.entries) + old(pdata)
    {
      hide *;
      ghost var all := ParsePairs(file.Unread());
      ghost var done: seq<Pair> := [];
      NoneDone(pdata, all.entries);
      while true
        invariant file.Valid() && pdata == Reverse(done) + old(pdata)
        invariant var p := ParsePairs(file.Unread());
          all.ok == p.ok && all.rest == p.rest && all.entries == done + p.entries
        decreases |file.Unread()|
      {
        var next := ReadPair(file);
        if next.End? { return true; }
        if next.Damaged? { return false; }
        Prepended(done, next.value, old(pdata), ParsePairs(file.Unread()).entries);
        pdata := [next.value] + pdata;
        done := done + [next.value];
      }
    }

    /** `save_datastore_records`. */
    method SaveRecords(file: FileStream)
      modifies file`content
      ensures file.content == old(file.content) + RecordsBytes(records)
    {
      hide *;
      var i := 0;
      assert records[0..] == records;
      while i < |records|
        invariant i <= |records| && file.content + RecordsBytes(records[i..]) == old(file.content) + RecordsBytes(records)
      {
        var r := records[i];
        RecordSaved(file.content, records, i);
        file.Write([1] + ToLE(r.guid, GUID_SIZE) + ToLE(r.finger, FINGER_SIZE));
        file.Write(ToLE(|r.data|, SIZE_T) + r.data);
        i := i + 1;
      }
      NothingLeft(pdata[|pdata|..], records[i..]);
      file.Write([0]);
    }

    /** `load_datastore_records`: a record whose key is taken stops it. */
    method LoadRecords(file: FileStream) returns (ok: bool)
      requires file.Valid()
      modifies this`records, file`pos
      ensures file.Valid()
      ensures var p := ParseRecords(old(file.Unread()));
        var (added, rs) := AddAll(old(records), p.entries);
        ok == (p.ok && added) && records == rs && (added ==> file.Unread() == p.rest)
    {
      ghost var all := ParseRecords(file.Unread());
      while true
        invariant file.Valid()
        invariant var p := ParseRecords(file.Unread());
          all.ok == p.ok && all.rest == p.rest && AddAll(records, p.entries) == AddAll(old(records), all.entries)
        decreases |file.Unread()|
      {
        var next := ReadRecord(file);
        AddsNone(records);
        if next.End? { return true; }
        if next.Damaged? { return false; }
        var r := next.value;
        AddsNext(records, r, ParseRecords(file.Unread()).entries);
        if HasKey(records, r.guid, r.finger) { return false; }
        records := [r] + records;
      }
    }
  }

  lemma AddsNone(rs: seq<Rec>)
    ensures AddAll(rs, []) == (true, rs)
  {
  }

  lemma AddsNext(rs: seq<Rec>, r: Rec, more: seq<Rec>)
    ensures AddAll(rs, [r] + more) == if HasKey(rs, r.guid, r.finger) then (false, rs) else AddAll([r] + rs, more)
  {
    assert ([r] + more)[1..] == more;
  }

  /** One entry of a section, its end, or damage. */
  datatype Next<T> = Entry(value: T) | End | Damaged

  method ReadPair(file: FileStream) returns (next: Next<Pair>)
    requires file.Valid()
    modifies file`pos
    ensures file.Valid()
    ensures next.End? ==> ParsePairs(old(file.Unread())) == Parsed(true, [], file.Unread())
    ensures next.Damaged? ==> ParsePairs(old(file.Unread())) == Parsed(false, [], []) && file.Unread() == []
    ensures next.Entry? ==> |file.Unread()| < |old(file.Unread())|
    ensures next.Entry? ==> var p := ParsePairs(file.Unread());
      ParsePairs(old(file.Unread())) == p.(entries := [next.value] + p.entries)
  {
    ghost var bs := file.Unread();
    var nameLen := file.Fgetc();
    if nameLen == None || nameLen == Some(0) { return End; }
    var n: nat := nameLen.value;
    var name := file.Fread(n);
    if |name| != n { return Damaged; }
    assert name == bs[1..1 + n] && file.Unread() == bs[1 + n..];
    var data := ReadBlob(file);
    if data.None? { return Damaged; }
    return Entry(Pair(CString(name), data.value));
  }

  method ReadRecord(file: FileStream) returns (next: Next<Rec>)
    requires file.Valid()
    modifies file`pos
    ensures file.Valid()
    ensures next.End? ==> ParseRecords(old(file.Unread())) == Parsed(true, [], file.Unread())
    ensures next.Damaged? ==> ParseRecords(old(file.Unread())) == Parsed(false, [], []) && file.Unread() == []
    ensures next.Entry? ==> |file.Unread()| < |old(file.Unread())|
    ensures next.Entry? ==> var p := ParseRecords(file.Unread());
      ParseRecords(old(file.Unread())) == p.(entries := [next.value] + p.entries)
  {
    ghost var bs := file.Unread();
    var ind := file.Fgetc();
    if ind == None || ind == Some(0) || ind == Some(0xFF) { return End; }
    var guid := file.Fread(GUID_SIZE);
    if |guid| != GUID_SIZE { return Damaged; }
    var finger := file.Fread(FINGER_SIZE);
    if |finger| != FINGER_SIZE { return Damaged; }
    assert guid == bs[1..17] && finger == bs[17..21] && file.Unread() == bs[21..];
    var data := ReadBlob(file);
    if data.None? { return Damaged; }
    return Entry(Rec(GuidOf(guid), FingerOf(finger), data.value));
  }

  lemma {:induction false} SetsAt(ps: seq<Pair>, i: nat, name: bytes, data: bytes)
    requires i < |ps| && ps[i].name == name && forall j :: 0 <= j < i ==> ps[j].name != name
    ensures Lookup(ps, name).Some? && SetPair(ps, name, data) == ps[i := Pair(name, data)]
  {
    if i == 0 {
      assert ps[0 := Pair(name, data)] == [Pair(name, data)] + ps[1..];
    } else {
      assert forall j :: 0 <= j < i - 1 ==> ps[1..][j] == ps[j + 1];
      SetsAt(ps[1..], i - 1, name, data);
      assert ps[i := Pair(name, data)] == [ps[0]] + ps[1..][i - 1 := Pair(name, data)];
    }
  }

  lemma SetsNew(ps: seq<Pair>, name: bytes, data: bytes)
    requires forall j :: 0 <= j < |ps| ==> ps[j].name != name
    ensures SetPair(ps, name, data) == [Pair(name, data)] + ps
  {
    LookupFinds(ps, name);
  }

  lemma PairSaved(before: bytes, ps: seq<Pair>, i: nat)
    requires i < |ps|
    ensures var p := ps[i];
      before + ([|p.name| % 256] + p.name) + (ToLE(|p.data|, SIZE_T) + p.data) + PairsBytes(ps[i + 1..])
        == before + PairsBytes(ps[i..])
  {
    var p := ps[i];
    assert ps[i..][1..] == ps[i + 1..];
    JoinBytes(before, [|p.name| % 256] + p.name, ToLE(|p.data|, SIZE_T), p.data, PairsBytes(ps[i + 1..]));
  }

  lemma RecordSaved(before: bytes, rs: seq<Rec>, i: nat)
    requires i < |rs|
    ensures var r := rs[i];
      before + ([1] + ToLE(r.guid, GUID_SIZE) + ToLE(r.finger, FINGER_SIZE)) + (ToLE(|r.data|, SIZE_T) + r.data)
        + RecordsBytes(rs[i + 1..])
        == before + RecordsBytes(rs[i..])
  {
    var r := rs[i];
    assert rs[i..][1..] == rs[i + 1..];
    JoinBytes(before, [1] + ToLE(r.guid, GUID_SIZE) + ToLE(r.finger, FINGER_SIZE), ToLE(|r.data|, SIZE_T), r.data,
              RecordsBytes(rs[i + 1..]));
  }

  lemma JoinBytes(a: bytes, b: bytes, c: bytes, d: bytes, e: bytes)
    ensures a + b + (c + d) + e == a + (b + c + d + e)
  {
  }

  lemma NothingLeft(ps: seq<Pair>, rs: seq<Rec>)
    ensures ps == [] ==> PairsBytes(ps) == [0]
    ensures rs == [] ==> RecordsBytes(rs) == [0]
  {
  }

  lemma NoneDone(ps: seq<Pair>, entries: seq<Pair>)
    ensures Reverse([]) + ps == ps && [] + entries == entries
  {
  }

  lemma Prepended(done: seq<Pair>, p: Pair, had: seq<Pair>, more: seq<Pair>)
    ensures [p] + (Reverse(done) + had) == Reverse(done + [p]) + had
    ensures done + ([p] + more) == done + [p] + more
  {
    assert Reverse(done + [p]) == [p] + Reverse(done);
  }

  /** A store that is saved and loaded into an empty program accepts every entry, and yields both lists
      in reverse: the same maps. */
  method SaveAndLoad(s: Stores) returns (t: Stores, ok: bool)
    requires Storable(s.pdata) && ShortNames(s.pdata) && RecordsFit(s.records) && UniqueKeys(s.records)
    ensures ok && fresh(t) && t.pdata == Reverse(s.pdata) && t.records == Reverse(s.records)
  {
    var file := new FileStream([]);
    s.SavePairData(file);
    s.SaveRecords(file);
    assert file.Unread() == PairsBytes(s.pdata) + RecordsBytes(s.records);
    PairsBack(s.pdata, RecordsBytes(s.records));
    RecordsRoundTrip(s.records, []);
    assert RecordsBytes(s.records) + [] == RecordsBytes(s.records);
    t := new Stores();
    ok := t.LoadPairData(file);
    assert t.pdata == Reverse(s.pdata);
    ok := t.LoadRecords(file);
  }
}
