/**
 The search of a HID report descriptor for the fingerprint interfaces (both copies of
 hidraw_detect.c). Items are those of sections 6.2.2.2 and 6.2.2.3 of the HID 1.11 Device Class
 Definition; Usage Page and Report ID are the global items of section 6.2.2.7.
 */
module DescriptorSpec {
  import opened Bytes

  const LONG_PREFIX: byte := 0xFE
  const USAGE_PAGE: byte := 0x04
  const REPORT_ID: byte := 0x84
  const CMD_PAGE := 0xFF00
  const IMG_PAGE := 0x00FF

  /** The report ids of the command channel and of the image channel. */
  const CMD_IDS: seq<byte> := [0x0E, 0x0F, 0x10, 0x11]
  const IMG_IDS: seq<byte> := [0x0C, 0x0D, 0x20, 0x21]

  /** The number of data bytes of a short item, from its two low bits. */
  function DataSize(prefix: byte): nat {
    if prefix % 4 == 3 then 4 else prefix % 4
  }

  /** Tag and type of a short item. */
  function Tag(prefix: byte): byte {
    prefix - prefix % 4
  }

  datatype Item = Short(prefix: byte, data: bytes) | Long(tag: byte, data: bytes)

  /** An item of the standard: the prefix of a short item says how long it is, and is not 0xFE. */
  predicate IsItem(x: Item) {
    match x
    case Short(prefix, data) => prefix != LONG_PREFIX && |data| == DataSize(prefix)
    case Long(_, data) => |data| < 256
  }

  function Encoded(x: Item): bytes
    requires IsItem(x)
  {
    match x
    case Short(prefix, data) => [prefix] + data
    case Long(tag, data) => [LONG_PREFIX, |data|, tag] + data
  }

  ghost predicate AreItems(items: seq<Item>) {
    forall i {:trigger items[i]} :: 0 <= i < |items| ==> IsItem(items[i])
  }

  function Encode(items: seq<Item>): bytes
    requires AreItems(items)
  {
    if items == [] then [] else Encoded(items[0]) + Encode(items[1..])
  }

  /** The size of the item that starts here; a long item needs a second byte to say it. */
  function ItemSize(t: bytes): (n: nat)
    requires t != []
    ensures n > 0
  {
    if t[0] != LONG_PREFIX then 1 + DataSize(t[0])
    else if |t| < 2 then 2
    else
      var dataSize: nat := t[1];
      3 + dataSize
  }

  /** The beginning of an item that does not fit. */
  predicate Truncated(t: bytes) {
    t == [] || |t| < ItemSize(t)
  }

  // ---------------------------------------------------------------- what the flags mean

  predicate IsUsagePage(x: Item) {
    x.Short? && Tag(x.prefix) == USAGE_PAGE
  }

  predicate IsReportId(x: Item) {
    x.Short? && Tag(x.prefix) == REPORT_ID
  }

  /** The usage page in force before item `k`: that of the last Usage Page item, 16 bits of it. */
  function PageAt(items: seq<Item>, k: nat): nat
    requires k <= |items|
  {
    if k == 0 then 0
    else if IsUsagePage(items[k - 1]) then FromLE(items[k - 1].data) % 0x1_0000
    else PageAt(items, k - 1)
  }

  /** Report `id` is announced under one of `pages` among the first `k` items. */
  ghost predicate Announced(items: seq<Item>, k: nat, id: byte, pages: set<nat>)
    requires k <= |items|
  {
    exists j {:trigger items[j]} :: 0 <= j < k && IsReportId(items[j]) && FromLE(items[j].data) % 256 == id && PageAt(items, j) in pages
  }

  ghost predicate HasCmdReports(items: seq<Item>) {
    forall id :: id in CMD_IDS ==> Announced(items, |items|, id, {CMD_PAGE})
  }

  ghost predicate HasImgReports(items: seq<Item>) {
    forall id :: id in IMG_IDS ==> Announced(items, |items|, id, {CMD_PAGE, IMG_PAGE})
  }

  // ---------------------------------------------------------------- the walk

  /** The usage page in force, and the report ids seen under the pages of either channel. */
  datatype Scan = Scan(page: nat, cmd: set<byte>, img: set<byte>)

  const START := Scan(0, {}, {})

  function Apply(st: Scan, prefix: byte, value: nat): Scan {
    if Tag(prefix) == USAGE_PAGE then st.(page := value % 0x1_0000)
    else if Tag(prefix) == REPORT_ID then
      st.(cmd := if st.page == CMD_PAGE then st.cmd + {value % 256} else st.cmd,
          img := if st.page == CMD_PAGE || st.page == IMG_PAGE then st.img + {value % 256} else st.img)
    else st
  }

  /** The state at the end of the descriptor `t`, from `st` on. */
  function Walk(t: bytes, st: Scan): Scan
    decreases |t|
  {
    if Truncated(t) then st
    else if t[0] == LONG_PREFIX then Walk(t[ItemSize(t)..], st)
    else Walk(t[ItemSize(t)..], Apply(st, t[0], FromLE(t[1..ItemSize(t)])))
  }

  predicate Cmd(st: Scan) {
    forall id :: id in CMD_IDS ==> id in st.cmd
  }

  predicate Img(st: Scan) {
    forall id :: id in IMG_IDS ==> id in st.img
  }

  function ApplyItem(st: Scan, x: Item): Scan {
    if x.Short? then Apply(st, x.prefix, FromLE(x.data)) else st
  }

  function ApplyFrom(items: seq<Item>, k: nat, st: Scan): Scan
    requires k <= |items|
    decreases |items| - k
  {
    if k == |items| then st else ApplyFrom(items, k + 1, ApplyItem(st, items[k]))
  }

  lemma WalkItem(x: Item, rest: bytes, st: Scan)
    requires IsItem(x)
    ensures Walk(Encoded(x) + rest, st) == Walk(rest, ApplyItem(st, x))
  {
    var t := Encoded(x) + rest;
    assert t[|Encoded(x)|..] == rest;
    match x
    case Short(prefix, data) => assert t[1..1 + |data|] == data;
    case Long(_, data) =>
  }

  /** The walk takes one item after the other and stops at a truncated tail. */
  lemma {:induction false} WalkItems(items: seq<Item>, k: nat, tail: bytes, st: Scan)
    requires AreItems(items) && k <= |items| && Truncated(tail)
    ensures Walk(Encode(items[k..]) + tail, st) == ApplyFrom(items, k, st)
    decreases |items| - k
  {
    if k == |items| {
      assert Encode(items[k..]) + tail == tail;
    } else {
      assert items[k..][1..] == items[k + 1..];
      WalkItem(items[k], Encode(items[k + 1..]) + tail, st);
      assert Encode(items[k..]) + tail == Encoded(items[k]) + (Encode(items[k + 1..]) + tail);
      WalkItems(items, k + 1, tail, ApplyItem(st, items[k]));
    }
  }

  /** `st` is what the first `k` items say. */
  ghost predicate Sums(items: seq<Item>, k: nat, st: Scan)
    requires k <= |items|
  {
    && st.page == PageAt(items, k)
    && (forall id: byte {:trigger id in st.cmd} :: id in st.cmd <==> Announced(items, k, id, {CMD_PAGE}))
    && (forall id: byte {:trigger id in st.img} :: id in st.img <==> Announced(items, k, id, {CMD_PAGE, IMG_PAGE}))
  }

  lemma AnnouncedNext(items: seq<Item>, k: nat, id: byte, pages: set<nat>)
    requires k < |items|
    ensures Announced(items, k + 1, id, pages) <==>
      Announced(items, k, id, pages)
      || (IsReportId(items[k]) && FromLE(items[k].data) % 256 == id && PageAt(items, k) in pages)
  {
  }

  lemma SumsNext(items: seq<Item>, k: nat, st: Scan)
    requires k < |items| && Sums(items, k, st)
    ensures Sums(items, k + 1, ApplyItem(st, items[k]))
  {
    forall id: byte
      ensures id in ApplyItem(st, items[k]).cmd <==> Announced(items, k + 1, id, {CMD_PAGE})
      ensures id in ApplyItem(st, items[k]).img <==> Announced(items, k + 1, id, {CMD_PAGE, IMG_PAGE})
    {
      AnnouncedNext(items, k, id, {CMD_PAGE});
      AnnouncedNext(items, k, id, {CMD_PAGE, IMG_PAGE});
    }
  }

  lemma {:induction false} SumsAll(items: seq<Item>, k: nat, st: Scan)
    requires k <= |items| && Sums(items, k, st)
    ensures Sums(items, |items|, ApplyFrom(items, k, st))
    decreases |items| - k
  {
    if k < |items| {
      SumsNext(items, k, st);
      SumsAll(items, k + 1, ApplyItem(st, items[k]));
    }
  }

  /** On the encoding of any items, with any truncated tail, each flag is set exactly if all its four
      report ids are announced under the right usage page. */
  lemma FlagsMean(items: seq<Item>, tail: bytes)
    requires AreItems(items) && Truncated(tail)
    ensures Cmd(Walk(Encode(items) + tail, START)) <==> HasCmdReports(items)
    ensures Img(Walk(Encode(items) + tail, START)) <==> HasImgReports(items)
  {
    assert items[0..] == items;
    WalkItems(items, 0, tail, START);
    SumsAll(items, 0, START);
    var st := ApplyFrom(items, 0, START);
    assert forall id :: id in CMD_IDS ==> (id in st.cmd <==> Announced(items, |items|, id, {CMD_PAGE}));
    assert forall id :: id in IMG_IDS ==> (id in st.img <==> Announced(items, |items|, id, {CMD_PAGE, IMG_PAGE}));
  }

  /** Every byte string is a list of items with a truncated tail, so the above covers all descriptors. */
  lemma {:induction false} EveryDescriptor(t: bytes) returns (items: seq<Item>, tail: bytes)
    ensures AreItems(items) && Truncated(tail) && t == Encode(items) + tail
    decreases |t|
  {
    if Truncated(t) {
      items, tail := [], t;
    } else {
      var x := FirstItem(t);
      var n := ItemSize(t);
      var rest;
      rest, tail := EveryDescriptor(t[n..]);
      items := [x] + rest;
      Prepended(x, rest);
      assert t == t[..n] + (Encode(rest) + tail) == Encode(items) + tail;
    }
  }

  lemma FirstItem(t: bytes) returns (x: Item)
    requires !Truncated(t)
    ensures IsItem(x) && Encoded(x) == t[..ItemSize(t)]
  {
    var n := ItemSize(t);
    x := if t[0] == LONG_PREFIX then Long(t[2], t[3..n]) else Short(t[0], t[1..n]);
  }

  lemma Prepended(x: Item, rest: seq<Item>)
    requires IsItem(x) && AreItems(rest)
    ensures AreItems([x] + rest) && Encode([x] + rest) == Encoded(x) + Encode(rest)
  {
    var items := [x] + rest;
    assert forall i :: 1 <= i < |items| ==> items[i] == rest[i - 1];
    assert items[1..] == rest;
  }
}

/** The two copies of the parser. */
module ReportDescriptor {
  import opened Bytes
  import opened DescriptorSpec

  /** The bytes of a short item's value. */
  method ReadValue(desc: bytes, at: nat, n: nat) returns (value: nat)
    requires at + n <= |desc|
    ensures value == FromLE(desc[at..at + n])
  {
    value := 0;
    var weight := 1;
    for j := 0 to n
      invariant weight == Pow256(j) && value + weight * FromLE(desc[at + j..at + n]) == FromLE(desc[at..at + n])
    {
      assert desc[at + j..at + n][1..] == desc[at + j + 1..at + n] && desc[at + j..at + n][0] == desc[at + j];
      NextDigit(value, weight, desc[at + j], FromLE(desc[at + j + 1..at + n]));
      value := value + weight * desc[at + j];
      weight := 256 * weight;
    }
    assert desc[at + n..at + n] == [];
  }

  lemma NextDigit(value: nat, weight: nat, b: int, rest: nat)
    ensures value + weight * (b + 256 * rest) == value + weight * b + 256 * weight * rest
  {
  }

  /** The eight flags of the two channels agree with what was seen. */
  ghost predicate Flags(seenCmd: array<bool>, seenImg: array<bool>, st: Scan)
    reads seenCmd, seenImg
  {
    && seenCmd.Length == 4 && seenImg.Length == 4
    && (forall k :: 0 <= k < 4 ==> (seenCmd[k] <==> CMD_IDS[k] in st.cmd))
    && (forall k :: 0 <= k < 4 ==> (seenImg[k] <==> IMG_IDS[k] in st.img))
  }

  /** A Report ID item, in either copy. */
  method SeeReport(value: nat, ghost prefix: byte, page: nat, seenCmd: array<bool>, seenImg: array<bool>, ghost st: Scan)
    requires Flags(seenCmd, seenImg, st) && st.page == page && seenCmd != seenImg && Tag(prefix) == REPORT_ID
    modifies seenCmd, seenImg
    ensures Flags(seenCmd, seenImg, Apply(st, prefix, value))
  {
    var rid := value % 256;
    if page == CMD_PAGE {
      if rid == 0x0E { seenCmd[0] := true; }
      if rid == 0x0F { seenCmd[1] := true; }
      if rid == 0x10 { seenCmd[2] := true; }
      if rid == 0x11 { seenCmd[3] := true; }
    }
    if page == CMD_PAGE || page == IMG_PAGE {
      if rid == 0x0C { seenImg[0] := true; }
      if rid == 0x0D { seenImg[1] := true; }
      if rid == 0x20 { seenImg[2] := true; }
      if rid == 0x21 { seenImg[3] := true; }
    }
  }

  /** The size bits of a short item's prefix. */
  method ShortSize(prefix: byte) returns (dataSize: nat)
    ensures dataSize == DataSize(prefix)
  {
    dataSize := prefix % 4;
    if dataSize == 3 { dataSize := 4; }
  }

  /** A short item in the library's copy. */
  method LibraryItem(prefix: byte, value: nat, page: nat, seenCmd: array<bool>, seenImg: array<bool>, ghost st: Scan)
    returns (page': nat)
    requires Flags(seenCmd, seenImg, st) && st.page == page && seenCmd != seenImg
    modifies seenCmd, seenImg
    ensures Flags(seenCmd, seenImg, Apply(st, prefix, value)) && page' == Apply(st, prefix, value).page
  {
    page' := page;
    var tag := prefix - prefix % 4;
    if tag == 0x04 { page' := value % 0x1_0000; }
    if tag == 0x84 { SeeReport(value, prefix, page, seenCmd, seenImg, st); }
  }

  /** A short item in the copy of the command line tool. Its further tags cannot occur: the size bits are masked off. */
  method CliItem(prefix: byte, value: nat, page: nat, seenCmd: array<bool>, seenImg: array<bool>, ghost st: Scan)
    returns (page': nat)
    requires Flags(seenCmd, seenImg, st) && st.page == page && seenCmd != seenImg
    modifies seenCmd, seenImg
    ensures Flags(seenCmd, seenImg, Apply(st, prefix, value)) && page' == Apply(st, prefix, value).page
  {
    page' := page;
    var tag := prefix - prefix % 4;
    if tag == 0x04 || tag == 0x05 || tag == 0x06 { page' := value % 0x1_0000; }
    if tag == 0x84 || tag == 0x85 { SeeReport(value, prefix, page, seenCmd, seenImg, st); }
  }

  /** The walk from `i` on, in state `st`, gives the result; past the end there is nothing left. */
  ghost predicate Position(desc: bytes, i: nat, st: Scan) {
    Walk(desc, START) == if i <= |desc| then Walk(desc[i..], st) else st
  }

  /** One item, by its offsets in the descriptor. */
  lemma NextItem(desc: bytes, i: nat, st: Scan)
    requires i < |desc| && Position(desc, i, st)
    ensures desc[i] == 0xFE && i + 1 >= |desc| ==> Position(desc, |desc|, st)
    ensures desc[i] == 0xFE && i + 1 < |desc| ==> var dataSize: nat := desc[i + 1]; Position(desc, i + 3 + dataSize, st)
    ensures desc[i] != 0xFE ==>
      var n := i + 1 + DataSize(desc[i]);
      if n > |desc| then Position(desc, |desc|, st) else Position(desc, n, Apply(st, desc[i], FromLE(desc[i + 1..n])))
  {
    var t := desc[i..];
    assert desc[|desc|..] == [];
    if |t| >= ItemSize(t) {
      assert t[ItemSize(t)..] == desc[i + ItemSize(t)..];
      assert t[0] != LONG_PREFIX ==> t[1..ItemSize(t)] == desc[i + 1..i + ItemSize(t)];
    }
  }

  lemma AtStart(desc: bytes, seenCmd: array<bool>, seenImg: array<bool>)
    requires seenCmd.Length == 4 && seenImg.Length == 4
    requires forall k :: 0 <= k < 4 ==> !seenCmd[k] && !seenImg[k]
    ensures Position(desc, 0, START) && Flags(seenCmd, seenImg, START) && START.page == 0
  {
    assert desc[0..] == desc;
  }

  lemma Arrived(desc: bytes, i: nat, st: Scan)
    requires (i >= |desc| && Position(desc, i, st)) || Position(desc, |desc|, st)
    ensures st == Walk(desc, START)
  {
    assert desc[|desc|..] == [] && (i == |desc| ==> desc[i..] == []);
  }

  lemma FlagsAnswer(seenCmd: array<bool>, seenImg: array<bool>, st: Scan)
    requires Flags(seenCmd, seenImg, st)
    ensures seenCmd.Length == 4 && seenImg.Length == 4
    ensures Cmd(st) <==> seenCmd[0] && seenCmd[1] && seenCmd[2] && seenCmd[3]
    ensures Img(st) <==> seenImg[0] && seenImg[1] && seenImg[2] && seenImg[3]
  {
    assert forall k :: 0 <= k < 4 ==> CMD_IDS[k] in CMD_IDS && IMG_IDS[k] in IMG_IDS;
    assert Cmd(st) ==> seenCmd[0] && seenCmd[1] && seenCmd[2] && seenCmd[3];
    assert Img(st) ==> seenImg[0] && seenImg[1] && seenImg[2] && seenImg[3];
  }

  /** `parse_report_descriptor` of the library. */
  method ParseLibrary(desc: bytes) returns (hasCmd: bool, hasImg: bool)
    ensures hasCmd <==> Cmd(Walk(desc, START))
    ensures hasImg <==> Img(Walk(desc, START))
  {
    hide *;
    var currentUsagePage: nat := 0;
    var seenCmd, seenImg := new bool[4](_ => false), new bool[4](_ => false);
    ghost var st := START;
    var i: nat := 0;
    AtStart(desc, seenCmd, seenImg);
    while i < |desc|
      invariant Position(desc, i, st) && Flags(seenCmd, seenImg, st) && st.page == currentUsagePage
      decreases |desc| - i
    {
      var prefix := desc[i];
      NextItem(desc, i, st);
      if prefix == 0xFE {
        if i + 1 >= |desc| { break; }
        var dataSize: nat := desc[i + 1];
        i := i + 3 + dataSize;
        continue;
      }
      var dataSize := ShortSize(prefix);
      if i + 1 + dataSize > |desc| { break; }
      var value := ReadValue(desc, i + 1, dataSize);
      currentUsagePage := LibraryItem(prefix, value, currentUsagePage, seenCmd, seenImg, st);
      st := Apply(st, prefix, value);
      i := i + 1 + dataSize;
    }
    Arrived(desc, i, st);
    FlagsAnswer(seenCmd, seenImg, st);
    hasCmd := seenCmd[0] && seenCmd[1] && seenCmd[2] && seenCmd[3];
    hasImg := seenImg[0] && seenImg[1] && seenImg[2] && seenImg[3];
  }

  /** `parse_report_descriptor` of the command line tool: on every byte string the same flags. */
  method ParseCli(desc: bytes) returns (hasCmd: bool, hasImg: bool)
    ensures hasCmd <==> Cmd(Walk(desc, START))
    ensures hasImg <==> Img(Walk(desc, START))
  {
    hide *;
    var currentUsagePage: nat := 0;
    var seenCmd, seenImg := new bool[4](_ => false), new bool[4](_ => false);
    ghost var st := START;
    var i: nat := 0;
    AtStart(desc, seenCmd, seenImg);
    while i < |desc|
      invariant Position(desc, i, st) && Flags(seenCmd, seenImg, st) && st.page == currentUsagePage
      decreases |desc| - i
    {
      var prefix := desc[i];
      NextItem(desc, i, st);
      if prefix == 0xFE {
        if i + 1 >= |desc| { break; }
        var dataSize: nat := desc[i + 1];
        i := i + 3 + dataSize;
        continue;
      }
      var dataSize := ShortSize(prefix);
      if i + 1 + dataSize > |desc| { break; }
      var value := ReadValue(desc, i + 1, dataSize);
      currentUsagePage := CliItem(prefix, value, currentUsagePage, seenCmd, seenImg, st);
      st := Apply(st, prefix, value);
      i := i + 1 + dataSize;
    }
    Arrived(desc, i, st);
    FlagsAnswer(seenCmd, seenImg, st);
    hasCmd := seenCmd[0] && seenCmd[1] && seenCmd[2] && seenCmd[3];
    hasImg := seenImg[0] && seenImg[1] && seenImg[2] && seenImg[3];
  }
}
