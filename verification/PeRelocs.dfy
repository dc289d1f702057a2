/**
 Base relocations: the two passes over the relocation table (reloc.c) and the loop that applies
 them to the mapped image (loader.c).
 */
module PeRelocs {
  import opened Bytes
  import opened Wrappers
  import opened PeSections

  const U64: nat := 0x1_0000_0000_0000_0000
  const BLOCK_HEADER_SIZE := 8
  const PE_RELOC_NOP := 0
  const PE_RELOC_HIGHLOW := 3
  const PE_RELOC_DIR64 := 10

  type u64 = x: int | 0 <= x < U64

  /** struct pe_reloc. */
  datatype Reloc = Reloc(addrBits: nat, offset: u32, delta: u64)

  /** One entry of the table, with the page of its block. */
  datatype Entry = Entry(page: u32, bits: nat) {
    function Type(): nat {
      bits / 0x1000 % 0x10
    }

    function Offset(): u32 {
      (page + bits % 0x1000) % U32
    }

    predicate Supported() {
      Type() == PE_RELOC_NOP || Type() == PE_RELOC_HIGHLOW || Type() == PE_RELOC_DIR64
    }
  }

  function LE16(data: bytes, off: nat): (v: nat)
    requires off + 2 <= |data|
    ensures v < 0x1_0000
  {
    var b0: int, b1: int := data[off], data[off + 1];
    b0 + 0x100 * b1
  }

  // ---------------------------------------------------------------- the table

  /** The memory at the table's allocation: `size` bytes of it are the table, and whatever else it holds
      lies behind the table. */
  datatype Memory = Memory(bytes: bytes, size: nat)

  type Table = m: Memory | m.size <= |m.bytes| witness Memory([], 0)

  /** The header at `off` passes the checks of the first pass. */
  predicate HeaderOk(dir: Table, off: nat) {
    off + BLOCK_HEADER_SIZE <= dir.size && LE32(dir.bytes, off + 4) >= BLOCK_HEADER_SIZE && LE32(dir.bytes, off + 4) % 2 == 0
  }

  function BlockSize(dir: Table, off: nat): (n: nat)
    requires HeaderOk(dir, off)
    ensures n >= BLOCK_HEADER_SIZE
  {
    LE32(dir.bytes, off + 4)
  }

  /** No block claims more bytes than the table has left. */
  ghost predicate NoOverrun(dir: Table, off: nat)
    decreases dir.size - off
  {
    off < dir.size && HeaderOk(dir, off) ==> off + BlockSize(dir, off) <= dir.size && NoOverrun(dir, off + BlockSize(dir, off))
  }

  /** All the blocks claim is there, in the table or behind it. */
  ghost predicate Present(dir: Table, off: nat)
    decreases dir.size - off
  {
    off < dir.size && HeaderOk(dir, off) ==> off + BlockSize(dir, off) <= |dir.bytes| && Present(dir, off + BlockSize(dir, off))
  }

  /** All headers from `off` on are accepted. */
  ghost predicate Parses(dir: Table, off: nat)
    decreases dir.size - off
  {
    off < dir.size ==> HeaderOk(dir, off) && Parses(dir, off + BlockSize(dir, off))
  }

  /** No block ends past the reach of the 32-bit offset of the next one. */
  ghost predicate EndsFit(dir: Table, off: nat)
    decreases dir.size - off
  {
    off < dir.size && HeaderOk(dir, off) ==> off + BlockSize(dir, off) < U32 && EndsFit(dir, off + BlockSize(dir, off))
  }

  /** How many entries the blocks claim to have, whether they are there or not. */
  ghost function Claimed(dir: Table, off: nat): nat
    decreases dir.size - off
  {
    if off < dir.size && HeaderOk(dir, off) then
      (BlockSize(dir, off) - BLOCK_HEADER_SIZE) / 2 + Claimed(dir, off + BlockSize(dir, off))
    else 0
  }

  function EntryAt(dir: Table, off: nat, j: nat): Entry
    requires HeaderOk(dir, off) && off + BLOCK_HEADER_SIZE + 2 * j + 2 <= |dir.bytes|
  {
    Entry(LE32(dir.bytes, off), LE16(dir.bytes, off + BLOCK_HEADER_SIZE + 2 * j))
  }

  function BlockEntries(dir: Table, off: nat): (es: seq<Entry>)
    requires HeaderOk(dir, off) && off + BlockSize(dir, off) <= |dir.bytes|
    ensures |es| == (BlockSize(dir, off) - BLOCK_HEADER_SIZE) / 2
    ensures forall j {:trigger es[j]} :: 0 <= j < |es| ==>
      off + BLOCK_HEADER_SIZE + 2 * j + 2 <= |dir.bytes| && es[j] == EntryAt(dir, off, j)
  {
    seq((BlockSize(dir, off) - BLOCK_HEADER_SIZE) / 2,
        j requires 0 <= j < (BlockSize(dir, off) - BLOCK_HEADER_SIZE) / 2 => EntryAt(dir, off, j))
  }

  /** The block at `off` is complete and its entries are those of `es` from `q` on. */
  ghost predicate BlockAt(dir: Table, off: nat, es: seq<Entry>, q: nat) {
    && HeaderOk(dir, off) && off + BlockSize(dir, off) <= |dir.bytes|
    && q + |BlockEntries(dir, off)| <= |es|
    && es[q..q + |BlockEntries(dir, off)|] == BlockEntries(dir, off)
  }

  function EntryCount(dir: Table, off: nat): nat {
    if HeaderOk(dir, off) then (BlockSize(dir, off) - BLOCK_HEADER_SIZE) / 2 else 0
  }

  /** All entries from the block at `off` on, in order. */
  ghost function Entries(dir: Table, off: nat): seq<Entry>
    requires Present(dir, off) && Parses(dir, off)
    decreases dir.size - off
  {
    if off >= dir.size then [] else BlockEntries(dir, off) + Entries(dir, off + BlockSize(dir, off))
  }

  lemma HeaderTests(dir: Table, off: nat)
    requires off < dir.size
    ensures HeaderOk(dir, off) ==> off + BLOCK_HEADER_SIZE <= dir.size
    ensures off + BLOCK_HEADER_SIZE <= dir.size ==>
      var size := LE32(dir.bytes, off + 4);
      (HeaderOk(dir, off) <==> size >= BLOCK_HEADER_SIZE && size - BLOCK_HEADER_SIZE == (size - BLOCK_HEADER_SIZE) / 2 * 2)
    ensures Parses(dir, off) ==> HeaderOk(dir, off)
  {
  }

  lemma NextOffset(dir: Table, off: nat)
    requires off < dir.size && HeaderOk(dir, off) && EndsFit(dir, off)
    ensures off + 8 <= dir.size && LE32(dir.bytes, off + 4) >= BLOCK_HEADER_SIZE
    ensures var next := off + LE32(dir.bytes, off + 4);
      && next % U32 == next && EndsFit(dir, next) && (Parses(dir, off) <==> Parses(dir, next))
      && Claimed(dir, off) == (LE32(dir.bytes, off + 4) - BLOCK_HEADER_SIZE) / 2 + Claimed(dir, next)
  {
  }

  lemma NothingLeft(dir: Table, off: nat)
    requires off >= dir.size
    ensures Parses(dir, off) && Claimed(dir, off) == 0
  {
  }

  /** The first pass: how many entries the blocks claim, or nothing when a header is rejected. */
  method CountRelocs(dir: Table) returns (count: Option<nat>)
    requires dir.size < U32 && EndsFit(dir, 0)
    ensures count.Some? <==> Parses(dir, 0)
    ensures count.Some? ==> count.value == Claimed(dir, 0)
  {
    hide HeaderOk, LE32, EndsFit, Parses, Claimed;
    var numRelocs, blockOff := 0, 0;
    while blockOff < dir.size
      invariant EndsFit(dir, blockOff) && (Parses(dir, 0) <==> Parses(dir, blockOff))
      invariant numRelocs + Claimed(dir, blockOff) == Claimed(dir, 0)
      decreases dir.size - blockOff
    {
      HeaderTests(dir, blockOff);
      var remSize := dir.size - blockOff;
      if remSize < BLOCK_HEADER_SIZE { return None; }
      var blockSize := LE32(dir.bytes, blockOff + 4);
      if blockSize < BLOCK_HEADER_SIZE { return None; }
      var numBlockRelocs := (blockSize - BLOCK_HEADER_SIZE) / 2;
      if blockSize - BLOCK_HEADER_SIZE != numBlockRelocs * 2 { return None; }
      NextOffset(dir, blockOff);
      blockOff := (blockOff + blockSize) % U32;
      numRelocs := numRelocs + numBlockRelocs;
    }
    NothingLeft(dir, blockOff);
    return Some(numRelocs);
  }

  /** The entries claimed are as many as the second pass reads. */
  lemma {:induction false} ClaimedAreRead(dir: Table, off: nat)
    requires Present(dir, off) && Parses(dir, off)
    ensures Claimed(dir, off) == |Entries(dir, off)|
    decreases dir.size - off
  {
    if off < dir.size { ClaimedAreRead(dir, off + BlockSize(dir, off)); }
  }

  /** One block, and the rest. */
  lemma BlockThenRest(dir: Table, off: nat)
    requires off < dir.size && HeaderOk(dir, off)
    ensures var next := off + BlockSize(dir, off);
      && (EndsFit(dir, off) <==> next < U32 && EndsFit(dir, next))
      && (Parses(dir, off) <==> Parses(dir, next))
      && (NoOverrun(dir, off) <==> next <= dir.size && NoOverrun(dir, next))
      && (Present(dir, off) <==> next <= |dir.bytes| && Present(dir, next))
      && Claimed(dir, off) == (BlockSize(dir, off) - BLOCK_HEADER_SIZE) / 2 + Claimed(dir, next)
      && (Parses(dir, off) && Present(dir, off) ==> Entries(dir, off) == BlockEntries(dir, off) + Entries(dir, next))
  {
  }

  lemma BehindTable(dir: Table, off: nat)
    requires off >= dir.size
    ensures EndsFit(dir, off) && Parses(dir, off) && NoOverrun(dir, off) && Present(dir, off)
    ensures Claimed(dir, off) == 0 && Entries(dir, off) == []
  {
  }

  /** The 32-bit offset can come back to the start: these headers pass, and the first pass goes round. */
  lemma OffsetWraps() returns (dir: Table)
    ensures HeaderOk(dir, 0) && BlockSize(dir, 0) == 8 && HeaderOk(dir, 8) && (8 + BlockSize(dir, 8)) % U32 == 0
    ensures dir.size == 16 && !EndsFit(dir, 0)
  {
    hide EndsFit, Parses, NoOverrun, Present, Claimed, Entries;
    dir := Memory([0, 0, 0, 0, 8, 0, 0, 0, 0, 0, 0, 0, 0xF8, 0xFF, 0xFF, 0xFF], 16);
    assert LE32(dir.bytes, 4) == 8 && LE32(dir.bytes, 12) == 0xFFFF_FFF8;
    BlockThenRest(dir, 0);
    BlockThenRest(dir, 8);
  }

  // ---------------------------------------------------------------- the table as a linker writes it

  /** A block of the PE format's base relocation table: a page, and type and offset of each entry. */
  datatype Slot = Slot(type_: nat, offset: nat)
  datatype Block = Block(page: u32, slots: seq<Slot>)

  ghost predicate IsBlock(b: Block) {
    && BLOCK_HEADER_SIZE + 2 * |b.slots| < U32
    && (forall j {:trigger b.slots[j]} :: 0 <= j < |b.slots| ==> b.slots[j].type_ < 0x10 && b.slots[j].offset < 0x1000)
  }

  ghost predicate AreBlocks(bs: seq<Block>) {
    forall i {:trigger bs[i]} :: 0 <= i < |bs| ==> IsBlock(bs[i])
  }

  function SlotBytes(slots: seq<Slot>): bytes {
    if slots == [] then [] else ToLE(slots[0].type_ * 0x1000 + slots[0].offset, 2) + SlotBytes(slots[1..])
  }

  function BlockBytes(b: Block): bytes {
    ToLE(b.page, 4) + ToLE(BLOCK_HEADER_SIZE + 2 * |b.slots|, 4) + SlotBytes(b.slots)
  }

  function TableBytes(bs: seq<Block>): bytes {
    if bs == [] then [] else BlockBytes(bs[0]) + TableBytes(bs[1..])
  }

  function SlotEntries(b: Block): (es: seq<Entry>)
    ensures |es| == |b.slots|
    ensures forall j {:trigger es[j]} :: 0 <= j < |es| ==> es[j] == Entry(b.page, b.slots[j].type_ * 0x1000 + b.slots[j].offset)
  {
    seq(|b.slots|, j requires 0 <= j < |b.slots| => Entry(b.page, b.slots[j].type_ * 0x1000 + b.slots[j].offset))
  }

  function TableEntries(bs: seq<Block>): seq<Entry> {
    if bs == [] then [] else SlotEntries(bs[0]) + TableEntries(bs[1..])
  }

  /** An entry is of the type it was written with, at its offset in the page. */
  lemma EntryFields(page: u32, slot: Slot)
    requires slot.type_ < 0x10 && slot.offset < 0x1000
    ensures var e := Entry(page, slot.type_ * 0x1000 + slot.offset);
      e.Type() == slot.type_ && e.Offset() == (page + slot.offset) % U32
  {
  }

  lemma LE16Back(data: bytes, off: nat, v: nat)
    requires off + 2 <= |data| && v < 0x1_0000 && data[off..off + 2] == ToLE(v, 2)
    ensures LE16(data, off) == v
  {
    var w := data[off..off + 2];
    assert w[0] == v % 256 && w[1..] == ToLE(v / 256, 1) && w[1..][0] == v / 256 % 256;
    assert data[off] == w[0] && data[off + 1] == w[1..][0];
  }

  lemma {:induction false} SlotAt(slots: seq<Slot>, j: nat)
    requires j < |slots|
    ensures |SlotBytes(slots)| == 2 * |slots|
    ensures SlotBytes(slots)[2 * j..2 * j + 2] == ToLE(slots[j].type_ * 0x1000 + slots[j].offset, 2)
  {
    SlotLength(slots);
    if j > 0 {
      SlotAt(slots[1..], j - 1);
      SlotLength(slots[1..]);
      var rest := SlotBytes(slots[1..]);
      assert SlotBytes(slots)[2 * j..2 * j + 2] == rest[2 * (j - 1)..2 * (j - 1) + 2];
    }
  }

  lemma {:induction false} SlotLength(slots: seq<Slot>)
    ensures |SlotBytes(slots)| == 2 * |slots|
  {
    if slots != [] { SlotLength(slots[1..]); }
  }

  ghost predicate Stands(dir: Table, off: nat, b: Block) {
    IsBlock(b) && off + |BlockBytes(b)| <= dir.size && dir.bytes[off..off + |BlockBytes(b)|] == BlockBytes(b)
  }

  lemma BlockHeaderBack(dir: Table, off: nat, b: Block)
    requires Stands(dir, off, b)
    ensures |BlockBytes(b)| == BLOCK_HEADER_SIZE + 2 * |b.slots| && HeaderOk(dir, off)
    ensures BlockSize(dir, off) == |BlockBytes(b)| && LE32(dir.bytes, off) == b.page
  {
    hide LE32, ToLE, SlotBytes;
    SlotLength(b.slots);
    var bb := BlockBytes(b);
    assert bb[0..4] == ToLE(b.page, 4) && bb[4..8] == ToLE(BLOCK_HEADER_SIZE + 2 * |b.slots|, 4);
    FieldAt(dir.bytes, off, bb, 0, 4);
    FieldAt(dir.bytes, off, bb, 4, 4);
    LE32Back(dir.bytes, off, b.page);
    LE32Back(dir.bytes, off + 4, BLOCK_HEADER_SIZE + 2 * |b.slots|);
  }

  lemma SlotBack(dir: Table, off: nat, b: Block, j: nat)
    requires Stands(dir, off, b) && j < |b.slots|
    ensures off + BLOCK_HEADER_SIZE + 2 * j + 2 <= dir.size
    ensures LE16(dir.bytes, off + BLOCK_HEADER_SIZE + 2 * j) == b.slots[j].type_ * 0x1000 + b.slots[j].offset
  {
    SlotAt(b.slots, j);
    var bb := BlockBytes(b);
    assert bb[8..] == SlotBytes(b.slots);
    assert bb[8 + 2 * j..8 + 2 * j + 2] == SlotBytes(b.slots)[2 * j..2 * j + 2];
    FieldAt(dir.bytes, off, bb, 8 + 2 * j, 2);
    LE16Back(dir.bytes, off + BLOCK_HEADER_SIZE + 2 * j, b.slots[j].type_ * 0x1000 + b.slots[j].offset);
    hide LE16, SlotBytes, ToLE, BlockBytes;
  }

  /** A block is read where it stands. */
  lemma BlockBack(dir: Table, off: nat, b: Block)
    requires Stands(dir, off, b)
    ensures HeaderOk(dir, off) && BlockSize(dir, off) == |BlockBytes(b)| && BlockEntries(dir, off) == SlotEntries(b)
  {
    hide LE16, LE32, HeaderOk, BlockBytes, SlotBytes;
    BlockHeaderBack(dir, off, b);
    forall j | 0 <= j < |b.slots| ensures BlockEntries(dir, off)[j] == SlotEntries(b)[j] {
      SlotBack(dir, off, b, j);
    }
  }

  /** A written table is read back: all its headers pass and its entries are those of its blocks, in order. */
  lemma {:induction false} TableBack(dir: Table, off: nat, bs: seq<Block>)
    requires AreBlocks(bs) && off <= dir.size == |dir.bytes| && dir.bytes[off..] == TableBytes(bs)
    ensures NoOverrun(dir, off) && Present(dir, off) && Parses(dir, off) && Entries(dir, off) == TableEntries(bs)
    decreases |bs|
  {
    hide *;
    if bs == [] {
      NoBlocks(dir, off);
    } else {
      FirstBlock(dir, off, bs);
      BlockBack(dir, off, bs[0]);
      TableBack(dir, off + |BlockBytes(bs[0])|, bs[1..]);
      BlockInFront(dir, off, bs);
    }
  }

  lemma NoBlocks(dir: Table, off: nat)
    requires off <= dir.size == |dir.bytes| && dir.bytes[off..] == TableBytes([])
    ensures NoOverrun(dir, off) && Present(dir, off) && Parses(dir, off) && Entries(dir, off) == TableEntries([])
  {
    BehindTable(dir, off);
  }

  lemma BlockInFront(dir: Table, off: nat, bs: seq<Block>)
    requires bs != [] && off < dir.size && HeaderOk(dir, off) && off + BlockSize(dir, off) <= dir.size
    requires BlockEntries(dir, off) == SlotEntries(bs[0])
    requires var next := off + BlockSize(dir, off);
      NoOverrun(dir, next) && Present(dir, next) && Parses(dir, next) && Entries(dir, next) == TableEntries(bs[1..])
    ensures NoOverrun(dir, off) && Present(dir, off) && Parses(dir, off) && Entries(dir, off) == TableEntries(bs)
  {
    hide HeaderOk, BlockSize, BlockEntries, SlotEntries;
    BlockThenRest(dir, off);
  }

  lemma FirstBlock(dir: Table, off: nat, bs: seq<Block>)
    requires AreBlocks(bs) && bs != [] && off <= dir.size == |dir.bytes| && dir.bytes[off..] == TableBytes(bs)
    ensures Stands(dir, off, bs[0]) && off < dir.size && AreBlocks(bs[1..]) && off + |BlockBytes(bs[0])| <= dir.size
    ensures dir.bytes[off + |BlockBytes(bs[0])|..] == TableBytes(bs[1..])
  {
    hide ToLE, SlotBytes;
    var bb := BlockBytes(bs[0]);
    assert |TableBytes(bs)| == |dir.bytes| - off;
    assert dir.bytes[off..off + |bb|] == dir.bytes[off..][..|bb|] == bb;
    assert dir.bytes[off + |bb|..] == dir.bytes[off..][|bb|..] == TableBytes(bs[1..]);
    assert IsBlock(bs[0]);
  }

  // ---------------------------------------------------------------- what the table determines

  /** The same table, with anything behind it. */
  ghost predicate SameTable(a: Table, b: Table) {
    a.size == b.size && a.bytes[..a.size] == b.bytes[..b.size]
  }

  lemma SameHeader(a: Table, b: Table, off: nat)
    requires SameTable(a, b)
    ensures HeaderOk(a, off) <==> HeaderOk(b, off)
    ensures HeaderOk(a, off) ==> BlockSize(a, off) == BlockSize(b, off) && LE32(a.bytes, off) == LE32(b.bytes, off)
  {
    if off + BLOCK_HEADER_SIZE <= a.size {
      forall k | off <= k < off + 8 ensures a.bytes[k] == b.bytes[k] {
        assert a.bytes[..a.size][k] == b.bytes[..b.size][k];
      }
    }
  }

  lemma SameBlock(a: Table, b: Table, off: nat)
    requires SameTable(a, b) && HeaderOk(a, off) && off + BlockSize(a, off) <= a.size
    ensures HeaderOk(b, off) && BlockSize(b, off) == BlockSize(a, off) && BlockEntries(a, off) == BlockEntries(b, off)
  {
    SameHeader(a, b, off);
    forall j | 0 <= j < |BlockEntries(a, off)| ensures EntryAt(a, off, j) == EntryAt(b, off, j) {
      var at := off + BLOCK_HEADER_SIZE + 2 * j;
      assert a.bytes[..a.size][at] == b.bytes[..b.size][at] && a.bytes[..a.size][at + 1] == b.bytes[..b.size][at + 1];
    }
  }

  lemma {:induction false} SameParses(a: Table, b: Table, off: nat)
    requires SameTable(a, b) && Parses(a, off)
    ensures Parses(b, off)
    decreases a.size - off
  {
    SameHeader(a, b, off);
    if off < a.size { SameParses(a, b, off + BlockSize(a, off)); }
  }

  lemma {:induction false} SameEntries(a: Table, b: Table, off: nat)
    requires SameTable(a, b) && NoOverrun(a, off) && Parses(a, off) && Present(a, off) && Present(b, off) && Parses(b, off)
    ensures Entries(a, off) == Entries(b, off)
    decreases a.size - off
  {
    if off < a.size {
      SameBlock(a, b, off);
      SameEntries(a, b, off + BlockSize(a, off));
    }
  }

  /** A table with an overrun, and the same table with something else behind it. */
  lemma {:induction false} OtherBehind(dir: Table, off: nat) returns (b: Table)
    requires Parses(dir, off) && Present(dir, off) && !NoOverrun(dir, off)
    ensures SameTable(dir, b) && |b.bytes| == |dir.bytes| && Present(b, off) && Parses(b, off)
    ensures Entries(b, off) != Entries(dir, off)
    decreases dir.size - off
  {
    hide EndsFit, Parses, NoOverrun, Present, Claimed, Entries, HeaderOk, BlockSize;
    if off >= dir.size { BehindTable(dir, off); }
    HeaderTests(dir, off);
    BlockThenRest(dir, off);
    var next := off + BlockSize(dir, off);
    if next <= dir.size {
      b := OtherBehind(dir, next);
      SameBlock(dir, b, off);
      BlockThenRest(b, off);
      Unequal(BlockEntries(dir, off), Entries(dir, next), Entries(b, next));
    } else {
      b := ChangedBehind(dir, off);
      BlockThenRest(b, off);
      BehindTable(dir, next);
      BehindTable(b, next);
      assert Entries(dir, off) == BlockEntries(dir, off) && Entries(b, off) == BlockEntries(b, off);
    }
  }

  lemma Unequal(es: seq<Entry>, a: seq<Entry>, b: seq<Entry>)
    requires a != b
    ensures es + a != es + b
  {
    assert (es + a)[|es|..] == a && (es + b)[|es|..] == b;
  }

  /** The last byte an overrunning block claims, changed. */
  lemma ChangedBehind(dir: Table, off: nat) returns (b: Table)
    requires HeaderOk(dir, off) && dir.size < off + BlockSize(dir, off) <= |dir.bytes|
    ensures SameTable(dir, b) && |b.bytes| == |dir.bytes| && HeaderOk(b, off) && BlockSize(b, off) == BlockSize(dir, off)
    ensures BlockEntries(b, off) != BlockEntries(dir, off)
  {
    var end, last := off + BlockSize(dir, off) - 1, (BlockSize(dir, off) - BLOCK_HEADER_SIZE) / 2 - 1;
    var x: int := dir.bytes[end];
    b := Memory(dir.bytes[end := (x + 1) % 256], dir.size);
    SameHeader(dir, b, off);
    assert off + BLOCK_HEADER_SIZE + 2 * last + 1 == end;
    assert EntryAt(b, off, last).bits != EntryAt(dir, off, last).bits;
    assert BlockEntries(b, off)[last] != BlockEntries(dir, off)[last];
  }

  /** What lies behind the table does not matter. */
  ghost predicate Determined(dir: Table)
    requires Present(dir, 0) && Parses(dir, 0)
  {
    forall b: Table :: SameTable(dir, b) && Present(b, 0) && Parses(b, 0) ==> Entries(b, 0) == Entries(dir, 0)
  }

  /** The entries the second pass reads are those of the table exactly if no block claims more than is left. */
  lemma OwnEntriesIff(dir: Table)
    requires Present(dir, 0) && Parses(dir, 0)
    ensures Determined(dir) <==> NoOverrun(dir, 0)
  {
    if NoOverrun(dir, 0) {
      forall b: Table | SameTable(dir, b) && Present(b, 0) && Parses(b, 0) ensures Entries(b, 0) == Entries(dir, 0) {
        SameEntries(dir, b, 0);
      }
    } else {
      var b := OtherBehind(dir, 0);
    }
  }

  /** The first pass does not notice an overrun: here the only block claims one entry and the table ends. */
  lemma OverrunIsCounted() returns (dir: Table)
    ensures Parses(dir, 0) && Claimed(dir, 0) == 1 && dir.size == BLOCK_HEADER_SIZE && !NoOverrun(dir, 0)
  {
    hide EndsFit, Parses, NoOverrun, Present, Claimed, Entries;
    dir := Memory([0, 0, 0, 0, 10, 0, 0, 0], 8);
    assert LE32(dir.bytes, 4) == 10;
    BlockThenRest(dir, 0);
    BehindTable(dir, 10);
  }

  function PeekWord(pe: PeFile, off: u32, n: nat): u64
    requires n <= 8
  {
    var v := PeekLE(pe, off, n);
    assert Pow256(n) <= Pow256(8) == U64 by { Pow8(); PowGrows(n, 8); }
    v
  }

  lemma {:induction false} PowGrows(n: nat, m: nat)
    requires n <= m
    ensures Pow256(n) <= Pow256(m)
  {
    if n < m { PowGrows(n, m - 1); }
  }

  /** The relocation an entry asks for; its delta keeps what the image holds at the slot. */
  function RelocOf(pe: PeFile, e: Entry, desiredBase: u64): Reloc
  {
    var width := if e.Type() == PE_RELOC_HIGHLOW then 4 else 8;
    Reloc(64, e.Offset(), Sub64(PeekWord(pe, e.Offset(), width), desiredBase))
  }

  /** The relocations of the first `n` entries; NOP entries are padding. */
  function Relocs(pe: PeFile, es: seq<Entry>, n: nat, desiredBase: u64): (rs: seq<Reloc>)
    requires n <= |es|
    ensures |rs| <= n
  {
    if n == 0 then []
    else
      var rs := Relocs(pe, es, n - 1, desiredBase);
      if es[n - 1].Type() == PE_RELOC_NOP then rs else rs + [RelocOf(pe, es[n - 1], desiredBase)]
  }

  /** The array holds the relocations of the first `q` entries in its first `n` places. */
  ghost predicate Filled(relocations: array<Reloc>, n: nat, pe: PeFile, es: seq<Entry>, q: nat, desiredBase: u64)
    reads relocations
  {
    n <= q <= |es| == relocations.Length && relocations[..n] == Relocs(pe, es, q, desiredBase)
  }

  ghost predicate AllSupported(es: seq<Entry>, from: nat, to: nat) {
    forall i {:trigger es[i]} :: from <= i < to && i < |es| ==> es[i].Supported()
  }

  /** The second pass at one entry, the `q`-th of the table. */
  method ParseEntry(pe: PeFile, pageRva: u32, bits: nat, relocations: array<Reloc>, numRelocs: nat, desiredBase: u64,
                    ghost es: seq<Entry>, ghost q: nat) returns (ok: bool, n: nat)
    requires InFile(pe.sections, |pe.data|)
    requires q < |es| && es[q] == Entry(pageRva, bits) && Filled(relocations, numRelocs, pe, es, q, desiredBase)
    modifies relocations
    ensures ok <==> es[q].Supported()
    ensures ok ==> Filled(relocations, n, pe, es, q + 1, desiredBase)
  {
    n, ok := numRelocs, true;
    var off := (pageRva + bits % 0x1000) % U32;
    var type_ := bits / 0x1000 % 0x10;
    if type_ == PE_RELOC_NOP { return; }
    if type_ != PE_RELOC_HIGHLOW && type_ != PE_RELOC_DIR64 {
      ok := false;
      return;
    }
    var width := if type_ == PE_RELOC_HIGHLOW then 4 else 8;
    var v := PeekWide(pe, off, width);
    assert v == PeekWord(pe, off, width);
    relocations[n] := Reloc(64, off, Sub64(v, desiredBase));
    n := n + 1;
    assert relocations[..n] == old(relocations[..numRelocs]) + [RelocOf(pe, es[q], desiredBase)];
  }

  /** The second pass over the block at `blockOff`. `q` entries precede it. */
  method ParseBlock(pe: PeFile, dir: Table, blockOff: nat, relocations: array<Reloc>, numRelocs: nat, desiredBase: u64,
                    ghost es: seq<Entry>, ghost q: nat) returns (ok: bool, n: nat)
    requires InFile(pe.sections, |pe.data|)
    requires BlockAt(dir, blockOff, es, q) && Filled(relocations, numRelocs, pe, es, q, desiredBase)
    modifies relocations
    ensures ok <==> AllSupported(es, q, q + EntryCount(dir, blockOff))
    ensures ok ==> Filled(relocations, n, pe, es, q + EntryCount(dir, blockOff), desiredBase)
  {
    hide Filled;
    var blockSize, pageRva := LE32(dir.bytes, blockOff + 4), LE32(dir.bytes, blockOff);
    var numBlockRelocs := (blockSize - BLOCK_HEADER_SIZE) / 2;
    n, ok := numRelocs, true;
    for j := 0 to numBlockRelocs
      invariant ok && Filled(relocations, n, pe, es, q + j, desiredBase) && AllSupported(es, q, q + j)
    {
      var bits := LE16(dir.bytes, blockOff + BLOCK_HEADER_SIZE + 2 * j);
      assert es[q..q + |BlockEntries(dir, blockOff)|][j] == BlockEntries(dir, blockOff)[j];
      ok, n := ParseEntry(pe, pageRva, bits, relocations, n, desiredBase, es, q + j);
      if !ok { return; }
    }
  }

  /** `pe_parse_reloc_dir`. The second pass reads and stores as many relocations as the first one counted,
      at most, whatever lies behind the table. */
  method ParseRelocDir(pe: PeFile, dir: Table, desiredBase: u64) returns (r: Option<seq<Reloc>>)
    requires InFile(pe.sections, |pe.data|) && Present(dir, 0) && EndsFit(dir, 0) && dir.size < U32
    ensures r.Some? <==> Parses(dir, 0) && AllSupported(Entries(dir, 0), 0, |Entries(dir, 0)|)
    ensures r.Some? ==> r.value == Relocs(pe, Entries(dir, 0), |Entries(dir, 0)|, desiredBase)
  {
    if dir.size == 0 { return Some([]); }
    var count := CountRelocs(dir);
    if count.None? { return None; }
    ClaimedAreRead(dir, 0);
    var relocations := new Reloc[count.value];
    var ok, numRelocs := SecondPass(pe, dir, relocations, desiredBase, Entries(dir, 0));
    if !ok { return None; }
    FilledIs(relocations, numRelocs, pe, Entries(dir, 0), desiredBase);
    return Some(relocations[..numRelocs]);
  }

  method SecondPass(pe: PeFile, dir: Table, relocations: array<Reloc>, desiredBase: u64, ghost es: seq<Entry>) returns (ok: bool, numRelocs: nat)
    requires InFile(pe.sections, |pe.data|) && Reached(dir, 0, es, 0)
    requires |es| == relocations.Length
    modifies relocations
    ensures ok <==> AllSupported(es, 0, |es|)
    ensures ok ==> Filled(relocations, numRelocs, pe, es, |es|, desiredBase)
  {
    hide *;
    ok, numRelocs := true, 0;
    var blockOff: nat := 0;
    ghost var q: nat := 0;
    NothingFilled(relocations, pe, es, desiredBase);
    while blockOff < dir.size
      invariant ok && Reached(dir, blockOff, es, q) && AllSupported(es, 0, q)
      invariant Filled(relocations, numRelocs, pe, es, q, desiredBase)
      decreases dir.size - blockOff
    {
      NextBlock(es, q, dir, blockOff);
      ghost var n := EntryCount(dir, blockOff);
      SupportedTogether(es, q, q + n);
      ok, numRelocs := ParseBlock(pe, dir, blockOff, relocations, numRelocs, desiredBase, es, q);
      if !ok { return; }
      q := q + n;
      blockOff := blockOff + LE32(dir.bytes, blockOff + 4);
    }
    AllReached(es, q, dir, blockOff);
  }

  lemma NothingFilled(relocations: array<Reloc>, pe: PeFile, es: seq<Entry>, desiredBase: u64)
    requires |es| == relocations.Length
    ensures Filled(relocations, 0, pe, es, 0, desiredBase) && AllSupported(es, 0, 0)
  {
  }

  lemma FilledIs(relocations: array<Reloc>, n: nat, pe: PeFile, es: seq<Entry>, desiredBase: u64)
    requires Filled(relocations, n, pe, es, |es|, desiredBase)
    ensures n <= relocations.Length && relocations[..n] == Relocs(pe, es, |es|, desiredBase)
  {
  }

  lemma SupportedTogether(es: seq<Entry>, q: nat, r: nat)
    requires q <= r <= |es| && AllSupported(es, 0, q)
    ensures AllSupported(es, 0, r) <==> AllSupported(es, q, r)
    ensures AllSupported(es, 0, |es|) ==> AllSupported(es, q, r)
  {
  }

  /** The block at `off` is the next one, after `q` entries. */
  ghost predicate Reached(dir: Table, off: nat, es: seq<Entry>, q: nat) {
    Present(dir, off) && Parses(dir, off) && q <= |es| && es[q..] == Entries(dir, off)
  }

  lemma NextBlock(es: seq<Entry>, q: nat, dir: Table, off: nat)
    requires off < dir.size && Reached(dir, off, es, q)
    ensures BlockAt(dir, off, es, q) && off + 8 <= dir.size && LE32(dir.bytes, off + 4) > 0
    ensures q + EntryCount(dir, off) <= |es| && Reached(dir, off + LE32(dir.bytes, off + 4), es, q + EntryCount(dir, off))
  {
    var b, rest := BlockEntries(dir, off), Entries(dir, off + BlockSize(dir, off));
    assert es[q..] == b + rest;
    assert es[q..q + |b|] == es[q..][..|b|] == b;
    assert es[q + |b|..] == es[q..][|b|..] == rest;
  }

  lemma AllReached(es: seq<Entry>, q: nat, dir: Table, off: nat)
    requires off >= dir.size && Reached(dir, off, es, q)
    ensures q == |es|
  {
    assert es[q..] == [];
  }

  // ---------------------------------------------------------------- applying them

  /** `img` with `bs` stored at `off`. */
  function Stored(img: bytes, off: nat, bs: bytes): (t: bytes)
    requires off + |bs| <= |img|
    ensures |t| == |img|
    ensures forall k {:trigger t[k]} :: 0 <= k < |t| ==> t[k] == if off <= k < off + |bs| then bs[k - off] else img[k]
  {
    img[..off] + bs + img[off + |bs|..]
  }

  predicate InImage(r: Reloc, size: nat) {
    r.offset + (if r.addrBits == 32 then 4 else 8) <= size
  }

  /** Unsigned 64-bit sums and differences wrap around. */
  function Add64(a: u64, b: u64): u64 {
    (a + b) % U64
  }

  function Sub64(a: u64, b: u64): u64 {
    (a - b) % U64
  }

  lemma AddSub(base: u64, value: u64, desiredBase: u64)
    ensures Add64(base, Sub64(value, desiredBase)) == Add64(value, Sub64(base, desiredBase))
  {
  }

  /** One relocation; the sum is taken modulo 2^64, or 2^32 for a 32-bit slot. */
  function Patched(img: bytes, base: u64, r: Reloc): (t: bytes)
    requires InImage(r, |img|)
    ensures |t| == |img|
  {
    Stored(img, r.offset, if r.addrBits == 32 then ToLE((base + r.delta) % U32, 4) else ToLE(Add64(base, r.delta), 8))
  }

  /** The image after the first `n` relocations. */
  function Rebased(img: bytes, base: u64, rs: seq<Reloc>, n: nat): (t: bytes)
    requires n <= |rs| && forall i :: 0 <= i < |rs| ==> InImage(rs[i], |img|)
    ensures |t| == |img|
  {
    if n == 0 then img else Patched(Rebased(img, base, rs, n - 1), base, rs[n - 1])
  }

  /** A store of a little-endian number into the mapped image. */
  method Store(image: array<byte>, off: nat, v: nat, n: nat)
    requires off + n <= image.Length
    modifies image
    ensures image[..] == Stored(old(image[..]), off, ToLE(v, n))
  {
    var bs := ToLE(v, n);
    forall k | 0 <= k < n {
      image[off + k] := bs[k];
    }
    assert forall k :: 0 <= k < image.Length ==> image[..][k] == Stored(old(image[..]), off, ToLE(v, n))[k];
  }

  method ApplyReloc(image: array<byte>, base: u64, reloc: Reloc) returns (ok: bool)
    requires InImage(reloc, image.Length)
    modifies image
    ensures ok <==> reloc.addrBits == 32 || reloc.addrBits == 64
    ensures ok ==> image[..] == Patched(old(image[..]), base, reloc)
  {
    ok := true;
    if reloc.addrBits == 32 {
      Store(image, reloc.offset, (base + reloc.delta) % U32, 4);
    } else if reloc.addrBits == 64 {
      Store(image, reloc.offset, Add64(base, reloc.delta), 8);
    } else {
      ok := false;
    }
  }

  /** The relocation loop of `load_dll`; an entry of another width stops it. */
  method ApplyRelocs(image: array<byte>, base: u64, relocs: seq<Reloc>) returns (ok: bool)
    requires forall i :: 0 <= i < |relocs| ==> InImage(relocs[i], image.Length)
    modifies image
    ensures ok <==> forall i :: 0 <= i < |relocs| ==> relocs[i].addrBits == 32 || relocs[i].addrBits == 64
    ensures ok ==> image[..] == Rebased(old(image[..]), base, relocs, |relocs|)
  {
    hide Patched, InImage;
    ghost var img := image[..];
    for i := 0 to |relocs|
      invariant image[..] == Rebased(img, base, relocs, i)
      invariant forall j :: 0 <= j < i ==> relocs[j].addrBits == 32 || relocs[j].addrBits == 64
    {
      ok := ApplyReloc(image, base, relocs[i]);
      if !ok { return; }
    }
    return true;
  }

  // ---------------------------------------------------------------- what rebasing means

  function SlotValue(img: bytes, off: nat): (v: nat)
    requires off + 8 <= |img|
    ensures v < U64
  {
    FromLEBound(img[off..off + 8]);
    Pow8();
    FromLE(img[off..off + 8])
  }

  lemma Pow8()
    ensures Pow256(8) == U64 && Pow256(4) == U32
  {
    assert Pow256(4) == 256 * (256 * (256 * (256 * Pow256(0))));
    assert Pow256(8) == 256 * (256 * (256 * (256 * Pow256(4))));
  }

  predicate InSlot(k: int, r: Reloc) {
    r.offset <= k < r.offset + 8
  }

  /** 64-bit relocations whose slots lie in the image and are equal or disjoint. */
  ghost predicate Tidy(rs: seq<Reloc>, size: nat) {
    && (forall i :: 0 <= i < |rs| ==> rs[i].addrBits == 64 && rs[i].offset + 8 <= size)
    && (forall i, j :: 0 <= i < |rs| && 0 <= j < |rs| ==>
          rs[i].offset == rs[j].offset || rs[i].offset + 8 <= rs[j].offset || rs[j].offset + 8 <= rs[i].offset)
  }

  /** Each delta was taken from `orig`, relative to the base address the image was linked for. */
  ghost predicate DeltasFrom(rs: seq<Reloc>, orig: bytes, desiredBase: u64) {
    forall i :: 0 <= i < |rs| ==>
      rs[i].offset + 8 <= |orig| && rs[i].delta == Sub64(SlotValue(orig, rs[i].offset), desiredBase)
  }

  lemma StoredSlot(img: bytes, off: nat, v: nat, at: nat)
    requires off + 8 <= |img| && at + 8 <= |img| && v < U64
    ensures at == off ==> SlotValue(Stored(img, off, ToLE(v, 8)), at) == v
    ensures at + 8 <= off || off + 8 <= at ==> SlotValue(Stored(img, off, ToLE(v, 8)), at) == SlotValue(img, at)
  {
    var t := Stored(img, off, ToLE(v, 8));
    if at == off {
      assert t[at..at + 8] == ToLE(v, 8);
      Pow8();
      FromToLE(v, 8);
    } else if at + 8 <= off || off + 8 <= at {
      assert t[at..at + 8] == img[at..at + 8];
    }
  }

  /** A 32-bit relocation stores the sum modulo 2^32 and touches four bytes. */
  lemma PatchedNarrow(img: bytes, base: u64, r: Reloc, k: nat)
    requires r.addrBits == 32 && r.offset + 4 <= |img| && k < |img|
    ensures var t := Patched(img, base, r);
      FromLE(t[r.offset..r.offset + 4]) == (base + r.delta) % U32 && (k < r.offset || r.offset + 4 <= k ==> t[k] == img[k])
  {
    var v := (base + r.delta) % U32;
    assert Patched(img, base, r)[r.offset..r.offset + 4] == ToLE(v, 4);
    Pow8();
    FromToLE(v, 4);
  }

  /** One relocation moves its slot, keeps the disjoint ones, and touches no other byte. */
  lemma PatchedSlots(img: bytes, base: u64, r: Reloc, at: nat)
    requires r.addrBits == 64 && r.offset + 8 <= |img| && at + 8 <= |img|
    ensures at == r.offset ==> SlotValue(Patched(img, base, r), at) == Add64(base, r.delta)
    ensures at + 8 <= r.offset || r.offset + 8 <= at ==> SlotValue(Patched(img, base, r), at) == SlotValue(img, at)
  {
    StoredSlot(img, r.offset, Add64(base, r.delta), at);
  }

  lemma PatchedByte(img: bytes, base: u64, r: Reloc, k: nat)
    requires r.addrBits == 64 && r.offset + 8 <= |img| && k < |img| && !InSlot(k, r)
    ensures Patched(img, base, r)[k] == img[k]
  {
  }

  /** What `Tidy` and `DeltasFrom` say of one relocation, and of two. */
  lemma TidyPair(rs: seq<Reloc>, size: nat, orig: bytes, desiredBase: u64, i: nat, j: nat)
    requires Tidy(rs, size) && DeltasFrom(rs, orig, desiredBase) && |orig| == size && i < |rs| && j < |rs|
    ensures rs[i].addrBits == 64 && rs[i].offset + 8 <= size && rs[i].delta == Sub64(SlotValue(orig, rs[i].offset), desiredBase)
    ensures rs[i].offset == rs[j].offset || rs[i].offset + 8 <= rs[j].offset || rs[j].offset + 8 <= rs[i].offset
  {
  }

  /** Relocations of one slot have one delta. */
  ghost predicate Consistent(rs: seq<Reloc>) {
    forall i, j :: 0 <= i < |rs| && 0 <= j < |rs| && rs[i].offset == rs[j].offset ==> rs[i].delta == rs[j].delta
  }

  lemma TidySlots(rs: seq<Reloc>, size: nat, i: nat, j: nat)
    requires Tidy(rs, size) && Consistent(rs) && i < |rs| && j < |rs|
    ensures rs[i].addrBits == 64 && rs[i].offset + 8 <= size
    ensures rs[i].offset == rs[j].offset || rs[i].offset + 8 <= rs[j].offset || rs[j].offset + 8 <= rs[i].offset
    ensures rs[i].offset == rs[j].offset ==> rs[i].delta == rs[j].delta
  {
  }

  lemma {:induction false} RebasedDelta(img: bytes, base: u64, rs: seq<Reloc>, n: nat, i: nat)
    requires Tidy(rs, |img|) && Consistent(rs) && i < n <= |rs|
    ensures rs[i].offset + 8 <= |img|
    ensures SlotValue(Rebased(img, base, rs, n), rs[i].offset) == Add64(base, rs[i].delta)
  {
    var r, t0 := rs[n - 1], Rebased(img, base, rs, n - 1);
    TidySlots(rs, |img|, n - 1, i);
    TidySlots(rs, |img|, i, i);
    if r.offset != rs[i].offset { RebasedDelta(img, base, rs, n - 1, i); }
    hide Patched, SlotValue, Add64, Consistent, Tidy;
    PatchedSlots(t0, base, r, rs[i].offset);
  }

  lemma RebasedValue(img: bytes, base: u64, rs: seq<Reloc>, n: nat, orig: bytes, desiredBase: u64, i: nat)
    requires Tidy(rs, |img|) && |orig| == |img| && DeltasFrom(rs, orig, desiredBase) && i < n <= |rs|
    ensures rs[i].offset + 8 <= |img|
    ensures SlotValue(Rebased(img, base, rs, n), rs[i].offset) == Moved(SlotValue(orig, rs[i].offset), base, desiredBase)
  {
    TidyPair(rs, |img|, orig, desiredBase, i, i);
    RebasedDelta(img, base, rs, n, i);
    AddSub(base, SlotValue(orig, rs[i].offset), desiredBase);
    hide Rebased, SlotValue, Add64, Sub64, DeltasFrom, Tidy;
  }

  lemma {:induction false} RebasedOthers(img: bytes, base: u64, rs: seq<Reloc>, n: nat, k: nat)
    requires Tidy(rs, |img|) && n <= |rs| && k < |img| && !InSlots(k, rs, n)
    ensures Rebased(img, base, rs, n)[k] == img[k]
  {
    if n > 0 {
      assert !InSlots(k, rs, n - 1) && !InSlot(k, rs[n - 1]);
      RebasedOthers(img, base, rs, n - 1, k);
      PatchedByte(Rebased(img, base, rs, n - 1), base, rs[n - 1], k);
    }
  }

  /** The loop in any order and with duplicates: every slot holds the original value moved by the
      distance between the two base addresses, and every other byte is unchanged. */
  lemma RebasedSlots(img: bytes, base: u64, rs: seq<Reloc>, orig: bytes, desiredBase: u64)
    requires Tidy(rs, |img|) && |orig| == |img| && DeltasFrom(rs, orig, desiredBase)
    ensures Moves(img, Rebased(img, base, rs, |rs|), rs, orig, base, desiredBase)
  {
    forall i {:trigger rs[i]} | 0 <= i < |rs|
      ensures rs[i].offset + 8 <= |img|
      ensures SlotValue(Rebased(img, base, rs, |rs|), rs[i].offset) == Moved(SlotValue(orig, rs[i].offset), base, desiredBase)
    {
      RebasedValue(img, base, rs, |rs|, orig, desiredBase, i);
    }
    forall k {:trigger InSlots(k, rs, |rs|)} | 0 <= k < |img| && !InSlots(k, rs, |rs|)
      ensures Rebased(img, base, rs, |rs|)[k] == img[k]
    {
      RebasedOthers(img, base, rs, |rs|, k);
    }
  }

  ghost predicate Moves(img: bytes, t: bytes, rs: seq<Reloc>, orig: bytes, base: u64, desiredBase: u64) {
    && |t| == |img| == |orig|
    && (forall i {:trigger rs[i]} :: 0 <= i < |rs| ==>
          rs[i].offset + 8 <= |img| && SlotValue(t, rs[i].offset) == Moved(SlotValue(orig, rs[i].offset), base, desiredBase))
    && (forall k {:trigger InSlots(k, rs, |rs|)} {:trigger t[k]} :: 0 <= k < |img| && !InSlots(k, rs, |rs|) ==> t[k] == img[k])
  }

  ghost predicate InSlots(k: int, rs: seq<Reloc>, n: nat)
    requires n <= |rs|
  {
    exists i :: 0 <= i < n && InSlot(k, rs[i])
  }

  /** An address of the image after the move from `desiredBase` to `base`. */
  function Moved(value: u64, base: u64, desiredBase: u64): u64 {
    Add64(value, Sub64(base, desiredBase))
  }

  ghost predicate SameSlots(rs: seq<Reloc>, rs': seq<Reloc>) {
    forall i :: 0 <= i < |rs| ==> HasSlot(rs', rs[i].offset)
  }

  ghost predicate HasSlot(rs: seq<Reloc>, off: u32) {
    exists i :: 0 <= i < |rs| && rs[i].offset == off
  }

  lemma Twin(rs: seq<Reloc>, rs': seq<Reloc>, i: nat) returns (j: nat)
    requires SameSlots(rs, rs') && i < |rs|
    ensures j < |rs'| && rs'[j].offset == rs[i].offset
  {
    assert HasSlot(rs', rs[i].offset);
    j :| 0 <= j < |rs'| && rs'[j].offset == rs[i].offset;
  }

  /** The order of the entries and repeated entries do not matter: tables with the same slots give
      the same image. */
  lemma OrderDoesNotMatter(img: bytes, base: u64, rs: seq<Reloc>, rs': seq<Reloc>, orig: bytes, desiredBase: u64)
    requires Tidy(rs, |img|) && Tidy(rs', |img|) && |orig| == |img|
    requires DeltasFrom(rs, orig, desiredBase) && DeltasFrom(rs', orig, desiredBase)
    requires SameSlots(rs, rs') && SameSlots(rs', rs)
    ensures Rebased(img, base, rs, |rs|) == Rebased(img, base, rs', |rs'|)
  {
    var t, t' := Rebased(img, base, rs, |rs|), Rebased(img, base, rs', |rs'|);
    hide *;
    forall k | 0 <= k < |img| ensures t[k] == t'[k] {
      SameByte(img, base, rs, rs', orig, desiredBase, k);
    }
  }

  lemma SameByte(img: bytes, base: u64, rs: seq<Reloc>, rs': seq<Reloc>, orig: bytes, desiredBase: u64, k: nat)
    requires Tidy(rs, |img|) && Tidy(rs', |img|) && |orig| == |img|
    requires DeltasFrom(rs, orig, desiredBase) && DeltasFrom(rs', orig, desiredBase)
    requires SameSlots(rs, rs') && SameSlots(rs', rs) && k < |img|
    ensures Rebased(img, base, rs, |rs|)[k] == Rebased(img, base, rs', |rs'|)[k]
  {
    var t, t' := Rebased(img, base, rs, |rs|), Rebased(img, base, rs', |rs'|);
    if InSlots(k, rs, |rs|) {
      var i :| 0 <= i < |rs| && InSlot(k, rs[i]);
      var j := Twin(rs, rs', i);
      hide SlotValue, Moved, SameSlots;
      RebasedValue(img, base, rs, |rs|, orig, desiredBase, i);
      RebasedValue(img, base, rs', |rs'|, orig, desiredBase, j);
      SameSlot(t, t', rs[i].offset, k);
    } else {
      SlotsAgree(rs, rs', k);
      RebasedOthers(img, base, rs, |rs|, k);
      RebasedOthers(img, base, rs', |rs'|, k);
    }
  }

  lemma SlotsAgree(rs: seq<Reloc>, rs': seq<Reloc>, k: int)
    requires SameSlots(rs', rs) && !InSlots(k, rs, |rs|)
    ensures !InSlots(k, rs', |rs'|)
  {
    forall j | 0 <= j < |rs'| ensures !InSlot(k, rs'[j]) {
      var i := Twin(rs', rs, j);
      assert !InSlot(k, rs[i]);
    }
  }

  lemma SameSlot(t: bytes, t': bytes, off: nat, k: nat)
    requires |t| == |t'| && off + 8 <= |t| && SlotValue(t, off) == SlotValue(t', off) && off <= k < off + 8
    ensures t[k] == t'[k]
  {
    ToFromLE(t[off..off + 8]);
    ToFromLE(t'[off..off + 8]);
    assert t[off..off + 8][k - off] == t'[off..off + 8][k - off];
  }

  // ---------------------------------------------------------------- the whole way

  /** The slots of all entries but padding lie in the image. */
  ghost predicate SlotsInImage(es: seq<Entry>, imageSize: nat) {
    forall i {:trigger es[i]} :: 0 <= i < |es| && es[i].Type() != PE_RELOC_NOP ==> es[i].Offset() + 8 <= imageSize
  }

  /** A table that parses, with a slot that lies in no image. */
  lemma SlotOutside() returns (dir: Table)
    ensures Present(dir, 0) && Parses(dir, 0) && EndsFit(dir, 0) && NoOverrun(dir, 0)
    ensures var es := Entries(dir, 0);
      AllSupported(es, 0, |es|) && forall imageSize: u32 :: !SlotsInImage(es, imageSize)
  {
    hide EndsFit, Parses, NoOverrun, Present, Claimed, Entries;
    dir := Memory([0, 0xF0, 0xFF, 0xFF, 10, 0, 0, 0, 0xFF, 0xAF], 10);
    assert LE32(dir.bytes, 0) == 0xFFFF_F000 && LE32(dir.bytes, 4) == 10 && LE16(dir.bytes, 8) == 0xAFFF;
    BlockThenRest(dir, 0);
    BehindTable(dir, 10);
    var es := Entries(dir, 0);
    assert BlockEntries(dir, 0) == [Entry(0xFFFF_F000, 0xAFFF)] == es;
    assert es[0].Type() == PE_RELOC_DIR64 && es[0].Offset() == 0xFFFF_FFFF;
  }

  // ---------------------------------------------------------------- what becomes of the table's entries

  /** What the image holds for an entry: 32 bits for a HIGHLOW entry, else 64. */
  function Original(img: bytes, e: Entry): (v: u64)
    requires e.Offset() + 8 <= |img|
  {
    var width := if e.Type() == PE_RELOC_HIGHLOW then 4 else 8;
    FromLEBound(img[e.Offset()..e.Offset() + width]);
    Pow8();
    FromLE(img[e.Offset()..e.Offset() + width])
  }

  /** All slots but those of padding lie in the image, and are disjoint or of the same type. */
  ghost predicate TidyEntries(es: seq<Entry>, size: nat) {
    && SlotsInImage(es, size)
    && (forall i, j :: 0 <= i < |es| && 0 <= j < |es| && es[i].Type() != PE_RELOC_NOP && es[j].Type() != PE_RELOC_NOP ==>
          || (es[i].Offset() == es[j].Offset() && es[i].Type() == es[j].Type())
          || es[i].Offset() + 8 <= es[j].Offset() || es[j].Offset() + 8 <= es[i].Offset())
  }

  /** The byte at `k` belongs to the slot of an entry that is not padding. */
  ghost predicate InEntry(k: int, es: seq<Entry>) {
    exists i {:trigger es[i]} :: 0 <= i < |es| && es[i].Type() != PE_RELOC_NOP && es[i].Offset() <= k < es[i].Offset() + 8
  }

  /** Every entry but padding moved its address by the distance of the bases, and stored it as 64 bits; every
      other byte is as it was. */
  ghost predicate EntriesMoved(img: bytes, t: bytes, es: seq<Entry>, base: u64, desiredBase: u64) {
    && |t| == |img|
    && (forall i {:trigger es[i]} :: 0 <= i < |es| && es[i].Type() != PE_RELOC_NOP ==>
          && es[i].Offset() + 8 <= |img|
          && SlotValue(t, es[i].Offset()) == Moved(Original(img, es[i]), base, desiredBase))
    && (forall k {:trigger t[k]} :: 0 <= k < |img| && !InEntry(k, es) ==> t[k] == img[k])
  }

  /** Every relocation is that of an entry, and every entry but padding has its relocation. */
  lemma {:induction false} EntryOfReloc(pe: PeFile, es: seq<Entry>, n: nat, desiredBase: u64, j: nat) returns (i: nat)
    requires n <= |es| && j < |Relocs(pe, es, n, desiredBase)|
    ensures i < n && es[i].Type() != PE_RELOC_NOP && Relocs(pe, es, n, desiredBase)[j] == RelocOf(pe, es[i], desiredBase)
  {
    hide RelocOf;
    if j < |Relocs(pe, es, n - 1, desiredBase)| {
      i := EntryOfReloc(pe, es, n - 1, desiredBase, j);
    } else {
      i := n - 1;
    }
  }

  lemma {:induction false} RelocOfEntry(pe: PeFile, es: seq<Entry>, n: nat, desiredBase: u64, i: nat) returns (j: nat)
    requires i < n <= |es| && es[i].Type() != PE_RELOC_NOP
    ensures j < |Relocs(pe, es, n, desiredBase)| && Relocs(pe, es, n, desiredBase)[j] == RelocOf(pe, es[i], desiredBase)
  {
    hide RelocOf;
    if i == n - 1 {
      j := |Relocs(pe, es, n - 1, desiredBase)|;
    } else {
      j := RelocOfEntry(pe, es, n - 1, desiredBase, i);
    }
  }

  /** The slots of the relocations are those of the entries that are not padding. */
  lemma RelocsHaveSlots(pe: PeFile, es: seq<Entry>, desiredBase: u64, off: u32)
    ensures HasSlot(Relocs(pe, es, |es|, desiredBase), off)
       <==> exists i {:trigger es[i]} :: 0 <= i < |es| && es[i].Type() != PE_RELOC_NOP && es[i].Offset() == off
  {
    var rs := Relocs(pe, es, |es|, desiredBase);
    if HasSlot(rs, off) {
      var j :| 0 <= j < |rs| && rs[j].offset == off;
      var i := EntryOfReloc(pe, es, |es|, desiredBase, j);
    }
    if i :| 0 <= i < |es| && es[i].Type() != PE_RELOC_NOP && es[i].Offset() == off {
      var j := RelocOfEntry(pe, es, |es|, desiredBase, i);
      assert rs[j].offset == off;
    }
  }

  /** The delta of an entry in the image is what the image holds for it, less the desired base. */
  lemma DeltaOfEntry(pe: PeFile, e: Entry, desiredBase: u64, imageSize: u32, behind: bytes)
    requires e.Offset() + 8 <= imageSize
    ensures var mapped := CopiedBytes(pe, 0, imageSize) + behind;
      RelocOf(pe, e, desiredBase) == Reloc(64, e.Offset(), Sub64(Original(mapped, e), desiredBase))
  {
    var off, orig := e.Offset(), CopiedBytes(pe, 0, imageSize);
    var width := if e.Type() == PE_RELOC_HIGHLOW then 4 else 8;
    assert forall k {:trigger CopiedBytes(pe, off, width)[k]} :: 0 <= k < width ==> CopiedBytes(pe, off, width)[k] == orig[off + k];
    assert CopiedBytes(pe, off, width) == orig[off..off + width] == (orig + behind)[off..off + width];
  }

  lemma TidyRelocs(pe: PeFile, es: seq<Entry>, desiredBase: u64, imageSize: u32, size: nat)
    requires TidyEntries(es, imageSize) && imageSize <= size
    ensures Tidy(Relocs(pe, es, |es|, desiredBase), size) && Consistent(Relocs(pe, es, |es|, desiredBase))
  {
    var rs := Relocs(pe, es, |es|, desiredBase);
    forall i, j | 0 <= i < |rs| && 0 <= j < |rs|
      ensures rs[i].addrBits == 64 && rs[i].offset + 8 <= size
      ensures rs[i].offset == rs[j].offset || rs[i].offset + 8 <= rs[j].offset || rs[j].offset + 8 <= rs[i].offset
      ensures rs[i].offset == rs[j].offset ==> rs[i].delta == rs[j].delta
    {
      TwoRelocs(pe, es, desiredBase, imageSize, i, j);
    }
  }

  lemma TwoRelocs(pe: PeFile, es: seq<Entry>, desiredBase: u64, imageSize: u32, i: nat, j: nat)
    requires TidyEntries(es, imageSize)
    requires i < |Relocs(pe, es, |es|, desiredBase)| && j < |Relocs(pe, es, |es|, desiredBase)|
    ensures var r, q := Relocs(pe, es, |es|, desiredBase)[i], Relocs(pe, es, |es|, desiredBase)[j];
      && r.addrBits == 64 && r.offset + 8 <= imageSize
      && ((r.offset == q.offset && r.delta == q.delta) || r.offset + 8 <= q.offset || q.offset + 8 <= r.offset)
  {
    var a := EntryOfReloc(pe, es, |es|, desiredBase, i);
    var b := EntryOfReloc(pe, es, |es|, desiredBase, j);
    assert es[a].Offset() + 8 <= imageSize && es[b].Offset() + 8 <= imageSize;
    hide Relocs;
  }

  /** The relocation loop over the relocations of a tidy table. */
  lemma RebasedEntries(pe: PeFile, es: seq<Entry>, base: u64, desiredBase: u64, imageSize: u32, behind: bytes)
    requires TidyEntries(es, imageSize)
    ensures var mapped, rs := CopiedBytes(pe, 0, imageSize) + behind, Relocs(pe, es, |es|, desiredBase);
      && AllInImage(rs, |mapped|) && EntriesMoved(mapped, Rebased(mapped, base, rs, |rs|), es, base, desiredBase)
  {
    var mapped, rs := CopiedBytes(pe, 0, imageSize) + behind, Relocs(pe, es, |es|, desiredBase);
    TidyRelocs(pe, es, desiredBase, imageSize, |mapped|);
    RelocsInImage(pe, es, |es|, desiredBase, |mapped|);
    var t := Rebased(mapped, base, rs, |rs|);
    forall i {:trigger es[i]} | 0 <= i < |es| && es[i].Type() != PE_RELOC_NOP
      ensures es[i].Offset() + 8 <= |mapped| && SlotValue(t, es[i].Offset()) == Moved(Original(mapped, es[i]), base, desiredBase)
    {
      RebasedEntry(pe, es, base, desiredBase, imageSize, behind, i);
    }
    forall k {:trigger t[k]} | 0 <= k < |mapped| && !InEntry(k, es) ensures t[k] == mapped[k] {
      NotInSlots(pe, es, desiredBase, k);
      RebasedOthers(mapped, base, rs, |rs|, k);
    }
    hide Relocs, Rebased, Tidy, Original, SlotValue;
  }

  lemma RebasedEntry(pe: PeFile, es: seq<Entry>, base: u64, desiredBase: u64, imageSize: u32, behind: bytes, i: nat)
    requires TidyEntries(es, imageSize) && i < |es| && es[i].Type() != PE_RELOC_NOP
    ensures var mapped, rs := CopiedBytes(pe, 0, imageSize) + behind, Relocs(pe, es, |es|, desiredBase);
      && AllInImage(rs, |mapped|) && es[i].Offset() + 8 <= imageSize
      && SlotValue(Rebased(mapped, base, rs, |rs|), es[i].Offset()) == Moved(Original(mapped, es[i]), base, desiredBase)
  {
    var mapped, rs := CopiedBytes(pe, 0, imageSize) + behind, Relocs(pe, es, |es|, desiredBase);
    var off := es[i].Offset();
    assert off + 8 <= imageSize;
    TidyRelocs(pe, es, desiredBase, imageSize, |mapped|);
    RelocsInImage(pe, es, |es|, desiredBase, |mapped|);
    var j := RelocOfEntry(pe, es, |es|, desiredBase, i);
    DeltaOfEntry(pe, es[i], desiredBase, imageSize, behind);
    hide Relocs, Rebased, Tidy, Original, SlotValue, Add64, Sub64, RelocOf, TidyEntries, Consistent;
    RebasedDelta(mapped, base, rs, |rs|, j);
    AddSub(base, Original(mapped, es[i]), desiredBase);
  }

  lemma NotInSlots(pe: PeFile, es: seq<Entry>, desiredBase: u64, k: int)
    requires !InEntry(k, es)
    ensures !InSlots(k, Relocs(pe, es, |es|, desiredBase), |Relocs(pe, es, |es|, desiredBase)|)
  {
    var rs := Relocs(pe, es, |es|, desiredBase);
    forall j | 0 <= j < |rs| ensures !InSlot(k, rs[j]) {
      var i := EntryOfReloc(pe, es, |es|, desiredBase, j);
      assert rs[j].offset == es[i].Offset();
    }
  }

  /** The file mapped at `base` and relocated, as `load_dll` does it (without imports). `space` is the memory
      from `base` on: the mapping and what lies behind it. With all slots in the image, disjoint or the same,
      every entry of the table moves its address by the distance between the base addresses and nothing else
      changes, in the image or behind it. */
  method MapImage(pe: PeFile, imageSize: u32, dir: Table, desiredBase: u64, base: u64, space: array<byte>) returns (ok: bool)
    requires InFile(pe.sections, |pe.data|) && Present(dir, 0) && EndsFit(dir, 0) && dir.size < U32
    requires imageSize <= space.Length && (Parses(dir, 0) ==> SlotsInImage(Entries(dir, 0), space.Length))
    modifies space
    ensures ok <==> Parses(dir, 0) && AllSupported(Entries(dir, 0), 0, |Entries(dir, 0)|)
    ensures var mapped := CopiedBytes(pe, 0, imageSize) + old(space[imageSize..]);
      && (!ok ==> space[..] == mapped)
      && (ok && TidyEntries(Entries(dir, 0), imageSize) ==> EntriesMoved(mapped, space[..], Entries(dir, 0), base, desiredBase))
      && (ok ==>
            var rs := Relocs(pe, Entries(dir, 0), |Entries(dir, 0)|, desiredBase);
            AllInImage(rs, space.Length) && space[..] == Rebased(mapped, base, rs, |rs|))
  {
    CopyMem(pe, 0, imageSize, space);
    ghost var behind := old(space[imageSize..]);
    ghost var mapped := CopiedBytes(pe, 0, imageSize) + behind;
    assert space[..] == space[..imageSize] + space[imageSize..] == mapped;
    var relocs := ParseRelocDir(pe, dir, desiredBase);
    if relocs.None? { return false; }
    ghost var es := Entries(dir, 0);
    RelocsInImage(pe, es, |es|, desiredBase, space.Length);
    ok := ApplyRelocs(space, base, relocs.value);
    if TidyEntries(es, imageSize) { RebasedEntries(pe, es, base, desiredBase, imageSize, behind); }
  }

  ghost predicate AllInImage(rs: seq<Reloc>, size: nat) {
    forall i {:trigger rs[i]} :: 0 <= i < |rs| ==> InImage(rs[i], size)
  }

  lemma {:induction false} RelocsInImage(pe: PeFile, es: seq<Entry>, n: nat, desiredBase: u64, size: nat)
    requires n <= |es| && SlotsInImage(es, size)
    ensures AllInImage(Relocs(pe, es, n, desiredBase), size)
    ensures forall i :: 0 <= i < |Relocs(pe, es, n, desiredBase)| ==> Relocs(pe, es, n, desiredBase)[i].addrBits == 64
  {
    if n > 0 { RelocsInImage(pe, es, n - 1, desiredBase, size); }
  }
}
