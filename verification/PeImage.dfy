/** The section table of a PE file and reads of the memory image it describes (sect.c). */
module PeSections {
  import opened Bytes
  import opened Wrappers

  const U32: nat := 0x1_0000_0000
  const SECTION_HEADER_SIZE := 40

  type u32 = x: int | 0 <= x < U32

  /** struct pe_section, without the name. */
  datatype Section = Section(fileOff: u32, fileSize: u32, memOff: u32, memSize: u32, flags: u32)

  /** The parsed file: its bytes and its sections. */
  datatype PeFile = PeFile(data: bytes, sections: seq<Section>)

  function LE32(data: bytes, off: nat): (v: u32)
    requires off + 4 <= |data|
  {
    var b0: int, b1: int, b2: int, b3: int := data[off], data[off + 1], data[off + 2], data[off + 3];
    b0 + 0x100 * b1 + 0x1_0000 * b2 + 0x100_0000 * b3
  }

  /** Section header `i` of the table at `off`: virtual size and address, raw size and pointer, flags. */
  function Header(data: bytes, off: nat, i: nat): Section
    requires off + (i + 1) * SECTION_HEADER_SIZE <= |data|
  {
    var h := off + i * SECTION_HEADER_SIZE;
    Section(LE32(data, h + 20), LE32(data, h + 16), LE32(data, h + 12), LE32(data, h + 8), LE32(data, h + 36))
  }

  /** The checks of the parser; sums wrap around at 32 bits. */
  predicate Accepted(s: Section, fileSize: nat, imageSize: u32, fileAlign: nat, sectAlign: nat)
    requires fileAlign > 0 && sectAlign > 0
  {
    && (s.fileOff + s.fileSize) % U32 <= fileSize
    && (s.memOff + s.memSize) % U32 <= imageSize
    && s.fileOff % fileAlign == 0
    && s.memOff % sectAlign == 0
  }

  /** `pe_parse_sections`: the table is taken over exactly if it lies in the file and every header passes. */
  method ParseSections(data: bytes, off: nat, count: nat, imageSize: u32, fileAlign: nat, sectAlign: nat)
    returns (r: Option<seq<Section>>)
    requires fileAlign > 0 && sectAlign > 0
    ensures r.Some? <==>
      && off + count * SECTION_HEADER_SIZE <= |data|
      && forall i :: 0 <= i < count ==> Accepted(Header(data, off, i), |data|, imageSize, fileAlign, sectAlign)
    ensures r.Some? ==> |r.value| == count && forall i :: 0 <= i < count ==> r.value[i] == Header(data, off, i)
  {
    if |data| < off + count * SECTION_HEADER_SIZE { return None; }
    var sections: seq<Section> := [];
    for i := 0 to count
      invariant |sections| == i
      invariant forall j :: 0 <= j < i ==> sections[j] == Header(data, off, j)
      invariant forall j :: 0 <= j < i ==> Accepted(Header(data, off, j), |data|, imageSize, fileAlign, sectAlign)
    {
      var h := off + i * SECTION_HEADER_SIZE;
      var s := Section(LE32(data, h + 20), LE32(data, h + 16), LE32(data, h + 12), LE32(data, h + 8), LE32(data, h + 36));
      assert s == Header(data, off, i);
      if (s.fileOff + s.fileSize) % U32 > |data| { return None; }
      if (s.memOff + s.memSize) % U32 > imageSize { return None; }
      if s.fileOff % fileAlign != 0 { return None; }
      if s.memOff % sectAlign != 0 { return None; }
      sections := sections + [s];
    }
    return Some(sections);
  }

  // ---------------------------------------------------------------- the table as a linker writes it

  /** A section header in the layout of the PE format's section table: name, virtual size and address, raw size
      and pointer, the relocation and line number fields of object files, characteristics. */
  function HeaderBytes(name: bytes, s: Section, objectFields: bytes): bytes {
    name + ToLE(s.memSize, 4) + ToLE(s.memOff, 4) + ToLE(s.fileSize, 4) + ToLE(s.fileOff, 4) + objectFields + ToLE(s.flags, 4)
  }

  lemma LE32IsFromLE(data: bytes, off: nat)
    requires off + 4 <= |data|
    ensures LE32(data, off) == FromLE(data[off..off + 4])
  {
    var w := data[off..off + 4];
    assert w[1..][0] == w[1] && w[1..][1..][0] == w[2] && w[1..][1..][1..][0] == w[3] && w[1..][1..][1..][1..] == [];
    assert FromLE([]) == 0;
    assert FromLE(w[1..][1..][1..]) == w[3] as int + 256 * FromLE([]);
    assert FromLE(w[1..][1..]) == w[2] as int + 256 * FromLE(w[1..][1..][1..]);
    assert FromLE(w[1..]) == w[1] as int + 256 * FromLE(w[1..][1..]);
  }

  lemma LE32Back(data: bytes, off: nat, v: u32)
    requires off + 4 <= |data| && data[off..off + 4] == ToLE(v, 4)
    ensures LE32(data, off) == v
  {
    LE32IsFromLE(data, off);
    assert Pow256(4) == 256 * (256 * (256 * (256 * Pow256(0))));
    FromToLE(v, 4);
  }

  /** The parser reads the fields of a header where the format puts them. */
  lemma HeaderBack(data: bytes, off: nat, i: nat, name: bytes, s: Section, objectFields: bytes)
    requires |name| == 8 && |objectFields| == 12 && off + (i + 1) * SECTION_HEADER_SIZE <= |data|
    requires data[off + i * SECTION_HEADER_SIZE..off + (i + 1) * SECTION_HEADER_SIZE] == HeaderBytes(name, s, objectFields)
    ensures Header(data, off, i) == s
  {
    var h, hb := off + i * SECTION_HEADER_SIZE, HeaderBytes(name, s, objectFields);
    assert hb[8..12] == ToLE(s.memSize, 4) && hb[12..16] == ToLE(s.memOff, 4) && hb[16..20] == ToLE(s.fileSize, 4);
    assert hb[20..24] == ToLE(s.fileOff, 4) && hb[36..40] == ToLE(s.flags, 4);
    FieldAt(data, h, hb, 8, 4);
    FieldAt(data, h, hb, 12, 4);
    FieldAt(data, h, hb, 16, 4);
    FieldAt(data, h, hb, 20, 4);
    FieldAt(data, h, hb, 36, 4);
    LE32Back(data, h + 8, s.memSize);
    LE32Back(data, h + 12, s.memOff);
    LE32Back(data, h + 16, s.fileSize);
    LE32Back(data, h + 20, s.fileOff);
    LE32Back(data, h + 36, s.flags);
    hide LE32, HeaderBytes, ToLE;
  }

  lemma FieldAt(data: bytes, h: nat, hb: bytes, k: nat, n: nat)
    requires h + |hb| <= |data| && data[h..h + |hb|] == hb && k + n <= |hb|
    ensures data[h + k..h + k + n] == hb[k..k + n]
  {
    var field := hb[k..k + n];
    forall i {:trigger field[i]} | 0 <= i < n ensures data[h + k..h + k + n][i] == field[i] {
      assert data[h..h + |hb|][k + i] == hb[k + i];
    }
  }

  // ---------------------------------------------------------------- the memory image

  /** Where the code takes a section to end in memory, and its file part to end. */
  function MemEnd(s: Section): u32 {
    (s.memOff + s.memSize) % U32
  }

  function CopyEnd(s: Section): u32 {
    (s.memOff + s.fileSize) % U32
  }

  /** How much of the file part can be looked up. */
  function Mapped(s: Section): nat {
    if MemEnd(s) <= s.memOff then 0
    else if s.fileSize <= MemEnd(s) - s.memOff then s.fileSize
    else MemEnd(s) - s.memOff
  }

  /** What can be looked up of every section lies in the file. */
  ghost predicate InFile(sections: seq<Section>, size: nat) {
    forall i {:trigger sections[i]} :: 0 <= i < |sections| ==>
      Mapped(sections[i]) == 0 || sections[i].fileOff + Mapped(sections[i]) <= size
  }

  /** That is what it takes to read a section at all its addresses without leaving the file. */
  lemma LookupInFileIff(s: Section, size: nat)
    ensures InFile([s], size) <==> forall off: u32 :: PeekSource([s], off, 0).Some? ==> PeekSource([s], off, 0).value < size
  {
    assert [s][0] == s;
    assert InFile([s], size) <==> Mapped(s) == 0 || s.fileOff + Mapped(s) <= size;
    if Mapped(s) > 0 {
      var last: u32 := s.memOff + Mapped(s) - 1;
      assert PeekSource([s], last, 0) == Some(s.fileOff + Mapped(s) - 1);
    }
    forall off: u32 | PeekSource([s], off, 0).Some?
      ensures Mapped(s) > 0 && PeekSource([s], off, 0).value < s.fileOff + Mapped(s)
    {
      assert PeekSource([s], off, 0) == Some(s.fileOff + (off - s.memOff));
    }
  }

  /** The parser's check makes sure of it unless its sum wraps around. */
  lemma AcceptedInFile(sections: seq<Section>, size: nat, imageSize: u32, fileAlign: nat, sectAlign: nat)
    requires fileAlign > 0 && sectAlign > 0
    requires forall i :: 0 <= i < |sections| ==> Accepted(sections[i], size, imageSize, fileAlign, sectAlign)
    requires forall i :: 0 <= i < |sections| ==> sections[i].fileOff + sections[i].fileSize < U32 || Mapped(sections[i]) == 0
    ensures InFile(sections, size)
  {
    forall i {:trigger sections[i]} | 0 <= i < |sections|
      ensures Mapped(sections[i]) == 0 || sections[i].fileOff + Mapped(sections[i]) <= size
    {
      assert Accepted(sections[i], size, imageSize, fileAlign, sectAlign);
    }
  }

  /** An accepted header with a wrapped sum whose only address is not in the file, and one that maps nothing. */
  lemma WrappedSums()
    ensures var s, t := Section(0xFFFF_F000, 0x1000, 0x1000, 1, 0), Section(0xFFFF_F000, 0x1000, 0x1000, 0, 0);
      && Accepted(s, 0x200, 0x2000, 0x200, 0x1000) && PeekSource([s], 0x1000, 0) == Some(0xFFFF_F000)
      && Accepted(t, 0x200, 0x2000, 0x200, 0x1000) && InFile([t], 0x200)
  {
  }

  predicate Holds(s: Section, off: int) {
    s.memOff <= off < MemEnd(s)
  }

  predicate Backs(s: Section, off: int) {
    Holds(s, off) && off < CopyEnd(s)
  }

  /** The place in the file of the byte at `off`, for the byte lookup: the first section from `i` on that
      holds the address decides. */
  function PeekSource(sections: seq<Section>, off: int, i: nat): Option<nat>
    requires i <= |sections|
    decreases |sections| - i
  {
    if i == |sections| then None
    else
      var s := sections[i];
      if Holds(s, off) then if off - s.memOff < s.fileSize then Some(s.fileOff + (off - s.memOff)) else None
      else PeekSource(sections, off, i + 1)
  }

  /** The same for the range copy: of the first `n` sections the last whose file part backs it. */
  function CopySource(sections: seq<Section>, off: int, n: nat): Option<nat>
    requires n <= |sections|
  {
    if n == 0 then None
    else
      var s := sections[n - 1];
      if Backs(s, off) then Some(s.fileOff + (off - s.memOff)) else CopySource(sections, off, n - 1)
  }

  /** The byte there; addresses with no place in the file are zero. */
  function ByteFrom(data: bytes, place: Option<nat>): byte {
    if place.Some? && place.value < |data| then data[place.value] else 0
  }

  function PeekByte(pe: PeFile, off: int): byte {
    ByteFrom(pe.data, PeekSource(pe.sections, off, 0))
  }

  /** The byte the first `n` sections leave at place `k` of a copied range; a range that does not end
      below 2^32 ends, for the code, before it starts. */
  function CopiedBy(pe: PeFile, off: u32, size: u32, k: nat, n: nat): byte
    requires n <= |pe.sections|
  {
    if off + size < U32 then ByteFrom(pe.data, CopySource(pe.sections, off + k, n)) else 0
  }

  function CopiedBytes(pe: PeFile, off: u32, size: u32): (bs: bytes)
    ensures |bs| == size
    ensures forall k {:trigger bs[k]} :: 0 <= k < size ==> bs[k] == CopiedBy(pe, off, size, k, |pe.sections|)
  {
    seq<byte>(size, k requires 0 <= k < size => CopiedBy(pe, off, size, k, |pe.sections|))
  }

  /** `pe_peek_mem_i8`. */
  method PeekI8(pe: PeFile, off: u32) returns (b: byte)
    requires InFile(pe.sections, |pe.data|)
    ensures b == PeekByte(pe, off)
  {
    for i := 0 to |pe.sections|
      invariant PeekSource(pe.sections, off, i) == PeekSource(pe.sections, off, 0)
    {
      var sec := pe.sections[i];
      if off < sec.memOff || (sec.memOff + sec.memSize) % U32 <= off { continue; }
      var secOff := off - sec.memOff;
      if sec.fileSize <= secOff { return 0; }
      return pe.data[sec.fileOff + secOff];
    }
    return 0;
  }

  /** Accepted sections hold nothing past the end of the image. */
  lemma PeekPastEnd(pe: PeFile, off: int, imageSize: u32)
    requires InMemory(pe.sections, imageSize) && off >= imageSize
    ensures PeekByte(pe, off) == 0
  {
    NoneFrom(pe.sections, off, imageSize, 0);
  }

  lemma {:induction false} NoneFrom(sections: seq<Section>, off: int, imageSize: u32, i: nat)
    requires InMemory(sections, imageSize) && off >= imageSize && i <= |sections|
    ensures PeekSource(sections, off, i) == None
    decreases |sections| - i
  {
    if i < |sections| { NoneFrom(sections, off, imageSize, i + 1); }
  }

  /** The check of the parser. */
  ghost predicate InMemory(sections: seq<Section>, imageSize: u32) {
    forall i {:trigger sections[i]} :: 0 <= i < |sections| ==> MemEnd(sections[i]) <= imageSize
  }

  method MemCpy(buf: array<byte>, at: nat, data: bytes, from: nat, n: nat)
    requires at + n <= buf.Length && (n > 0 ==> from + n <= |data|)
    modifies buf
    ensures forall k :: 0 <= k < buf.Length ==> buf[k] == if at <= k < at + n then data[from + (k - at)] else old(buf[k])
  {
    forall k | 0 <= k < n {
      buf[at + k] := data[from + k];
    }
  }

  /** `pe_copy_mem`. */
  method CopyMem(pe: PeFile, off: u32, size: u32, buf: array<byte>)
    requires InFile(pe.sections, |pe.data|) && size <= buf.Length
    modifies buf
    ensures buf[..size] == CopiedBytes(pe, off, size) && buf[size..] == old(buf[size..])
  {
    forall k | 0 <= k < size {
      buf[k] := 0;
    }
    for i := 0 to |pe.sections|
      invariant forall k :: 0 <= k < size ==> buf[k] == CopiedBy(pe, off, size, k, i)
      invariant buf[size..] == old(buf[size..])
    {
      CopySection(pe, i, off, size, buf);
    }
    assert forall k :: 0 <= k < size ==> buf[..size][k] == CopiedBytes(pe, off, size)[k];
  }

  /** The part of the range that the file part of a section backs, with all ends taken modulo 2^32. */
  method Clip(sec: Section, off: u32, size: u32) returns (startOff: u32, copySize: nat)
    ensures forall a :: startOff <= a < startOff + copySize <==> off + size < U32 && off <= a < off + size && Backs(sec, a)
    ensures copySize > 0 ==>
      off <= startOff && startOff + copySize <= off + size && sec.memOff <= startOff && startOff - sec.memOff + copySize <= Mapped(sec)
  {
    startOff, copySize := off, 0;
    var endOff := (off + size) % U32;
    if startOff < sec.memOff { startOff := sec.memOff; }
    var memEnd := (sec.memOff + sec.memSize) % U32;
    if memEnd < endOff { endOff := memEnd; }
    if startOff < endOff {
      var copyEnd := (sec.memOff + sec.fileSize) % U32;
      if copyEnd < startOff { copyEnd := startOff; }
      if endOff < copyEnd { copyEnd := endOff; }
      copySize := copyEnd - startOff;
    }
  }

  /** One round: the part of the range that lies in section `i`. */
  method CopySection(pe: PeFile, i: nat, off: u32, size: u32, buf: array<byte>)
    requires InFile(pe.sections, |pe.data|) && size <= buf.Length && i < |pe.sections|
    requires forall k :: 0 <= k < size ==> buf[k] == CopiedBy(pe, off, size, k, i)
    modifies buf
    ensures forall k :: 0 <= k < size ==> buf[k] == CopiedBy(pe, off, size, k, i + 1)
    ensures buf[size..] == old(buf[size..])
  {
    ghost var was := buf[..];
    var sec := pe.sections[i];
    var startOff, copySize := Clip(sec, off, size);
    if copySize > 0 {
      MemCpy(buf, startOff - off, pe.data, sec.fileOff + (startOff - sec.memOff), copySize);
    }
    forall k | 0 <= k < size ensures buf[k] == CopiedBy(pe, off, size, k, i + 1) {
      var a := off + k;
      assert startOff <= a < startOff + copySize <==> off + size < U32 && off <= a < off + size && Backs(sec, a);
      assert was[k] == CopiedBy(pe, off, size, k, i);
      SectionTurn(pe, i, off, size, k);
      hide CopiedBy;
    }
  }

  /** What the turn of section `i` does to one byte of the range. */
  lemma SectionTurn(pe: PeFile, i: nat, off: u32, size: u32, k: nat)
    requires InFile(pe.sections, |pe.data|) && i < |pe.sections| && k < size
    ensures var sec := pe.sections[i];
      && (off + size < U32 && Backs(sec, off + k) ==>
            && 0 <= sec.fileOff + (off + k - sec.memOff) < |pe.data|
            && CopiedBy(pe, off, size, k, i + 1) == pe.data[sec.fileOff + (off + k - sec.memOff)])
      && (!(off + size < U32 && Backs(sec, off + k)) ==> CopiedBy(pe, off, size, k, i + 1) == CopiedBy(pe, off, size, k, i))
  {
  }

  // ---------------------------------------------------------------- copy and lookup

  predicate SameAt(sections: seq<Section>, off: u32) {
    CopySource(sections, off, |sections|) == PeekSource(sections, off, 0)
  }

  /** Copy and lookup take the byte from the same place at the start of every section, at its end, and at
      the end of its file part. */
  predicate SameAtBoundaries(sections: seq<Section>) {
    forall i {:trigger sections[i]} :: 0 <= i < |sections| ==>
      SameAt(sections, sections[i].memOff) && SameAt(sections, MemEnd(sections[i])) && SameAt(sections, CopyEnd(sections[i]))
  }

  predicate Boundary(s: Section, off: int) {
    off == s.memOff || off == MemEnd(s) || off == CopyEnd(s)
  }

  /** The place one byte further on. */
  function Next(place: Option<nat>): Option<nat> {
    if place.Some? then Some(place.value + 1) else None
  }

  /** Between boundaries both places move along with the address. */
  lemma {:induction false} PeekShifts(sections: seq<Section>, off: u32, i: nat)
    requires off > 0 && i <= |sections|
    requires forall j {:trigger sections[j]} :: 0 <= j < |sections| ==> !Boundary(sections[j], off)
    ensures PeekSource(sections, off, i) == Next(PeekSource(sections, off - 1, i))
    decreases |sections| - i
  {
    if i < |sections| {
      assert !Boundary(sections[i], off);
      PeekShifts(sections, off, i + 1);
    }
  }

  lemma {:induction false} CopyShifts(sections: seq<Section>, off: u32, n: nat)
    requires off > 0 && n <= |sections|
    requires forall j {:trigger sections[j]} :: 0 <= j < |sections| ==> !Boundary(sections[j], off)
    ensures CopySource(sections, off, n) == Next(CopySource(sections, off - 1, n))
  {
    if n > 0 {
      assert !Boundary(sections[n - 1], off);
      CopyShifts(sections, off, n - 1);
    }
  }

  /** Nothing lies at address 0 unless a section starts there. */
  lemma {:induction false} NoneHeld(sections: seq<Section>, i: nat)
    requires i <= |sections|
    requires forall j {:trigger sections[j]} :: 0 <= j < |sections| ==> !Boundary(sections[j], 0)
    ensures PeekSource(sections, 0, i) == None
    decreases |sections| - i
  {
    if i < |sections| {
      assert !Boundary(sections[i], 0);
      NoneHeld(sections, i + 1);
    }
  }

  lemma {:induction false} NoneCopied(sections: seq<Section>, n: nat)
    requires n <= |sections|
    requires forall j {:trigger sections[j]} :: 0 <= j < |sections| ==> !Boundary(sections[j], 0)
    ensures CopySource(sections, 0, n) == None
  {
    if n > 0 {
      assert !Boundary(sections[n - 1], 0);
      NoneCopied(sections, n - 1);
    }
  }

  /** So the boundaries decide. */
  lemma {:induction false} SameEverywhere(sections: seq<Section>, off: u32)
    requires SameAtBoundaries(sections)
    ensures SameAt(sections, off)
    decreases off
  {
    if i :| 0 <= i < |sections| && Boundary(sections[i], off) {
    } else if off > 0 {
      SameEverywhere(sections, off - 1);
      PeekShifts(sections, off, 0);
      CopyShifts(sections, off, |sections|);
    } else {
      AtZero(sections);
    }
  }

  lemma AtZero(sections: seq<Section>)
    requires forall j {:trigger sections[j]} :: 0 <= j < |sections| ==> !Boundary(sections[j], 0)
    ensures SameAt(sections, 0)
  {
    NoneHeld(sections, 0);
    NoneCopied(sections, |sections|);
  }

  /** In every file with these sections the copy agrees with the lookup at every address. */
  ghost predicate CopyAgrees(sections: seq<Section>, size: nat) {
    forall data: bytes, off: u32 {:trigger PeekByte(PeFile(data, sections), off)} :: |data| == size ==>
      ByteFrom(data, CopySource(sections, off, |sections|)) == PeekByte(PeFile(data, sections), off)
  }

  /** Copy and lookup agree at every address, on all contents of the file, exactly if they use the same
      place of it at three addresses a section. */
  lemma CopyAgreesIff(sections: seq<Section>, size: nat)
    requires InFile(sections, size)
    ensures CopyAgrees(sections, size) <==> SameAtBoundaries(sections)
  {
    if SameAtBoundaries(sections) {
      forall data: bytes, off: u32 {:trigger PeekByte(PeFile(data, sections), off)} | |data| == size
        ensures ByteFrom(data, CopySource(sections, off, |sections|)) == PeekByte(PeFile(data, sections), off)
      {
        SameEverywhere(sections, off);
      }
    } else {
      var off: u32 :| !SameAt(sections, off);
      var data := Differing(sections, off, size);
    }
  }

  /** An accepted section, alone, on which they differ: its file part wraps around. */
  lemma WrappedPartDiffers()
    ensures var s := Section(0, 0x2000, 0xFFFF_F000, 0xFFF, 0);
      Accepted(s, 0x2000, 0xFFFF_FFFF, 0x200, 0x1000) && InFile([s], 0x2000) && !SameAtBoundaries([s])
  {
    var s := Section(0, 0x2000, 0xFFFF_F000, 0xFFF, 0);
    assert [s][0] == s && PeekSource([s], s.memOff, 0) == Some(0);
    assert CopySource([s], s.memOff, 1) == None;
  }

  /** Two accepted sections at the same addresses differ if their file parts do, and not if they are the same. */
  lemma SharedAddresses()
    ensures var a, b := Section(0, 0x200, 0x1000, 0x200, 0), Section(0x200, 0x200, 0x1000, 0x200, 0);
      && Accepted(a, 0x400, 0x2000, 0x200, 0x1000) && Accepted(b, 0x400, 0x2000, 0x200, 0x1000)
      && InFile([a, b], 0x400) && !SameAtBoundaries([a, b]) && SameAtBoundaries([a, a])
  {
    var a, b := Section(0, 0x200, 0x1000, 0x200, 0), Section(0x200, 0x200, 0x1000, 0x200, 0);
    assert [a, b][0] == a && [a, b][1] == b && Holds(a, 0x1000) && Backs(b, 0x1000);
    assert PeekSource([a, b], 0x1000, 0) == Some(0);
    assert CopySource([a, b], 0x1000, 2) == Some(0x200);
    assert [a, a][0] == [a, a][1] == a && Backs(a, 0x1000) && Holds(a, 0x1000) && !Holds(a, 0x1200);
    assert PeekSource([a, a], 0x1000, 0) == Some(0) && CopySource([a, a], 0x1000, 2) == Some(0);
    assert PeekSource([a, a], 0x1200, 2) == None && CopySource([a, a], 0x1200, 0) == None;
    assert PeekSource([a, a], 0x1200, 1) == None && CopySource([a, a], 0x1200, 1) == None;
    assert PeekSource([a, a], 0x1200, 0) == None && CopySource([a, a], 0x1200, 2) == None;
    assert SameAt([a, a], 0x1000) && SameAt([a, a], 0x1200);
  }

  /** A file in which two different places hold different bytes. */
  lemma Differing(sections: seq<Section>, off: u32, size: nat) returns (data: bytes)
    requires InFile(sections, size) && !SameAt(sections, off)
    ensures |data| == size
    ensures ByteFrom(data, CopySource(sections, off, |sections|)) != PeekByte(PeFile(data, sections), off)
  {
    var a, b := CopySource(sections, off, |sections|), PeekSource(sections, off, 0);
    CopyInFile(sections, off, |sections|, size);
    PeekInFile(sections, off, 0, size);
    data := seq<byte>(size, k => if a == Some(k) || (a.None? && b == Some(k)) then 1 else 0);
  }

  lemma {:induction false} CopyInFile(sections: seq<Section>, off: int, n: nat, size: nat)
    requires InFile(sections, size) && n <= |sections|
    ensures CopySource(sections, off, n).Some? ==> CopySource(sections, off, n).value < size
  {
    if n > 0 { CopyInFile(sections, off, n - 1, size); }
  }

  lemma {:induction false} PeekInFile(sections: seq<Section>, off: int, i: nat, size: nat)
    requires InFile(sections, size) && i <= |sections|
    ensures PeekSource(sections, off, i).Some? ==> PeekSource(sections, off, i).value < size
    decreases |sections| - i
  {
    if i < |sections| { PeekInFile(sections, off, i + 1, size); }
  }

  /** No two sections share an address, and no file part wraps around. */
  ghost predicate Disjoint(sections: seq<Section>) {
    && (forall i, j, off {:trigger Holds(sections[i], off), Holds(sections[j], off)} ::
          0 <= i < j < |sections| && Holds(sections[i], off) ==> !Holds(sections[j], off))
    && (forall i {:trigger sections[i]} :: 0 <= i < |sections| ==> sections[i].memOff + sections[i].fileSize < U32)
  }

  /** As they do when no two sections share an address. */
  lemma DisjointAgree(sections: seq<Section>)
    requires Disjoint(sections)
    ensures SameAtBoundaries(sections)
  {
    forall off: u32 ensures SameAt(sections, off) {
      DisjointSource(sections, off, |sections|);
      assert sections[..|sections|] == sections;
    }
  }

  lemma {:induction false} DisjointSource(sections: seq<Section>, off: u32, n: nat)
    requires Disjoint(sections) && n <= |sections|
    ensures CopySource(sections, off, n) == PeekSource(sections[..n], off, 0)
  {
    if n > 0 {
      DisjointSource(sections, off, n - 1);
      PeekSnoc(sections[..n], off, 0);
      assert sections[..n][..n - 1] == sections[..n - 1];
      if Holds(sections[n - 1], off) {
        assert forall i {:trigger sections[..n - 1][i]} :: 0 <= i < n - 1 ==> !Holds(sections[..n - 1][i], off);
        PeekNone(sections[..n - 1], off, 0);
      }
    }
  }

  lemma {:induction false} PeekNone(sections: seq<Section>, off: int, i: nat)
    requires i <= |sections| && forall j {:trigger sections[j]} :: 0 <= j < |sections| ==> !Holds(sections[j], off)
    ensures PeekSource(sections, off, i) == None
    decreases |sections| - i
  {
    if i < |sections| { PeekNone(sections, off, i + 1); }
  }

  /** The lookup with one more section at the end. */
  lemma {:induction false} PeekSnoc(sections: seq<Section>, off: int, i: nat)
    requires i < |sections|
    ensures var init, last := sections[..|sections| - 1], sections[|sections| - 1];
      && (!Holds(last, off) ==> PeekSource(sections, off, i) == PeekSource(init, off, i))
      && (PeekSource(sections, off, |sections| - 1) ==
            if Holds(last, off) && off - last.memOff < last.fileSize then Some(last.fileOff + (off - last.memOff)) else None)
      && ((forall j {:trigger init[j]} :: i <= j < |init| ==> !Holds(init[j], off)) ==>
            PeekSource(sections, off, i) == PeekSource(sections, off, |sections| - 1))
    decreases |sections| - i
  {
    if i < |sections| - 1 {
      PeekSnoc(sections, off, i + 1);
      assert sections[i] == sections[..|sections| - 1][i];
    }
  }

  // ---------------------------------------------------------------- wider reads

  function PeekLE(pe: PeFile, off: u32, n: u32): (v: nat)
    ensures v < Pow256(n)
  {
    FromLEBound(CopiedBytes(pe, off, n));
    FromLE(CopiedBytes(pe, off, n))
  }

  /** `pe_peek_mem_i16`, `pe_peek_mem_i32` and `pe_peek_mem_i64`: a copy, read as a little-endian number. */
  method PeekWide(pe: PeFile, off: u32, n: u32) returns (v: nat)
    requires InFile(pe.sections, |pe.data|)
    ensures v == PeekLE(pe, off, n)
  {
    var buf := new byte[n];
    CopyMem(pe, off, n, buf);
    assert buf[..n] == buf[..];
    v := FromLE(buf[..]);
  }

  /** `str` holds the looked-up bytes from `off` on and ends with the first zero. */
  ghost predicate IsStringAt(pe: PeFile, off: u32, str: bytes) {
    && (forall k {:trigger str[k]} :: 0 <= k < |str| ==> str[k] == PeekByte(pe, off + k))
    && (forall k {:trigger str[k]} :: 0 <= k < |str| ==> (str[k] == 0 <==> k == |str| - 1))
  }

  /** `pe_copy_mem_string`: the lookup measures the string and the copy fetches it. Where they agree the
      result is the string, if it ends below 2^32. */
  method CopyMemString(pe: PeFile, off: u32, ghost imageSize: u32) returns (str: array<byte>)
    requires InFile(pe.sections, |pe.data|) && InMemory(pe.sections, imageSize)
    ensures fresh(str) && str.Length > 0 && (str.Length == 1 || off + str.Length - 1 <= imageSize)
    ensures forall a :: off <= a < off + str.Length ==> (PeekByte(pe, a) == 0 <==> a == off + str.Length - 1)
    ensures str.Length < U32 ==> str[..] == CopiedBytes(pe, off, str.Length)
    ensures SameAtBoundaries(pe.sections) && (off + str.Length < U32 || str.Length == 1) ==> IsStringAt(pe, off, str[..])
  {
    hide PeekByte, SameAtBoundaries, InFile, InMemory;
    var strLen := StringLength(pe, off, imageSize);
    str := new byte[strLen + 1];
    CopyMem(pe, off, (strLen + 1) % U32, str);
    assert strLen + 1 < U32 ==> str[..strLen + 1] == str[..];
    if SameAtBoundaries(pe.sections) && (off + strLen + 1 < U32 || strLen == 0) {
      CopiedIsLookedUp(pe, off, strLen + 1);
    }
  }

  /** Its first loop. */
  method StringLength(pe: PeFile, off: u32, ghost imageSize: u32) returns (strLen: nat)
    requires InFile(pe.sections, |pe.data|) && InMemory(pe.sections, imageSize)
    ensures strLen == 0 || off + strLen <= imageSize
    ensures forall a :: off <= a < off + strLen ==> PeekByte(pe, a) != 0
    ensures PeekByte(pe, off + strLen) == 0
  {
    strLen := 0;
    var o := off;
    while true
      invariant o == off + strLen && (strLen == 0 || o <= imageSize)
      invariant forall a :: off <= a < o ==> PeekByte(pe, a) != 0
      decreases if o < imageSize then imageSize - o else 0
    {
      var b := PeekI8(pe, o);
      if b == 0 { return; }
      if o >= imageSize { PeekPastEnd(pe, o, imageSize); }
      strLen := strLen + 1;
      o := o + 1;
    }
  }

  /** A copy that reaches 2^32 is one zero byte, if it ends with a zero that is looked up. */
  lemma CopiedIsLookedUp(pe: PeFile, off: u32, n: u32)
    requires SameAtBoundaries(pe.sections)
    requires off + n < U32 || (n == 1 && PeekByte(pe, off) == 0)
    ensures forall k {:trigger CopiedBytes(pe, off, n)[k]} :: 0 <= k < n ==> CopiedBytes(pe, off, n)[k] == PeekByte(pe, off + k)
  {
    forall k {:trigger CopiedBytes(pe, off, n)[k]} | 0 <= k < n
      ensures CopiedBytes(pe, off, n)[k] == PeekByte(pe, off + k)
    {
      if off + n < U32 { SameEverywhere(pe.sections, off + k); }
    }
  }
}
