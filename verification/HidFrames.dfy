/**
 The "synaptic" framing over HID reports (hid.c): a payload is cut into frames, and each frame into
 output reports of 20 bytes.
 */
module HidFrames {
  import opened Bytes

  const REPORT_OUT_ID: byte := 0x0E
  const OUT_SIZE := 20
  const OUT_DATA_SIZE := 19
  const FIRST_DATA_SIZE := 5
  const MAX_FRAG := 248
  const FRAME_SINGLE := 0xC0FF
  const FRAME_FIRST := 0x4000
  const FRAME_LAST := 0x80FF

  /** "synaptic". */
  const MAGIC: bytes := [0x73, 0x79, 0x6E, 0x61, 0x70, 0x74, 0x69, 0x63]

  datatype Frame = Frame(chunk: bytes, framing: nat)

  function Min(a: nat, b: nat): nat {
    if a <= b then a else b
  }

  // ---------------------------------------------------------------- what is written

  function FirstReport(chunk: bytes, framing: nat): (r: bytes)
    ensures |r| == OUT_SIZE
  {
    var n := Min(|chunk|, FIRST_DATA_SIZE);
    [REPORT_OUT_ID] + MAGIC + ToLE(2 + |chunk|, 4) + ToLE(framing, 2) + chunk[..n] + Zeros(FIRST_DATA_SIZE - n)
  }

  function ContReport(part: bytes): (r: bytes)
    requires |part| <= OUT_DATA_SIZE
    ensures |r| == OUT_SIZE
  {
    [REPORT_OUT_ID] + part + Zeros(OUT_DATA_SIZE - |part|)
  }

  /** The continuation reports for the data from `off` on. */
  function ContReports(chunk: bytes, off: nat): seq<bytes>
    requires off <= |chunk|
    decreases |chunk| - off
  {
    if off == |chunk| then []
    else
      var n := Min(|chunk| - off, OUT_DATA_SIZE);
      [ContReport(chunk[off..off + n])] + ContReports(chunk, off + n)
  }

  function FrameReports(f: Frame): seq<bytes> {
    [FirstReport(f.chunk, f.framing)] + ContReports(f.chunk, Min(|f.chunk|, FIRST_DATA_SIZE))
  }

  function Reports(fs: seq<Frame>): seq<bytes> {
    if fs == [] then [] else FrameReports(fs[0]) + Reports(fs[1..])
  }

  function FramingCode(idx: nat, last: bool): nat {
    if idx == 0 then FRAME_FIRST else if last then FRAME_LAST else idx % 0x1_0000
  }

  /** The frames of a long payload from `off` on, which is a multiple of MAX_FRAG. */
  function FramesFrom(data: bytes, off: nat, idx: nat): seq<Frame>
    requires off <= |data|
    decreases |data| - off
  {
    if off == |data| then []
    else
      var end := Min(off + MAX_FRAG, |data|);
      [Frame(data[off..end], FramingCode(idx, end == |data|))] + FramesFrom(data, end, idx + 1)
  }

  function FramesOf(data: bytes): seq<Frame> {
    if |data| <= MAX_FRAG then [Frame(data, FRAME_SINGLE)] else FramesFrom(data, 0, 0)
  }

  // ---------------------------------------------------------------- the code

  /** An open hidraw descriptor: the reports written so far, and how many more writes will succeed. */
  datatype HidRaw = HidRaw(written: seq<bytes>, room: nat)

  /** `rs` written one after the other, up to the first write that fails. */
  function After(d: HidRaw, rs: seq<bytes>): HidRaw
    decreases |rs|
  {
    if rs == [] || d.room == 0 then d else After(HidRaw(d.written + [rs[0]], d.room - 1), rs[1..])
  }

  /** A failing write loses the rest and nothing else. */
  lemma {:induction false} AfterWrites(d: HidRaw, rs: seq<bytes>)
    ensures After(d, rs) == HidRaw(d.written + rs[..Min(|rs|, d.room)], d.room - Min(|rs|, d.room))
    decreases |rs|
  {
    if rs == [] || d.room == 0 {
      assert rs[..Min(|rs|, d.room)] == [];
      assert d.written + [] == d.written;
    } else {
      AfterWrites(HidRaw(d.written + [rs[0]], d.room - 1), rs[1..]);
      var k := Min(|rs| - 1, d.room - 1);
      assert rs[..k + 1] == [rs[0]] + rs[1..][..k];
      assert d.written + [rs[0]] + rs[1..][..k] == d.written + rs[..k + 1];
    }
  }

  lemma {:induction false} AfterAppend(d: HidRaw, a: seq<bytes>, b: seq<bytes>)
    ensures After(d, a + b) == After(After(d, a), b)
    decreases |a|
  {
    if a == [] || d.room == 0 {
      assert a == [] ==> a + b == b;
    } else {
      AfterAppend(HidRaw(d.written + [a[0]], d.room - 1), a[1..], b);
      assert (a + b)[1..] == a[1..] + b;
    }
  }

  /** struct wdf_hid_device with its descriptor. */
  class HidDevice {
    var fd: HidRaw

    constructor (fd: HidRaw)
      ensures this.fd == fd
    {
      this.fd := fd;
    }

    method Write(report: array<byte>) returns (ok: bool)
      modifies this
      ensures ok <==> old(fd.room) > 0
      ensures fd == if ok then HidRaw(old(fd.written) + [report[..]], old(fd.room) - 1) else old(fd)
    {
      if fd.room == 0 { return false; }
      fd := HidRaw(fd.written + [report[..]], fd.room - 1);
      return true;
    }

    /** A zeroed report of 20 bytes that starts with the report id, with `part` after it. */
    method NewReport(part: bytes) returns (report: array<byte>)
      requires |part| < OUT_SIZE
      ensures fresh(report) && report[..] == [REPORT_OUT_ID] + part + Zeros(OUT_SIZE - 1 - |part|)
    {
      report := new byte[OUT_SIZE](_ => 0);
      report[0] := REPORT_OUT_ID;
      forall k | 0 <= k < |part| {
        report[1 + k] := part[k];
      }
    }

    /** `hid_write_one_frame`: the reports of the frame, as far as the writes succeed. */
    method WriteOneFrame(chunk: bytes, framing: nat) returns (ok: bool)
      modifies this
      ensures fd == After(old(fd), FrameReports(Frame(chunk, framing)))
      ensures ok <==> |FrameReports(Frame(chunk, framing))| <= old(fd.room)
    {
      var firstData := Min(|chunk|, FIRST_DATA_SIZE);
      var first := NewReport(MAGIC + ToLE(2 + |chunk|, 4) + ToLE(framing, 2) + chunk[..firstData]);
      assert first[..] == FirstReport(chunk, framing);
      ok := Write(first);
      if ok { ok := WriteRest(chunk, firstData); }
    }

    /** Its loop over the continuation reports. */
    method WriteRest(chunk: bytes, firstData: nat) returns (ok: bool)
      requires firstData <= |chunk|
      modifies this
      ensures fd == After(old(fd), ContReports(chunk, firstData))
      ensures ok <==> |ContReports(chunk, firstData)| <= old(fd.room)
    {
      var offset := firstData;
      while offset < |chunk|
        invariant offset <= |chunk|
        invariant After(fd, ContReports(chunk, offset)) == After(old(fd), ContReports(chunk, firstData))
        invariant |ContReports(chunk, offset)| <= fd.room <==> |ContReports(chunk, firstData)| <= old(fd.room)
        decreases |chunk| - offset
      {
        var n := |chunk| - offset;
        if n > OUT_DATA_SIZE { n := OUT_DATA_SIZE; }
        var report := NewReport(chunk[offset..offset + n]);
        assert report[..] == ContReport(chunk[offset..offset + n]);
        offset := offset + n;
        ok := Write(report);
        if !ok { return; }
      }
      ok := true;
    }

    /** `hid_send_vcsfw`. */
    method SendVcsfw(data: bytes) returns (ok: bool)
      modifies this
      ensures fd == After(old(fd), Reports(FramesOf(data)))
      ensures ok <==> |Reports(FramesOf(data))| <= old(fd.room)
    {
      if |data| <= MAX_FRAG {
        OneFrame(Frame(data, FRAME_SINGLE));
        ok := WriteOneFrame(data, FRAME_SINGLE);
        return;
      }
      ok := SendFrames(data);
    }

    /** The loop over the frames of a long payload. */
    method SendFrames(data: bytes) returns (ok: bool)
      modifies this
      ensures fd == After(old(fd), Reports(FramesFrom(data, 0, 0)))
      ensures ok <==> |Reports(FramesFrom(data, 0, 0))| <= old(fd.room)
    {
      hide FrameReports, Reports, FramesFrom;
      var offset: nat, idx: nat := 0, 0;
      ghost var target := Left(fd, Reports(FramesFrom(data, 0, 0)));
      while offset < |data|
        invariant offset <= |data| && Left(fd, Reports(FramesFrom(data, offset, idx))) == target
        decreases |data| - offset
      {
        var end := offset + MAX_FRAG;
        if end > |data| { end := |data|; }
        var framing := if idx == 0 then FRAME_FIRST else if end >= |data| then FRAME_LAST else idx % 0x1_0000;
        NextFrame(data, offset, idx);
        LeftStep(fd, FrameReports(Frame(data[offset..end], framing)), Reports(FramesFrom(data, end, idx + 1)));
        ok := WriteOneFrame(data[offset..end], framing);
        if !ok { return; }
        offset := end;
        idx := idx + 1;
      }
      NoFrames(data, idx);
      ok := true;
    }
  }

  /** What writing `rs` leads to, and whether all of it succeeds. */
  ghost function Left(d: HidRaw, rs: seq<bytes>): (HidRaw, bool) {
    (After(d, rs), |rs| <= d.room)
  }

  lemma LeftStep(d: HidRaw, now: seq<bytes>, later: seq<bytes>)
    ensures |now| <= d.room ==> Left(d, now + later) == Left(After(d, now), later)
    ensures |now| > d.room ==> Left(d, now + later) == (After(d, now), false)
  {
    AfterAppend(d, now, later);
    AfterWrites(d, now);
    if |now| > d.room { AfterStops(After(d, now), later); }
  }

  lemma NextFrame(data: bytes, off: nat, idx: nat)
    requires off < |data|
    ensures var end := Min(off + MAX_FRAG, |data|);
      Reports(FramesFrom(data, off, idx))
        == FrameReports(Frame(data[off..end], FramingCode(idx, end == |data|))) + Reports(FramesFrom(data, end, idx + 1))
  {
  }

  lemma NoFrames(data: bytes, idx: nat)
    ensures Reports(FramesFrom(data, |data|, idx)) == []
  {
  }

  lemma AfterStops(d: HidRaw, rs: seq<bytes>)
    requires d.room == 0
    ensures After(d, rs) == d
  {
  }

  lemma OneFrame(f: Frame)
    ensures Reports([f]) == FrameReports(f)
  {
    assert [f][1..] == [] && FrameReports(f) + [] == FrameReports(f);
  }
}
