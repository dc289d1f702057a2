/** What the sensor can read back from the reports, and how many there are. */
module HidFramesProofs {
  import opened Bytes
  import opened Wrappers
  import opened HidFrames

  /** The largest number of frames whose codes are unambiguous: frame 0x4000 would look like a first one. */
  const MAX_FRAMES := 0x4001

  // ---------------------------------------------------------------- the number of reports

  function ReportCount(n: nat): nat {
    1 + if n <= FIRST_DATA_SIZE then 0 else (n - FIRST_DATA_SIZE + OUT_DATA_SIZE - 1) / OUT_DATA_SIZE
  }

  lemma {:induction false} ContCount(chunk: bytes, off: nat)
    requires off <= |chunk|
    ensures |ContReports(chunk, off)| == (|chunk| - off + OUT_DATA_SIZE - 1) / OUT_DATA_SIZE
    decreases |chunk| - off
  {
    if off < |chunk| { ContCount(chunk, off + Min(|chunk| - off, OUT_DATA_SIZE)); }
  }

  /** A chunk of n bytes takes one report, and one more for every 19 bytes beyond the first 5. */
  lemma FrameReportCount(f: Frame)
    ensures |FrameReports(f)| == ReportCount(|f.chunk|)
  {
    ContCount(f.chunk, Min(|f.chunk|, FIRST_DATA_SIZE));
  }

  // ---------------------------------------------------------------- reading reports back

  /** The next `n` data bytes, and the reports after them. */
  function DecodeConts(rs: seq<bytes>, n: nat): Option<(bytes, seq<bytes>)>
    decreases n
  {
    if n == 0 then Some(([], rs))
    else if rs == [] || |rs[0]| != OUT_SIZE || rs[0][0] != REPORT_OUT_ID then None
    else
      var m := Min(n, OUT_DATA_SIZE);
      match DecodeConts(rs[1..], n - m)
      case None => None
      case Some((data, rest)) => Some((rs[0][1..1 + m] + data, rest))
  }

  predicate IsHeader(r: bytes) {
    |r| == OUT_SIZE && r[0] == REPORT_OUT_ID && r[1..9] == MAGIC && FromLE(r[9..13]) >= 2
  }

  function DecodeFrame(rs: seq<bytes>): Option<(Frame, seq<bytes>)> {
    if rs == [] || !IsHeader(rs[0]) then None
    else
      var n := FromLE(rs[0][9..13]) - 2;
      var m := Min(n, FIRST_DATA_SIZE);
      match DecodeConts(rs[1..], n - m)
      case None => None
      case Some((data, rest)) => Some((Frame(rs[0][15..15 + m] + data, FromLE(rs[0][13..15])), rest))
  }

  lemma {:induction false} ContsShrink(rs: seq<bytes>, n: nat)
    ensures DecodeConts(rs, n).Some? ==> |DecodeConts(rs, n).value.1| <= |rs|
    decreases n
  {
    if n > 0 && rs != [] { ContsShrink(rs[1..], n - Min(n, OUT_DATA_SIZE)); }
  }

  function DecodeFrames(rs: seq<bytes>): Option<seq<Frame>>
    decreases |rs|
  {
    if rs == [] then Some([])
    else
      match DecodeFrame(rs)
      case None => None
      case Some((f, rest)) =>
        ContsShrink(rs[1..], FromLE(rs[0][9..13]) - 2 - Min(FromLE(rs[0][9..13]) - 2, FIRST_DATA_SIZE));
        match DecodeFrames(rest)
        case None => None
        case Some(fs) => Some([f] + fs)
  }

  lemma PartBack(part: bytes)
    requires |part| <= OUT_DATA_SIZE
    ensures var r := ContReport(part); r[0] == REPORT_OUT_ID && r[1..1 + |part|] == part
  {
  }

  lemma ContsNext(chunk: bytes, off: nat, rest: seq<bytes>)
    requires off < |chunk|
    ensures var n := Min(|chunk| - off, OUT_DATA_SIZE);
      var rs := ContReports(chunk, off) + rest;
      && rs != [] && rs[0] == ContReport(chunk[off..off + n]) && rs[1..] == ContReports(chunk, off + n) + rest
  {
  }

  lemma {:induction false} ContsBack(chunk: bytes, off: nat, rest: seq<bytes>)
    requires off <= |chunk|
    ensures DecodeConts(ContReports(chunk, off) + rest, |chunk| - off) == Some((chunk[off..], rest))
    decreases |chunk| - off
  {
    hide ContReport;
    if off == |chunk| {
      assert ContReports(chunk, off) + rest == rest;
    } else {
      var n := Min(|chunk| - off, OUT_DATA_SIZE);
      var rs := ContReports(chunk, off) + rest;
      ContsNext(chunk, off, rest);
      PartBack(chunk[off..off + n]);
      ContsBack(chunk, off + n, rest);
      assert chunk[off..off + n] + chunk[off + n..] == chunk[off..];
    }
  }

  lemma HeaderFields(chunk: bytes, framing: nat)
    requires 2 + |chunk| < Pow256(4) && framing < Pow256(2)
    ensures var r := FirstReport(chunk, framing);
      && IsHeader(r) && FromLE(r[9..13]) == 2 + |chunk| && FromLE(r[13..15]) == framing
      && r[15..15 + Min(|chunk|, FIRST_DATA_SIZE)] == chunk[..Min(|chunk|, FIRST_DATA_SIZE)]
  {
    var r := FirstReport(chunk, framing);
    assert r[1..9] == MAGIC;
    assert r[9..13] == ToLE(2 + |chunk|, 4);
    assert r[13..15] == ToLE(framing, 2);
    FromToLE(2 + |chunk|, 4);
    FromToLE(framing, 2);
  }

  lemma FrameBack(f: Frame, rest: seq<bytes>)
    requires 2 + |f.chunk| < Pow256(4) && f.framing < Pow256(2)
    ensures DecodeFrame(FrameReports(f) + rest) == Some((f, rest))
  {
    var m := Min(|f.chunk|, FIRST_DATA_SIZE);
    var rs := FrameReports(f) + rest;
    HeaderFields(f.chunk, f.framing);
    assert rs[0] == FirstReport(f.chunk, f.framing) && rs[1..] == ContReports(f.chunk, m) + rest;
    ContsBack(f.chunk, m, rest);
    assert f.chunk[..m] + f.chunk[m..] == f.chunk;
  }

  ghost predicate Encodable(fs: seq<Frame>) {
    forall i {:trigger fs[i]} :: 0 <= i < |fs| ==> 2 + |fs[i].chunk| < Pow256(4) && fs[i].framing < Pow256(2)
  }

  lemma {:induction false} FramesBack(fs: seq<Frame>)
    requires Encodable(fs)
    ensures DecodeFrames(Reports(fs)) == Some(fs)
  {
    if fs != [] {
      FramesBack(fs[1..]);
      FrameBack(fs[0], Reports(fs[1..]));
      assert [fs[0]] + fs[1..] == fs;
    }
  }

  // ---------------------------------------------------------------- frames and payloads

  datatype Kind = Single | First | Last | Middle(index: nat)

  /** What a framing code says. */
  function KindOf(code: nat): Kind {
    if code == FRAME_SINGLE then Single
    else if code == FRAME_FIRST then First
    else if code == FRAME_LAST then Last
    else Middle(code)
  }

  /** What frame `i` of `n` is. */
  function KindAt(i: nat, n: nat): Kind {
    if n == 1 then Single else if i == 0 then First else if i == n - 1 then Last else Middle(i)
  }

  /** A receiver of frames: between messages, or inside one with `n` frames so far. */
  datatype Receiver = Idle | Inside(data: bytes, n: nat)

  function Cons(p: bytes, ps: Option<seq<bytes>>): Option<seq<bytes>> {
    if ps.None? then None else Some([p] + ps.value)
  }

  /** The messages of a stream of frames. Only the codes tell where one ends and the next begins; a code
      that does not fit what came before, or a stream that ends inside a message, is an error. */
  function Messages(fs: seq<Frame>, r: Receiver): Option<seq<bytes>>
    decreases |fs|
  {
    if fs == [] then if r == Idle then Some([]) else None
    else
      match (KindOf(fs[0].framing), r)
      case (Single, Idle) => Cons(fs[0].chunk, Messages(fs[1..], Idle))
      case (First, Idle) => Messages(fs[1..], Inside(fs[0].chunk, 1))
      case (Middle(index), Inside(data, n)) =>
        if index == n then Messages(fs[1..], Inside(data + fs[0].chunk, n + 1)) else None
      case (Last, Inside(data, n)) => Cons(data + fs[0].chunk, Messages(fs[1..], Idle))
      case _ => None
  }

  function Decode(rs: seq<bytes>): Option<seq<bytes>> {
    match DecodeFrames(rs)
    case None => None
    case Some(fs) => Messages(fs, Idle)
  }

  lemma {:induction false} FramesShape(data: bytes, off: nat, idx: nat)
    requires off <= |data|
    ensures var fs := FramesFrom(data, off, idx);
      && |fs| == (|data| - off + MAX_FRAG - 1) / MAX_FRAG
      && (forall i {:trigger fs[i]} :: 0 <= i < |fs| ==>
            |fs[i].chunk| <= MAX_FRAG && fs[i].framing == FramingCode(idx + i, i == |fs| - 1))
    decreases |data| - off
  {
    if off < |data| {
      var end := Min(off + MAX_FRAG, |data|);
      var fs, rest := FramesFrom(data, off, idx), FramesFrom(data, end, idx + 1);
      FramesShape(data, end, idx + 1);
      assert fs[1..] == rest;
      assert rest == [] <==> end == |data|;
      forall i {:trigger fs[i]} | 1 <= i < |fs|
        ensures |fs[i].chunk| <= MAX_FRAG && fs[i].framing == FramingCode(idx + i, i == |fs| - 1)
      {
        assert fs[i] == rest[i - 1];
      }
    }
  }

  /** The codes tell first, middle, last and single frames apart exactly up to 0x4001 frames. */
  lemma CodesUnambiguousIff(n: nat)
    requires n >= 2
    ensures (forall i :: 0 <= i < n ==> KindOf(FramingCode(i, i == n - 1)) == KindAt(i, n)) <==> n <= MAX_FRAMES
  {
    if n > MAX_FRAMES {
      assert KindOf(FramingCode(FRAME_FIRST, false)) != KindAt(FRAME_FIRST, n);
    }
  }

  /** The frames after the first one: the message ends where the payload ends, or the receiver meets frame
      0x4000, which looks like a first one. */
  lemma {:induction false} RestOfMessage(data: bytes, off: nat, idx: nat, more: seq<Frame>)
    requires off < |data| && 1 <= idx <= FRAME_FIRST
    ensures var fs := FramesFrom(data, off, idx);
      Messages(fs + more, Inside(data[..off], idx)) ==
        if idx + |fs| <= MAX_FRAMES then Cons(data, Messages(more, Idle)) else None
    decreases |data| - off
  {
    var end := Min(off + MAX_FRAG, |data|);
    var fs, rest := FramesFrom(data, off, idx), FramesFrom(data, end, idx + 1);
    assert fs == [fs[0]] + rest && (fs + more)[1..] == rest + more && (fs + more)[0] == fs[0];
    assert data[..off] + data[off..end] == data[..end];
    if end == |data| {
      assert rest + more == more;
      assert data[..end] == data;
    } else {
      assert rest != [];
      if idx < FRAME_FIRST { RestOfMessage(data, end, idx + 1, more); }
    }
  }

  /** A payload at the front of a stream of frames. */
  lemma OneMessage(data: bytes, more: seq<Frame>)
    ensures Messages(FramesOf(data) + more, Idle) ==
      if |FramesOf(data)| <= MAX_FRAMES then Cons(data, Messages(more, Idle)) else None
  {
    var fs := FramesOf(data);
    assert (fs + more)[0] == fs[0] && (fs + more)[1..] == fs[1..] + more;
    if |data| <= MAX_FRAG {
      assert fs[1..] + more == more;
    } else {
      assert fs[1..] == FramesFrom(data, MAX_FRAG, 1);
      assert data[..MAX_FRAG] == data[0..MAX_FRAG] == fs[0].chunk;
      RestOfMessage(data, MAX_FRAG, 1, more);
    }
  }

  // ---------------------------------------------------------------- several payloads

  /** The frames of payloads sent one after the other. */
  function AllFrames(ps: seq<bytes>): seq<Frame> {
    if ps == [] then [] else FramesOf(ps[0]) + AllFrames(ps[1..])
  }

  /** What is written for them. */
  function Sent(ps: seq<bytes>): seq<bytes> {
    if ps == [] then [] else Reports(FramesOf(ps[0])) + Sent(ps[1..])
  }

  ghost predicate AllFit(ps: seq<bytes>) {
    forall i {:trigger ps[i]} :: 0 <= i < |ps| ==> |FramesOf(ps[i])| <= MAX_FRAMES
  }

  lemma {:induction false} AllMessages(ps: seq<bytes>)
    ensures Messages(AllFrames(ps), Idle) == if AllFit(ps) then Some(ps) else None
  {
    hide FramesOf;
    if ps != [] {
      AllMessages(ps[1..]);
      OneMessage(ps[0], AllFrames(ps[1..]));
      assert AllFit(ps) <==> |FramesOf(ps[0])| <= MAX_FRAMES && AllFit(ps[1..]) by {
        assert forall i {:trigger ps[1..][i]} :: 0 <= i < |ps| - 1 ==> ps[1..][i] == ps[i + 1];
        assert forall i {:trigger ps[i]} :: 1 <= i < |ps| ==> ps[i] == ps[1..][i - 1];
      }
      assert [ps[0]] + ps[1..] == ps;
    }
  }

  lemma {:induction false} ReportsAppend(a: seq<Frame>, b: seq<Frame>)
    ensures Reports(a + b) == Reports(a) + Reports(b)
  {
    hide FrameReports;
    if a == [] {
      assert a + b == b;
    } else {
      ReportsAppend(a[1..], b);
      var ab := a + b;
      assert ab[0] == a[0] && ab[1..] == a[1..] + b;
      assert Reports(ab) == FrameReports(a[0]) + (Reports(a[1..]) + Reports(b));
    }
  }

  lemma FramesFit(data: bytes)
    ensures Encodable(FramesOf(data))
  {
    assert Pow256(2) == 256 * (256 * Pow256(0));
    assert Pow256(4) == 256 * (256 * Pow256(2));
    if |data| > MAX_FRAG { FramesShape(data, 0, 0); }
  }

  lemma {:induction false} SentIsFrames(ps: seq<bytes>)
    ensures Sent(ps) == Reports(AllFrames(ps)) && Encodable(AllFrames(ps))
  {
    hide FramesOf;
    if ps != [] {
      SentIsFrames(ps[1..]);
      FramesFit(ps[0]);
      ReportsAppend(FramesOf(ps[0]), AllFrames(ps[1..]));
    }
  }

  /** Payloads sent one after the other are read back as that list exactly if each takes at most 0x4001
      frames; otherwise the stream is in error. */
  lemma StreamRoundTripIff(ps: seq<bytes>)
    ensures Decode(Sent(ps)) == Some(ps) <==> AllFit(ps)
    ensures Decode(Sent(ps)) == None <==> !AllFit(ps)
  {
    hide AllFit;
    SentIsFrames(ps);
    FramesBack(AllFrames(ps));
    AllMessages(ps);
  }

  /** In bytes: payloads up to 0x4001 * 248 bytes. */
  lemma StreamRoundTripIffShort(ps: seq<bytes>)
    ensures Decode(Sent(ps)) == Some(ps) <==> forall i {:trigger ps[i]} :: 0 <= i < |ps| ==> |ps[i]| <= MAX_FRAMES * MAX_FRAG
  {
    StreamRoundTripIff(ps);
    hide FramesOf;
    forall p: bytes ensures |FramesOf(p)| <= MAX_FRAMES <==> |p| <= MAX_FRAMES * MAX_FRAG { FrameCount(p); }
  }

  lemma FrameCount(data: bytes)
    ensures |FramesOf(data)| <= MAX_FRAMES <==> |data| <= MAX_FRAMES * MAX_FRAG
  {
    FramesShape(data, 0, 0);
  }

  /** One payload. */
  lemma RoundTripIff(data: bytes)
    ensures Decode(Reports(FramesOf(data))) == Some([data]) <==> |data| <= MAX_FRAMES * MAX_FRAG
  {
    hide FramesOf;
    assert Sent([data]) == Reports(FramesOf(data)) + [] == Reports(FramesOf(data));
    StreamRoundTripIffShort([data]);
  }
}
