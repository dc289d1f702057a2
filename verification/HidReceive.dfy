/** Reassembly of a sensor response from HID input reports (`hid_recv_vcsfw` in hid.c). */
module HidReceive {
  import opened Bytes
  import opened Wrappers
  import HidFrames

  const REPORT_IN_ID: byte := 0x0F
  const REPORT_STATUS_ID: byte := 0x10
  const IN_SIZE := 64
  const HEADER_SIZE := 17

  /** What poll and read bring: an error, a timeout, a short read, or a report. */
  datatype Event = PollError | Timeout | ShortRead | Report(data: bytes)

  /** A report as read returns it: more than one byte, at most 64. */
  predicate Readable(e: Event) {
    e.Report? ==> 1 < |e.data| <= IN_SIZE
  }

  predicate AllReadable(events: seq<Event>) {
    forall k {:trigger events[k]} :: 0 <= k < |events| ==> Readable(events[k])
  }

  predicate Foreign(r: bytes)
    requires |r| > 1
  {
    r[0] != REPORT_IN_ID && r[0] != REPORT_STATUS_ID
  }

  predicate IsHeader(r: bytes) {
    |r| >= HEADER_SIZE && r[1..9] == HidFrames.MAGIC
  }

  /** The payload length of the header, once there is one, and all data carried since. */
  datatype Rx = Rx(payloadLen: Option<nat>, data: bytes)

  function Min3(a: nat, b: nat, c: nat): nat {
    HidFrames.Min(a, HidFrames.Min(b, c))
  }

  /** How many bytes are in the buffer: as many as were carried, announced and fit. */
  function Total(rx: Rx, bufSize: nat): nat {
    if rx.payloadLen.None? then 0 else Min3(|rx.data|, rx.payloadLen.value, bufSize)
  }

  predicate Complete(rx: Rx, bufSize: nat) {
    rx.payloadLen.Some? && Total(rx, bufSize) >= rx.payloadLen.value
  }

  function Accept(rx: Rx, r: bytes): Rx
    requires |r| > 1
  {
    if Foreign(r) then rx
    else if rx.payloadLen.None? then
      if IsHeader(r) then Rx(Some(FromLE(r[13..17])), r[HEADER_SIZE..]) else rx
    else Rx(rx.payloadLen, rx.data + r[1..])
  }

  /** The result of the loop from event `i` on, and what it had received by then; a stream that has
      run dry is a timeout. -1 stands for an error. */
  function Outcome(events: seq<Event>, i: nat, rx: Rx, bufSize: nat): (int, Rx)
    requires i <= |events| && AllReadable(events)
    decreases |events| - i
  {
    if i == |events| || events[i].Timeout? || events[i].ShortRead? then
      (if Total(rx, bufSize) > 0 then Total(rx, bufSize) else -1, rx)
    else if events[i].PollError? then (-1, rx)
    else
      var rx' := Accept(rx, events[i].data);
      if Complete(rx', bufSize) then (Total(rx', bufSize), rx') else Outcome(events, i + 1, rx', bufSize)
  }

  const EMPTY := Rx(None, [])

  /** `hid_recv_vcsfw`: at every moment the buffer starts with the data carried so far, cut off at the
      announced length and the end of the buffer. */
  method RecvVcsfw(events: seq<Event>, buf: array<byte>) returns (r: int, ghost rx: Rx)
    requires AllReadable(events)
    modifies buf
    ensures (r, rx) == Outcome(events, 0, EMPTY, buf.Length)
    ensures r > 0 ==> r <= buf.Length && r <= |rx.data| && buf[..r] == rx.data[..r]
  {
    var total, payloadLen, gotHeader := 0, 0, false;
    rx := EMPTY;
    var i := 0;
    while i < |events|
      invariant i <= |events| && Outcome(events, i, rx, buf.Length) == Outcome(events, 0, EMPTY, buf.Length)
      invariant Holds(rx, gotHeader, payloadLen, total, buf[..]) && !Complete(rx, buf.Length)
    {
      var e := events[i];
      if e.PollError? { return -1, rx; }
      if e.Timeout? || e.ShortRead? { break; }
      ghost var before := rx;
      rx := Accept(rx, e.data);
      i := i + 1;
      if Foreign(e.data) { continue; }
      if !gotHeader && IsHeader(e.data) {
        gotHeader := true;
        payloadLen := FromLE(e.data[13..17]);
        total := TakeHeader(e.data, payloadLen, buf, rx);
        if total >= payloadLen { return total, rx; }
      } else if gotHeader {
        total := TakeMore(e.data, payloadLen, total, buf, before);
        if total >= payloadLen { return total, rx; }
      }
    }
    return if total > 0 then total else -1, rx;
  }

  /** The variables of the loop agree with what was received. */
  ghost predicate Holds(rx: Rx, gotHeader: bool, payloadLen: nat, total: nat, buf: bytes) {
    && (gotHeader <==> rx.payloadLen.Some?) && (gotHeader ==> payloadLen == rx.payloadLen.value)
    && total == Total(rx, |buf|) && total <= |buf| && total <= |rx.data| && buf[..total] == rx.data[..total]
  }

  method TakeHeader(report: bytes, payloadLen: nat, buf: array<byte>, ghost rx: Rx) returns (total: nat)
    requires |report| >= HEADER_SIZE && rx == Rx(Some(payloadLen), report[HEADER_SIZE..])
    modifies buf
    ensures Holds(rx, true, payloadLen, total, buf[..])
  {
    var copy := |report| - HEADER_SIZE;
    if copy > payloadLen { copy := payloadLen; }
    if copy > buf.Length { copy := buf.Length; }
    forall k | 0 <= k < copy {
      buf[k] := report[HEADER_SIZE + k];
    }
    total := copy;
    assert buf[..total] == rx.data[..total];
  }

  method TakeMore(report: bytes, payloadLen: nat, had: nat, buf: array<byte>, ghost rx: Rx) returns (total: nat)
    requires |report| > 1 && Holds(rx, true, payloadLen, had, buf[..]) && had <= payloadLen
    modifies buf
    ensures Holds(Rx(rx.payloadLen, rx.data + report[1..]), true, payloadLen, total, buf[..])
  {
    var avail, remaining := |report| - 1, payloadLen - had;
    var copy := if avail < remaining then avail else remaining;
    if copy > buf.Length - had { copy := buf.Length - had; }
    ghost var was, data := buf[..], rx.data + report[1..];
    forall k | 0 <= k < copy {
      buf[had + k] := report[1 + k];
    }
    total := had + copy;
    forall k | 0 <= k < total ensures buf[k] == data[k] {
      if k < had {
        assert buf[k] == was[k] == was[..had][k] == rx.data[..had][k];
      } else {
        assert had == |rx.data| || copy == 0;
      }
    }
    assert buf[..total] == data[..total];
  }

  // ---------------------------------------------------------------- a response that arrives

  /** `events` are `reports`, with reports of other ids anywhere in between and anything after them. */
  ghost predicate Interleaved(events: seq<Event>, i: nat, reports: seq<bytes>)
    requires i <= |events| && AllReadable(events)
    decreases |events| - i
  {
    reports == [] ||
    (i < |events| && events[i].Report?
     && if Foreign(events[i].data) then Interleaved(events, i + 1, reports)
        else events[i].data == reports[0] && Interleaved(events, i + 1, reports[1..]))
  }

  /** The data of continuation reports. */
  function Carried(reports: seq<bytes>): bytes
    requires forall i :: 0 <= i < |reports| ==> |reports[i]| > 1
  {
    if reports == [] then [] else reports[0][1..] + Carried(reports[1..])
  }

  /** After the header: the rest arrives, and the loop ends as soon as the payload is complete. */
  lemma {:induction false} RestArrives(events: seq<Event>, i: nat, conts: seq<bytes>, rx: Rx, bufSize: nat)
    requires i <= |events| && AllReadable(events)
    requires forall k :: 0 <= k < |conts| ==> |conts[k]| > 1
    requires rx.payloadLen.Some? && !Complete(rx, bufSize) && Interleaved(events, i, conts)
    requires rx.payloadLen.value <= bufSize && |rx.data| + |Carried(conts)| >= rx.payloadLen.value
    ensures var (r, end) := Outcome(events, i, rx, bufSize);
      && r == rx.payloadLen.value <= |end.data| && r <= |rx.data + Carried(conts)|
      && end.data[..r] == (rx.data + Carried(conts))[..r]
    decreases |events| - i
  {
    var e := events[i];
    var rx' := Accept(rx, e.data);
    if Foreign(e.data) {
      RestArrives(events, i + 1, conts, rx, bufSize);
    } else {
      assert rx'.data + Carried(conts[1..]) == rx.data + Carried(conts);
      if !Complete(rx', bufSize) {
        RestArrives(events, i + 1, conts[1..], rx', bufSize);
      } else {
        var r := rx.payloadLen.value;
        assert rx'.data[..r] == (rx'.data + Carried(conts[1..]))[..r];
      }
    }
  }

  /** A response whose header announces `payloadLen` bytes is returned whole when the buffer is large
      enough and the data arrives, whatever other reports come in between. */
  lemma {:induction false} ResponseArrives(events: seq<Event>, i: nat, header: bytes, conts: seq<bytes>, bufSize: nat)
    requires i <= |events| && AllReadable(events)
    requires |header| > 1 && !Foreign(header) && IsHeader(header) && forall k :: 0 <= k < |conts| ==> |conts[k]| > 1
    requires Interleaved(events, i, [header] + conts)
    requires FromLE(header[13..17]) <= bufSize
    requires |header[HEADER_SIZE..]| + |Carried(conts)| >= FromLE(header[13..17])
    ensures var (r, end) := Outcome(events, i, EMPTY, bufSize);
      var all := header[HEADER_SIZE..] + Carried(conts);
      && r == FromLE(header[13..17]) <= |end.data| && r <= |all| && end.data[..r] == all[..r]
    decreases |events| - i
  {
    var e := events[i];
    if Foreign(e.data) {
      ResponseArrives(events, i + 1, header, conts, bufSize);
    } else {
      assert ([header] + conts)[1..] == conts;
      var rx := Accept(EMPTY, header);
      if !Complete(rx, bufSize) {
        RestArrives(events, i + 1, conts, rx, bufSize);
      } else {
        var r := FromLE(header[13..17]);
        assert rx.data[..r] == (rx.data + Carried(conts))[..r];
      }
    }
  }

  // ---------------------------------------------------------------- a response that does not arrive whole

  /** The events from `i` up to `j` are `reports`, with reports of other ids anywhere in between. */
  ghost predicate Brings(events: seq<Event>, i: nat, j: nat, reports: seq<bytes>)
    requires i <= j <= |events| && AllReadable(events)
    decreases j - i
  {
    if i == j then reports == []
    else
      events[i].Report?
      && if Foreign(events[i].data) then Brings(events, i + 1, j, reports)
         else reports != [] && events[i].data == reports[0] && Brings(events, i + 1, j, reports[1..])
  }

  /** The loop ends at `j`: the stream has run dry, or something other than a report comes. */
  predicate Stops(events: seq<Event>, j: nat) {
    j >= |events| || !events[j].Report?
  }

  /** An error loses what had been received; a timeout or a short read returns as much of it as was announced
      and fits, if that is anything. */
  function Stopped(events: seq<Event>, j: nat, received: nat): int {
    if (j < |events| && events[j].PollError?) || received == 0 then -1 else received
  }

  lemma {:induction false} RestStops(events: seq<Event>, i: nat, j: nat, conts: seq<bytes>, rx: Rx, bufSize: nat)
    requires i <= j <= |events| && AllReadable(events) && Brings(events, i, j, conts) && Stops(events, j)
    requires forall k :: 0 <= k < |conts| ==> |conts[k]| > 1
    requires rx.payloadLen.Some?
    requires bufSize < rx.payloadLen.value || |rx.data| + |Carried(conts)| < rx.payloadLen.value
    ensures var all := rx.data + Carried(conts);
      Outcome(events, i, rx, bufSize) ==
        (Stopped(events, j, Min3(|all|, rx.payloadLen.value, bufSize)), Rx(rx.payloadLen, all))
    decreases j - i
  {
    if i == j {
      assert rx.data + Carried(conts) == rx.data;
    } else if Foreign(events[i].data) {
      RestStops(events, i + 1, j, conts, rx, bufSize);
    } else {
      var rx' := Accept(rx, events[i].data);
      assert rx'.data + Carried(conts[1..]) == rx.data + Carried(conts);
      RestStops(events, i + 1, j, conts[1..], rx', bufSize);
    }
  }

  /** A response that breaks off, or does not fit the buffer: what was received of it is returned when the stream
      falls silent, and lost when it fails. */
  lemma {:induction false} ResponseBreaksOff(events: seq<Event>, i: nat, j: nat, header: bytes, conts: seq<bytes>, bufSize: nat)
    requires i <= j <= |events| && AllReadable(events) && Stops(events, j)
    requires |header| > 1 && !Foreign(header) && IsHeader(header) && forall k :: 0 <= k < |conts| ==> |conts[k]| > 1
    requires Brings(events, i, j, [header] + conts)
    requires var n := FromLE(header[13..17]); bufSize < n || |header[HEADER_SIZE..]| + |Carried(conts)| < n
    ensures var all, n := header[HEADER_SIZE..] + Carried(conts), FromLE(header[13..17]);
      Outcome(events, i, EMPTY, bufSize) == (Stopped(events, j, Min3(|all|, n, bufSize)), Rx(Some(n), all))
    decreases j - i
  {
    assert ([header] + conts)[1..] == conts;
    if Foreign(events[i].data) {
      ResponseBreaksOff(events, i + 1, j, header, conts, bufSize);
    } else {
      RestStops(events, i + 1, j, conts, Accept(EMPTY, header), bufSize);
    }
  }

  /** Without a header nothing is received, whatever else comes. */
  lemma {:induction false} NoHeader(events: seq<Event>, i: nat, j: nat, reports: seq<bytes>, bufSize: nat)
    requires i <= j <= |events| && AllReadable(events) && Brings(events, i, j, reports) && Stops(events, j)
    requires forall k :: 0 <= k < |reports| ==> !IsHeader(reports[k])
    ensures Outcome(events, i, EMPTY, bufSize) == (-1, EMPTY)
    decreases j - i
  {
    if i < j {
      if Foreign(events[i].data) { NoHeader(events, i + 1, j, reports, bufSize); }
      else { NoHeader(events, i + 1, j, reports[1..], bufSize); }
    }
  }

  // ---------------------------------------------------------------- the sensor's side

  /** The reports in which a response is sent: a header with both lengths, then 63 bytes a report. */
  function Response(payload: bytes): seq<bytes> {
    var n := HidFrames.Min(|payload|, IN_SIZE - HEADER_SIZE);
    [[REPORT_IN_ID] + HidFrames.MAGIC + ToLE(4 + |payload|, 4) + ToLE(|payload|, 4) + payload[..n]] + Rest(payload, n)
  }

  function Rest(payload: bytes, off: nat): (rs: seq<bytes>)
    requires off <= |payload|
    ensures forall i :: 0 <= i < |rs| ==> |rs[i]| > 1
    decreases |payload| - off
  {
    if off == |payload| then []
    else
      var n := HidFrames.Min(|payload| - off, IN_SIZE - 1);
      [[REPORT_IN_ID] + payload[off..off + n]] + Rest(payload, off + n)
  }

  lemma {:induction false} RestCarries(payload: bytes, off: nat)
    requires off <= |payload|
    ensures Carried(Rest(payload, off)) == payload[off..]
    decreases |payload| - off
  {
    if off < |payload| {
      var n := HidFrames.Min(|payload| - off, IN_SIZE - 1);
      RestCarries(payload, off + n);
      var r := [REPORT_IN_ID] + payload[off..off + n];
      assert r[1..] == payload[off..off + n] && payload[off..off + n] + payload[off + n..] == payload[off..];
      assert Rest(payload, off)[1..] == Rest(payload, off + n);
    }
  }

  /** Round trip: a response sent by the sensor is received byte for byte. */
  lemma ResponseRoundTrip(events: seq<Event>, payload: bytes, bufSize: nat)
    requires AllReadable(events)
    requires Interleaved(events, 0, Response(payload)) && 4 + |payload| < Pow256(4) && |payload| <= bufSize
    ensures var (r, end) := Outcome(events, 0, EMPTY, bufSize);
      r == |payload| <= |end.data| && end.data[..r] == payload
  {
    var n := HidFrames.Min(|payload|, IN_SIZE - HEADER_SIZE);
    var header := Response(payload)[0];
    assert header[1..9] == HidFrames.MAGIC && header[13..17] == ToLE(|payload|, 4) && header[17..] == payload[..n];
    FromToLE(|payload|, 4);
    RestCarries(payload, n);
    assert payload[..n] + payload[n..] == payload;
    ResponseArrives(events, 0, header, Rest(payload, n), bufSize);
  }
}
