/**
 The host's side of the IPC protocol (handler.c) over the enrolment and identification of device.c.

 HostSpec states what a message and a finished capture do to the host as functions; HostHandler
 is the code that changes its fields, proved against them. HostProofs reasons about whole runs.

 The adapters of the driver answer as they like: their answers are inputs of the steps.
 */
module HostSpec {
  import opened Bytes
  import opened Wrappers

  type Guid = nat
  type Finger = nat

  const MAX_CONSECUTIVE_CAPTURE_FAILS := 3
  const IPC_MAX_RECORD_SIZE := 98304
  const STATUS_SUCCESS := 0

  /** The HRESULTs the code tells apart. */
  datatype HResult = Success | BadCapture | MoreData | UnknownId | DuplicateEnrollment | OtherError

  datatype Identity = Identity(guid: Guid, finger: Finger)

  const NO_IDENTITY: Identity := Identity(0, 0)

  /** How one capture ends: the status of the request, then the answers of the sensor and engine
      adapters, asked in this order. `feature` is UpdateEnrollment or IdentifyFeatureSet. */
  datatype Capture = Capture(status: nat, finish: HResult, push: HResult, feature: HResult, identity: Option<Identity>)

  /** struct tudor_record. */
  datatype Template = Template(guid: Guid, finger: Finger, data: bytes)

  /** CheckForDuplicate, CommitEnrollment, and the device's list of records after them. */
  datatype Commit = Commit(check: HResult, isDuplicate: bool, commit: HResult, records: seq<Template>)

  /** All answers one completion callback may need; `discard` and `restart` are whether all adapter
      calls of tudor_enroll_discard and the next StartCapture succeed. `stale` is what the fields of the
      action's union hold for the identity when the capture does not write them. */
  datatype Finish = Finish(capture: Capture, commit: Commit, discard: bool, restart: bool, stale: Identity)

  datatype Msg =
    | Shutdown | Probe | Cancel | AddRecord | DelRecord | ClearRecords
    | Enroll(guid: Guid, finger: Finger) | Verify(guid: Guid, finger: Finger) | Identify | Unknown

  datatype Reply =
    | Ack | RespProbe
    | RespEnroll(retry: bool, done: bool, duplicate: bool, record: bytes)
    | RespVerify(retry: bool, didMatch: bool)
    | RespIdentify(retry: bool, didMatch: bool, identity: Identity)

  /** The callback that was registered for the capture in flight. */
  datatype Callback = EnrollCb | VerifyCb | IdentifyCb

  datatype Phase = Running | ShutDown | Aborted | Exited

  datatype Device = Device(enrolling: bool, overrideTemplateCount: bool, enrollGuid: Guid, enrollFinger: Finger)

  /** struct handler_state; `asyncRes` is set while a capture is in flight. */
  datatype Handler = Handler(asyncRes: Option<Callback>, asyncCancelled: bool, captureFails: nat)

  /** `ackDue`: the handler thread is inside handle_msg, between the registration of the callback
      and the final send_ack. Callbacks that find their capture complete run before that ACK. */
  datatype Host = Host(dev: Device, st: Handler, phase: Phase, ackDue: bool, sent: seq<Reply>)

  function Opened(): Host {
    Host(Device(false, false, 0, 0), Handler(None, false, 0), Running, false, [])
  }

  // ---------------------------------------------------------------- device.c

  datatype EnrollResult = EnrollResult(success: bool, done: bool)

  /** `enroll_cb` of device.c. */
  function EnrollOutcome(c: Capture): EnrollResult {
    if c.status != STATUS_SUCCESS || c.finish != Success || c.push != Success then EnrollResult(false, false)
    else if c.feature == Success then EnrollResult(true, true)
    else EnrollResult(c.feature == MoreData, false)
  }

  datatype IdentifyResult = IdentifyResult(success: bool, retry: bool, found: Option<Identity>)

  /** `identify_cb` of device.c. */
  function IdentifyOutcome(c: Capture): IdentifyResult {
    if c.status != STATUS_SUCCESS then IdentifyResult(false, false, None)
    else if c.finish != Success then IdentifyResult(false, c.finish == BadCapture, None)
    else if c.push != Success then IdentifyResult(false, c.push == BadCapture, None)
    else if c.feature == UnknownId then IdentifyResult(true, false, None)
    else if c.feature != Success then IdentifyResult(false, c.feature == BadCapture, None)
    else IdentifyResult(c.identity.Some?, false, c.identity)
  }

  datatype CommitResult = Committed | Duplicate | CommitFailed

  function CommitOutcome(dev: Device, c: Commit): CommitResult {
    if !dev.enrolling || c.check != Success then CommitFailed
    else if c.isDuplicate || c.commit == DuplicateEnrollment then Duplicate
    else if c.commit != Success then CommitFailed
    else Committed
  }

  function NotEnrolling(dev: Device): Device {
    dev.(enrolling := false, overrideTemplateCount := false)
  }

  /** `tudor_enroll_discard`; it fails without an enrolment, and when an adapter fails. */
  function Discarded(dev: Device, ok: bool): Device {
    if dev.enrolling && ok then NotEnrolling(dev) else dev
  }

  // ---------------------------------------------------------------- handler.c

  function Fail(h: Host): Host {
    h.(phase := Aborted)
  }

  function Send(h: Host, r: Reply): Host {
    h.(sent := h.sent + [r])
  }

  predicate StartsAction(m: Msg) {
    m.Enroll? || m.Verify? || m.Identify?
  }

  /** A message of the client, up to the ACK of a started action. `begin` and `capture` are whether
      the adapter calls that begin an enrolment and StartCapture succeed. */
  function Receive(h: Host, m: Msg, begin: bool, capture: bool): Host {
    match m
    case Cancel =>
      if h.st.asyncRes.Some? then h.(st := h.st.(asyncCancelled := true)) else Send(h, Ack)
    case Unknown => Fail(h)
    case _ =>
      if h.st.asyncRes.Some? then Fail(h)
      else match m
        case Shutdown => h.(phase := ShutDown)
        case Probe => Send(h, RespProbe)
        case Enroll(guid, finger) =>
          if h.dev.enrolling || !begin then Fail(h.(st := Fresh(h.st, None)))
          else
            var h1 := h.(dev := Device(true, true, guid, finger));
            if !capture then Fail(h1.(st := Fresh(h.st, None))) else h1.(st := Fresh(h.st, Some(EnrollCb)), ackDue := true)
        case Verify(_, _) => StartIdentify(h, VerifyCb, capture)
        case Identify => StartIdentify(h, IdentifyCb, capture)
        case _ => Send(h, Ack)
  }

  /** `init_action`, and the result of the capture that was started. */
  function Fresh(st: Handler, res: Option<Callback>): Handler {
    Handler(res, false, st.captureFails)
  }

  function StartIdentify(h: Host, cb: Callback, capture: bool): Host {
    if h.dev.enrolling || !capture then Fail(h.(st := Fresh(h.st, None)))
    else h.(st := Fresh(h.st, Some(cb)), ackDue := true)
  }

  /** The capture in flight completed and its callback runs. */
  function Complete(h: Host, f: Finish): Host
    requires h.st.asyncRes.Some?
  {
    var h1 := h.(st := h.st.(asyncRes := None));
    if h.st.asyncCancelled then
      var h2 := Send(h1, Ack);
      if h.st.asyncRes.value != EnrollCb then h2
      else if h.dev.enrolling && f.discard then h2.(dev := NotEnrolling(h.dev))
      else Fail(h2)
    else match h.st.asyncRes.value
      case EnrollCb => CompleteEnroll(h1, EnrollOutcome(f.capture), f)
      case VerifyCb => CompleteIdentify(h1, IdentifyOutcome(f.capture), VerifyCb, f.stale)
      case IdentifyCb => CompleteIdentify(h1, IdentifyOutcome(f.capture), IdentifyCb, f.stale)
  }

  /** The data of the first record of this guid and finger; none if there is no such record. The action's
      guid and finger are those that enroll_start stored in the device. */
  function RecordOf(records: seq<Template>, guid: Guid, finger: Finger): bytes {
    if records == [] then []
    else if records[0].guid == guid && records[0].finger == finger then records[0].data
    else RecordOf(records[1..], guid, finger)
  }

  function CompleteEnroll(h: Host, r: EnrollResult, f: Finish): Host {
    if !r.success && r.done then h.(dev := Discarded(h.dev, f.discard), phase := Exited)
    else if r.done then
      match CommitOutcome(h.dev, f.commit)
      case CommitFailed => Fail(h)
      case Duplicate => Send(h.(dev := Discarded(h.dev, f.discard)), RespEnroll(false, true, true, []))
      case Committed =>
        var h1 := h.(dev := NotEnrolling(h.dev));
        var record := RecordOf(f.commit.records, h.dev.enrollGuid, h.dev.enrollFinger);
        if |record| > IPC_MAX_RECORD_SIZE then Fail(h1) else Send(h1, RespEnroll(false, true, false, record))
    else if !h.dev.enrolling || !f.restart then Fail(h.(st := Fresh(h.st, None)))
    else Send(h.(st := Fresh(h.st, Some(EnrollCb))), RespEnroll(!r.success, false, false, []))
  }

  function CompleteIdentify(h: Host, r: IdentifyResult, cb: Callback, stale: Identity): Host {
    if r.success then Send(h.(st := h.st.(captureFails := 0)), IdentifyReply(cb, false, r.found, stale))
    else
      var fails := if r.retry then h.st.captureFails else h.st.captureFails + 1;
      var h1 := h.(st := h.st.(captureFails := fails));
      if !r.retry && fails > MAX_CONSECUTIVE_CAPTURE_FAILS then Fail(h1) else Send(h1, IdentifyReply(cb, true, None, NO_IDENTITY))
  }

  /** `rest` stands in the reply where there is no match. */
  function IdentifyReply(cb: Callback, retry: bool, found: Option<Identity>, rest: Identity): Reply {
    if cb == VerifyCb then RespVerify(retry, found.Some?)
    else RespIdentify(retry, found.Some?, if found.Some? then found.value else rest)
  }

  // ---------------------------------------------------------------- runs

  datatype Event =
    | Received(msg: Msg, begin: bool, capture: bool)
    | Acked
    | Completed(finish: Finish)

  predicate Enabled(h: Host, e: Event) {
    && h.phase == Running
    && match e
       case Received(_, _, _) => !h.ackDue
       case Acked => h.ackDue
       case Completed(_) => h.st.asyncRes.Some?
  }

  /** One atomic step; an event that cannot happen changes nothing. */
  function Step(h: Host, e: Event): Host {
    if !Enabled(h, e) then h
    else match e
      case Received(m, begin, capture) => Receive(h, m, begin, capture)
      case Acked => Send(h, Ack).(ackDue := false)
      case Completed(f) => Complete(h, f)
  }

  function Run(h: Host, es: seq<Event>): Host
    decreases |es|
  {
    if es == [] then h else Run(Step(h, es[0]), es[1..])
  }
}
