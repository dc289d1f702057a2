/**
 The message handler and its completion callbacks as code that changes struct handler_state and
 struct tudor_device. `abort` and `exit` end the process: they set `phase`, and the caller returns.

 A callback that is registered after its capture completed runs at once, inside the registering
 call. `early` lists how such captures end, in the order in which they are found complete.
 */
module HostHandler {
  import opened Bytes
  import opened Wrappers
  import opened HostSpec

  /** Callbacks that run one after the other, before any other event. */
  function RunEarly(h: Host, early: seq<Finish>): Host
    decreases |early|
  {
    if early == [] then h else RunEarly(Step(h, Completed(early[0])), early[1..])
  }

  function Completions(early: seq<Finish>): seq<Event> {
    seq(|early|, i requires 0 <= i < |early| => Completed(early[i]))
  }

  lemma {:induction false} EarlyIsRun(h: Host, early: seq<Finish>)
    ensures RunEarly(h, early) == Run(h, Completions(early))
    decreases |early|
  {
    if early != [] {
      EarlyIsRun(Step(h, Completed(early[0])), early[1..]);
      assert Completions(early)[1..] == Completions(early[1..]);
    }
  }

  /** A callback does nothing once no capture is in flight. */
  lemma {:induction false} EarlyStops(h: Host, early: seq<Finish>)
    requires h.phase != Running || h.st.asyncRes.None?
    ensures RunEarly(h, early) == h
    decreases |early|
  {
    if early != [] { EarlyStops(h, early[1..]); }
  }

  /** One call of handle_msg. */
  function Handled(h: Host, m: Msg, begin: bool, capture: bool, early: seq<Finish>): Host {
    var h1 := Step(h, Received(m, begin, capture));
    if h1.ackDue then Step(RunEarly(h1, early), Acked) else h1
  }

  lemma {:induction false} RunAppend(h: Host, a: seq<Event>, b: seq<Event>)
    ensures Run(h, a + b) == Run(Run(h, a), b)
    decreases |a|
  {
    if a == [] {
      assert a + b == b;
    } else {
      RunAppend(Step(h, a[0]), a[1..], b);
      assert (a + b)[1..] == a[1..] + b;
    }
  }

  /** What a call of handle_msg does is a run of the protocol's events. */
  lemma HandledIsRun(h: Host, m: Msg, begin: bool, capture: bool, early: seq<Finish>) returns (es: seq<Event>)
    requires !h.ackDue
    ensures Handled(h, m, begin, capture, early) == Run(h, es) && es != [] && es[0] == Received(m, begin, capture)
  {
    var first := [Received(m, begin, capture)];
    var h1 := Step(h, first[0]);
    assert first[1..] == [] && Run(h1, []) == h1;
    if h1.ackDue {
      EarlyIsRun(h1, early);
      es := first + (Completions(early) + [Acked]);
      RunAppend(h, first, Completions(early) + [Acked]);
      RunAppend(h1, Completions(early), [Acked]);
      assert [Acked][1..] == [];
    } else {
      es := first;
    }
  }

  class HandlerState {
    // struct tudor_device
    var enrolling: bool
    var overrideTemplateCount: bool
    var enrollGuid: Guid
    var enrollFinger: Finger
    // struct handler_state
    var asyncRes: Option<Callback>
    var asyncCancelled: bool
    var captureFails: nat
    var done: bool               // action.enroll.done
    var retry: bool              // action.identify
    var hasMatch: bool
    var identity: Identity
    // the process and its socket
    var phase: Phase
    var sent: seq<Reply>
    ghost var ackDue: bool

    ghost function State(): Host
      reads this
    {
      Host(Device(enrolling, overrideTemplateCount, enrollGuid, enrollFinger),
           Handler(asyncRes, asyncCancelled, captureFails), phase, ackDue, sent)
    }

    constructor ()
      ensures State() == Opened()
    {
      enrolling, overrideTemplateCount, enrollGuid, enrollFinger := false, false, 0, 0;
      asyncRes, asyncCancelled, captureFails := None, false, 0;
      done, retry, hasMatch, identity := false, false, false, NO_IDENTITY;
      phase, sent, ackDue := Running, [], false;
    }

    method SendMsg(r: Reply)
      modifies this`sent
      ensures sent == old(sent) + [r]
    {
      sent := sent + [r];
    }

    method InitAction()
      modifies this`asyncRes, this`asyncCancelled
      ensures asyncRes == None && !asyncCancelled
    {
      asyncRes := None;
      asyncCancelled := false;
    }

    /** The result is cleaned up; a cancelled action is acknowledged, and `go` is false. */
    method CleanupAction() returns (go: bool)
      modifies this`asyncRes, this`sent
      ensures asyncRes == None && go == !asyncCancelled
      ensures sent == if asyncCancelled then old(sent) + [Ack] else old(sent)
    {
      asyncRes := None;
      if asyncCancelled {
        SendMsg(Ack);
        return false;
      }
      return true;
    }

    // -------------------------------------------------------------- device.c

    method EnrollStart(guid: Guid, finger: Finger, begin: bool) returns (ok: bool)
      modifies this`enrolling, this`overrideTemplateCount, this`enrollGuid, this`enrollFinger
      ensures ok == (!old(enrolling) && begin)
      ensures ok ==> State().dev == Device(true, true, guid, finger)
      ensures !ok ==> State().dev == old(State().dev)
    {
      if enrolling || !begin { return false; }
      enrolling := true;
      overrideTemplateCount := true;
      enrollGuid, enrollFinger := guid, finger;
      return true;
    }

    method EnrollCapture(capture: bool) returns (ok: bool)
      modifies this`done, this`asyncRes
      ensures ok == (enrolling && capture) && asyncRes == if ok then Some(EnrollCb) else None
    {
      asyncRes := None;
      done := true;
      if !enrolling || !capture { return false; }
      asyncRes := Some(EnrollCb);
      return true;
    }

    method EnrollCommit(c: Commit) returns (ok: bool, isDuplicate: bool)
      modifies this`enrolling, this`overrideTemplateCount
      ensures ok <==> old(enrolling) && c.check == Success && !c.isDuplicate && c.commit == Success
      ensures isDuplicate <==> old(enrolling) && c.check == Success && (c.isDuplicate || c.commit == DuplicateEnrollment)
      ensures State().dev == if ok then NotEnrolling(old(State().dev)) else old(State().dev)
    {
      ok, isDuplicate := false, false;
      if !enrolling || c.check != Success { return; }
      if c.isDuplicate {
        isDuplicate := true;
        return;
      }
      if c.commit != Success {
        if c.commit == DuplicateEnrollment { isDuplicate := true; }
        return;
      }
      enrolling := false;
      overrideTemplateCount := false;
      ok := true;
    }

    method EnrollDiscard(discard: bool) returns (ok: bool)
      modifies this`enrolling, this`overrideTemplateCount
      ensures ok == (old(enrolling) && discard) && State().dev == Discarded(old(State().dev), discard)
    {
      if !enrolling || !discard { return false; }
      enrolling := false;
      overrideTemplateCount := false;
      return true;
    }

    /** tudor_identify; `cb` is the callback its caller registers. */
    method BeginIdentify(cb: Callback, capture: bool) returns (ok: bool)
      modifies this`asyncRes, this`retry, this`hasMatch
      ensures ok == (!enrolling && capture) && asyncRes == if ok then Some(cb) else None
    {
      asyncRes := None;
      retry := false;
      hasMatch := false;
      if enrolling || !capture { return false; }
      asyncRes := Some(cb);
      return true;
    }

    /** `enroll_cb` of device.c. */
    method DeviceEnrollCb(f: Finish, early: seq<Finish>)
      requires phase == Running && asyncRes == Some(EnrollCb)
      modifies this
      ensures State() == RunEarly(Complete(old(State()), f), early)
      decreases |early|, 3
    {
      var success, done := false, false;
      if f.capture.status == STATUS_SUCCESS {
        if f.capture.finish == Success {
          if f.capture.push == Success {
            if f.capture.feature == Success || f.capture.feature == MoreData {
              success := true;
              done := f.capture.feature != MoreData;
            }
          }
        }
      }
      this.done := done;
      EnrollCallback(success, f, early);
    }

    /** `identify_cb` of device.c. */
    method DeviceIdentifyCb(f: Finish)
      requires phase == Running && asyncRes.Some? && !asyncRes.value.EnrollCb?
      modifies this
      ensures State() == Complete(old(State()), f)
    {
      var c := f.capture;
      var success, retry, match_ := false, false, None;
      if c.status == STATUS_SUCCESS {
        if c.finish != Success {
          retry := c.finish == BadCapture;
        } else if c.push != Success {
          retry := c.push == BadCapture;
        } else if c.feature != Success {
          retry := c.feature == BadCapture;
          success := c.feature == UnknownId;
        } else if c.identity.Some? {
          success, match_ := true, c.identity;
        }
      }
      this.retry, hasMatch := retry, match_.Some?;
      identity := if match_.Some? then match_.value else f.stale;
      if asyncRes.value.VerifyCb? { VerifyCallback(success, f); } else { IdentifyCallback(success, f); }
    }

    // -------------------------------------------------------------- handler.c

    /** tudor_set_async_callback: captures found complete run their callback now. */
    method SetAsyncCallback(early: seq<Finish>)
      requires phase == Running && asyncRes.Some?
      modifies this
      ensures State() == RunEarly(old(State()), early)
      decreases |early|, 0
    {
      if early != [] {
        if asyncRes.value.EnrollCb? {
          DeviceEnrollCb(early[0], early[1..]);
        } else {
          ghost var before := State();
          DeviceIdentifyCb(early[0]);
          EarlyStops(Complete(before, early[0]), early[1..]);
        }
      }
    }

    /** `enroll_cb` of handler.c. */
    method EnrollCallback(success: bool, f: Finish, early: seq<Finish>)
      requires phase == Running && asyncRes == Some(EnrollCb)
      requires EnrollOutcome(f.capture) == EnrollResult(success, done)
      modifies this
      ensures State() == RunEarly(Complete(old(State()), f), early)
      decreases |early|, 2
    {
      EarlyStopsAfter(State(), f, early);
      var go := CleanupAction();
      if !go {
        var discarded := EnrollDiscard(f.discard);
        if !discarded { phase := Aborted; }
        return;
      }
      if !success && done {
        var _ := EnrollDiscard(f.discard);
        phase := Exited;
        return;
      }
      if done { FinishEnrollment(f); } else { NextCapture(success, f, early); }
    }

    /** The branch of a capture that needs another one. */
    method NextCapture(success: bool, f: Finish, early: seq<Finish>)
      requires phase == Running && asyncRes == None
      modifies this
      ensures State() == RunEarly(CompleteEnroll(old(State()), EnrollResult(success, false), f), early)
      decreases |early|, 1
    {
      InitAction();
      var started := EnrollCapture(f.restart);
      if !started {
        phase := Aborted;
        EarlyStops(State(), early);
        return;
      }
      SendMsg(RespEnroll(!success, false, false, []));
      SetAsyncCallback(early);
    }

    /** The branch of the last capture: commit, or report the duplicate. */
    method FinishEnrollment(f: Finish)
      requires phase == Running && asyncRes == None
      modifies this
      ensures State() == CompleteEnroll(old(State()), EnrollResult(true, true), f)
    {
      var committed, isDuplicate := EnrollCommit(f.commit);
      if !committed {
        if !isDuplicate {
          phase := Aborted;
          return;
        }
        var _ := EnrollDiscard(f.discard);
        SendMsg(RespEnroll(false, true, true, []));
        return;
      }
      var record: bytes := [];
      var i := 0;
      while i < |f.commit.records|
        invariant i <= |f.commit.records| && record == []
        invariant RecordOf(f.commit.records, enrollGuid, enrollFinger) == RecordOf(f.commit.records[i..], enrollGuid, enrollFinger)
      {
        var rec := f.commit.records[i];
        if rec.guid == enrollGuid && rec.finger == enrollFinger {
          record := rec.data;
          break;
        }
        i := i + 1;
      }
      if |record| > IPC_MAX_RECORD_SIZE {
        phase := Aborted;
        return;
      }
      SendMsg(RespEnroll(false, true, false, record));
    }

    /** What device.c left in `action.identify` for its callback. */
    ghost predicate Reports(success: bool, f: Finish)
      reads this
    {
      var r := IdentifyOutcome(f.capture);
      && r.success == success && r.retry == retry && r.found.Some? == hasMatch
      && identity == if r.found.Some? then r.found.value else f.stale
    }

    /** `verify_via_identify_cb`. */
    method VerifyCallback(success: bool, f: Finish)
      requires phase == Running && asyncRes == Some(VerifyCb)
      requires Reports(success, f)
      modifies this`asyncRes, this`captureFails, this`phase, this`sent
      ensures State() == Complete(old(State()), f)
    {
      var go := CleanupAction();
      if !go { return; }
      if !success {
        if !retry {
          captureFails := captureFails + 1;
          if captureFails > MAX_CONSECUTIVE_CAPTURE_FAILS {
            phase := Aborted;
            return;
          }
        }
        SendMsg(RespVerify(true, false));
        return;
      }
      captureFails := 0;
      SendMsg(RespVerify(false, hasMatch));
    }

    /** `identify_cb` of handler.c. */
    method IdentifyCallback(success: bool, f: Finish)
      requires phase == Running && asyncRes == Some(IdentifyCb)
      requires Reports(success, f)
      modifies this`asyncRes, this`captureFails, this`phase, this`sent
      ensures State() == Complete(old(State()), f)
    {
      var go := CleanupAction();
      if !go { return; }
      if !success {
        if !retry {
          captureFails := captureFails + 1;
          if captureFails > MAX_CONSECUTIVE_CAPTURE_FAILS {
            phase := Aborted;
            return;
          }
        }
        SendMsg(RespIdentify(true, false, NO_IDENTITY));
        return;
      }
      captureFails := 0;
      SendMsg(RespIdentify(false, hasMatch, identity));
    }

    /** `handle_msg`. */
    method HandleMsg(m: Msg, begin: bool, capture: bool, early: seq<Finish>) returns (shutdown: bool)
      requires phase == Running && !ackDue
      modifies this
      ensures State() == Handled(old(State()), m, begin, capture, early)
      ensures shutdown <==> phase == ShutDown
    {
      shutdown := false;
      if m == Cancel {
        if asyncRes.Some? { asyncCancelled := true; } else { SendMsg(Ack); }
        return;
      }
      if m == Unknown || asyncRes.Some? {
        phase := Aborted;
        return;
      }
      match m
      case Shutdown =>
        phase := ShutDown;
        shutdown := true;
      case Probe => SendMsg(RespProbe);
      case AddRecord | DelRecord | ClearRecords => SendMsg(Ack);
      case Enroll(guid, finger) => StartEnroll(guid, finger, begin, capture, early);
      case Verify(_, _) => StartIdentification(VerifyCb, capture, early);
      case Identify => StartIdentification(IdentifyCb, capture, early);
    }

    method StartEnroll(guid: Guid, finger: Finger, begin: bool, capture: bool, early: seq<Finish>)
      requires phase == Running && !ackDue && asyncRes.None?
      modifies this
      ensures State() == Handled(old(State()), Enroll(guid, finger), begin, capture, early) && phase != ShutDown
    {
      hide RunEarly;
      InitAction();
      var begun := EnrollStart(guid, finger, begin);
      if !begun {
        phase := Aborted;
        return;
      }
      var started := EnrollCapture(capture);
      FinishStart(started, early);
    }

    method StartIdentification(cb: Callback, capture: bool, early: seq<Finish>)
      requires phase == Running && !ackDue && asyncRes.None? && cb != EnrollCb
      modifies this
      ensures var t := StartIdentify(old(State()), cb, capture);
        State() == if t.ackDue then Step(RunEarly(t, early), Acked) else t
      ensures phase != ShutDown
    {
      hide RunEarly;
      InitAction();
      var started := BeginIdentify(cb, capture);
      FinishStart(started, early);
    }

    /** How all three actions go on: register the callback, then acknowledge the start. */
    method FinishStart(started: bool, early: seq<Finish>)
      requires phase == Running && !ackDue && (started <==> asyncRes.Some?)
      modifies this
      ensures State() == if !started then Fail(old(State())) else Step(RunEarly(old(State()).(ackDue := true), early), Acked)
      ensures phase != ShutDown
    {
      if !started {
        phase := Aborted;
        return;
      }
      ackDue := true;
      SetAsyncCallback(early);
      EarlyAckDue(old(State()).(ackDue := true), early);
      if phase == Running {
        SendMsg(Ack);
        ackDue := false;
      }
    }
  }

  /** A completion that leaves no capture in flight has no early successors. */
  lemma EarlyStopsAfter(h: Host, f: Finish, early: seq<Finish>)
    requires h.phase == Running && h.st.asyncRes.Some?
    ensures var t := Complete(h, f);
      t.phase != Running || t.st.asyncRes.None? ==> RunEarly(t, early) == t
  {
    var t := Complete(h, f);
    if t.phase != Running || t.st.asyncRes.None? { EarlyStops(t, early); }
  }

  lemma {:induction false} EarlyAckDue(h: Host, early: seq<Finish>)
    ensures RunEarly(h, early).ackDue == h.ackDue
    ensures h.phase != ShutDown ==> RunEarly(h, early).phase != ShutDown
    decreases |early|
  {
    if early != [] { EarlyAckDue(Step(h, Completed(early[0])), early[1..]); }
  }
}
