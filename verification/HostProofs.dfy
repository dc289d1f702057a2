/** Properties of every run of the host protocol. */
module HostProofs {
  import opened Wrappers
  import opened HostSpec

  // ---------------------------------------------------------------- invariants

  predicate Enrolls(h: Host) {
    h.st.asyncRes == Some(EnrollCb)
  }

  /** In every reachable state of the host. */
  ghost predicate Inv(h: Host) {
    && h.dev.overrideTemplateCount == h.dev.enrolling
    && h.phase != Exited
    && (h.phase == Running ==>
          && (Enrolls(h) ==> h.dev.enrolling)
          && (h.st.asyncRes.Some? && !Enrolls(h) ==> !h.dev.enrolling)
          && h.st.captureFails <= MAX_CONSECUTIVE_CAPTURE_FAILS)
  }

  /** The sample reached the engine. */
  predicate Sampled(c: Capture) {
    c.status == STATUS_SUCCESS && c.finish == c.push == Success
  }

  /** The engine has all the samples it wants. */
  predicate LastSample(c: Capture) {
    Sampled(c) && c.feature == Success
  }

  /** The first adapter call that fails calls the capture bad. */
  predicate BadSample(c: Capture) {
    c.status == STATUS_SUCCESS &&
    if c.finish != Success then c.finish == BadCapture
    else if c.push != Success then c.push == BadCapture
    else c.feature == BadCapture
  }

  predicate FoundDuplicate(c: Commit) {
    c.check == Success && (c.isDuplicate || c.commit == DuplicateEnrollment)
  }

  /** A capture that reports the enrolment complete was successful; a failed one means another capture. */
  lemma FailedCaptureIsNotDone(c: Capture)
    ensures EnrollOutcome(c).done ==> EnrollOutcome(c).success
    ensures EnrollOutcome(c).done <==> LastSample(c)
  {
  }

  lemma StepInv(h: Host, e: Event)
    requires Inv(h)
    ensures Inv(Step(h, e))
  {
    if Enabled(h, e) && e.Completed? { FailedCaptureIsNotDone(e.finish.capture); }
  }

  lemma {:induction false} RunInv(h: Host, es: seq<Event>)
    requires Inv(h)
    ensures Inv(Run(h, es))
    decreases |es|
  {
    if es != [] {
      StepInv(h, es[0]);
      RunInv(Step(h, es[0]), es[1..]);
    }
  }

  /** `override_template_count` follows `enrolling`, and the give-up exit is never taken. */
  lemma NeverGivesUp(es: seq<Event>)
    ensures var h := Run(Opened(), es);
      h.dev.overrideTemplateCount == h.dev.enrolling && h.phase != Exited
  {
    RunInv(Opened(), es);
  }

  /** An enroll capture that was not cancelled and did not complete the enrolment, in particular every
      failed one, is followed by a fresh capture; the report asks for a retry exactly if it failed. */
  lemma UnfinishedCaptureRepeats(es: seq<Event>, f: Finish)
    requires var h := Run(Opened(), es); h.phase == Running && Enrolls(h) && !h.st.asyncCancelled
    requires !LastSample(f.capture)
    ensures var h, t := Run(Opened(), es), Step(Run(Opened(), es), Completed(f));
      && (t.phase == Running <==> f.restart) && t.phase in {Running, Aborted}
      && (f.restart ==> Enrolls(t) && !t.st.asyncCancelled && t.dev == h.dev
                        && t.sent == h.sent + [RespEnroll(!(Sampled(f.capture) && f.capture.feature == MoreData), false, false, [])])
  {
    RunInv(Opened(), es);
  }

  /** How an enrolment ends whose last capture was not cancelled: it is committed exactly if the engine found no
      duplicate and took the template, and then the stored template is sent and the enrolment left; a duplicate is
      reported, and the enrolment left if it can be discarded; anything else aborts, and so does a template that is
      too large. */
  lemma EnrollmentEnds(es: seq<Event>, f: Finish)
    requires var h := Run(Opened(), es); h.phase == Running && Enrolls(h) && !h.st.asyncCancelled
    requires LastSample(f.capture)
    ensures var h, t := Run(Opened(), es), Step(Run(Opened(), es), Completed(f));
      var record := RecordOf(f.commit.records, h.dev.enrollGuid, h.dev.enrollFinger);
      var committed := f.commit.check == Success && !f.commit.isDuplicate && f.commit.commit == Success;
      var fits := |record| <= IPC_MAX_RECORD_SIZE;
      && t.phase in {Running, Aborted} && t.st.asyncRes.None?
      && (t.phase == Running <==> FoundDuplicate(f.commit) || (committed && fits))
      && (t.phase == Running && committed ==> t.sent == h.sent + [RespEnroll(false, true, false, record)] && !t.dev.enrolling)
      && (t.phase == Running && !committed ==>
            t.sent == h.sent + [RespEnroll(false, true, true, [])] && t.dev == if f.discard then NotEnrolling(h.dev) else h.dev)
      && (t.phase == Aborted ==> t.sent == h.sent)
  {
    RunInv(Opened(), es);
  }

  /** How a cancelled action ends: it is acknowledged, and an enrolment is left, or the host aborts. */
  lemma CancelledEnds(es: seq<Event>, f: Finish)
    requires var h := Run(Opened(), es); h.phase == Running && h.st.asyncRes.Some? && h.st.asyncCancelled
    ensures var h, t := Run(Opened(), es), Step(Run(Opened(), es), Completed(f));
      && t.sent == h.sent + [Ack] && t.st.asyncRes.None? && t.st.captureFails == h.st.captureFails
      && t.phase == (if Enrolls(h) && !f.discard then Aborted else Running)
      && (t.phase == Running ==> !t.dev.enrolling)
  {
    RunInv(Opened(), es);
  }

  /** A verification or identification that was not cancelled leaves the device as it was and counts the
      failures that are not bad samples. */
  lemma IdentificationEnds(es: seq<Event>, f: Finish)
    requires var h := Run(Opened(), es); h.phase == Running && h.st.asyncRes.Some? && !Enrolls(h) && !h.st.asyncCancelled
    ensures var h, t := Run(Opened(), es), Step(Run(Opened(), es), Completed(f));
      && t.dev == h.dev && t.st.asyncRes.None?
      && t.st.captureFails == (if Conclusive(f.capture) then 0 else if BadSample(f.capture) then h.st.captureFails else h.st.captureFails + 1)
      && (t.phase == Running <==> Conclusive(f.capture) || BadSample(f.capture) || h.st.captureFails < MAX_CONSECUTIVE_CAPTURE_FAILS)
  {
    RunInv(Opened(), es);
  }

  /** What a message does that is not a cancel, to a host that runs no action. */
  lemma IdleMessage(es: seq<Event>, m: Msg, begin: bool, capture: bool)
    requires Idle(Run(Opened(), es)) && m != Cancel
    ensures var h, t := Run(Opened(), es), Step(Run(Opened(), es), Received(m, begin, capture));
      && (t.phase == ShutDown <==> m == Shutdown)
      && (t.phase == Aborted <==> m == Unknown || (StartsAction(m) && (h.dev.enrolling || !capture || (m.Enroll? && !begin))))
      && (m == Probe ==> t == h.(sent := h.sent + [RespProbe]))
      && (m in {AddRecord, DelRecord, ClearRecords} ==> t == h.(sent := h.sent + [Ack]))
      && (!(m in {Probe, AddRecord, DelRecord, ClearRecords}) ==> t.sent == h.sent)
      && (StartsAction(m) && t.phase == Running ==>
            && t.st == Handler(Some(CallbackOf(m)), false, h.st.captureFails) && t.ackDue
            && t.dev == if m.Enroll? then Device(true, true, m.guid, m.finger) else h.dev)
  {
    RunInv(Opened(), es);
  }

  /** During an action only a cancel is taken, which marks it; without one a cancel is acknowledged at once. */
  lemma MessageInAction(es: seq<Event>, m: Msg, begin: bool, capture: bool)
    requires var h := Run(Opened(), es); h.phase == Running && !h.ackDue
    ensures var h, t := Run(Opened(), es), Step(Run(Opened(), es), Received(m, begin, capture));
      && (m == Cancel ==>
            t == if h.st.asyncRes.Some? then h.(st := h.st.(asyncCancelled := true)) else h.(sent := h.sent + [Ack]))
      && (h.st.asyncRes.Some? && m != Cancel ==> t == h.(phase := Aborted))
  {
  }

  lemma {:induction false} StoppedStays(h: Host, es: seq<Event>)
    requires h.phase != Running
    ensures Run(h, es) == h
  {
    if es != [] { StoppedStays(h, es[1..]); }
  }

  // ---------------------------------------------------------------- the count of ACKs

  function Acks(sent: seq<Reply>): nat {
    if sent == [] then 0 else Acks(sent[..|sent| - 1]) + if sent[|sent| - 1] == Ack then 1 else 0
  }

  /** ACKs a message is owed: a repeated CANCEL during one capture is owed none of its own. */
  function Owed(h: Host, e: Event): nat {
    if !Enabled(h, e) || !e.Received? then 0
    else match e.msg
      case Cancel => if h.st.asyncRes.Some? && h.st.asyncCancelled then 0 else 1
      case AddRecord | DelRecord | ClearRecords | Enroll(_, _) | Verify(_, _) | Identify => 1
      case Shutdown | Probe | Unknown => 0
  }

  function AllOwed(h: Host, es: seq<Event>): nat
    decreases |es|
  {
    if es == [] then 0 else Owed(h, es[0]) + AllOwed(Step(h, es[0]), es[1..])
  }

  /** ACKs owed but not sent yet: that of a pending cancel, and that of an action still being started. */
  function Unsent(h: Host): nat {
    (if h.st.asyncRes.Some? && h.st.asyncCancelled then 1 else 0) + if h.ackDue then 1 else 0
  }

  /** What one step sent. */
  function Sent(before: seq<Reply>, after: seq<Reply>): seq<Reply> {
    if |before| <= |after| then after[|before|..] else []
  }

  /** A step sends at most one reply. */
  lemma StepSends(h: Host, e: Event)
    ensures |Sent(h.sent, Step(h, e).sent)| <= 1 && Step(h, e).sent == h.sent + Sent(h.sent, Step(h, e).sent)
  {
  }

  lemma ReceiveAcks(h: Host, e: Event)
    requires Step(h, e).phase == Running && e.Received?
    ensures (if Sent(h.sent, Step(h, e).sent) == [Ack] then 1 else 0) + Unsent(Step(h, e)) == Unsent(h) + Owed(h, e)
  {
  }

  lemma CompleteAcks(h: Host, e: Event)
    requires Step(h, e).phase == Running && !e.Received?
    ensures (if Sent(h.sent, Step(h, e).sent) == [Ack] then 1 else 0) + Unsent(Step(h, e)) == Unsent(h)
  {
  }

  lemma AcksSent(sent: seq<Reply>, more: seq<Reply>)
    requires |more| <= 1
    ensures Acks(sent + more) == Acks(sent) + if more == [Ack] then 1 else 0
  {
    if more == [] { assert sent + more == sent; } else { assert (sent + more)[..|sent|] == sent; }
  }

  lemma StepAcks(h: Host, e: Event)
    requires Step(h, e).phase == Running
    ensures Acks(Step(h, e).sent) + Unsent(Step(h, e)) == Acks(h.sent) + Unsent(h) + Owed(h, e)
  {
    StepSends(h, e);
    AcksSent(h.sent, Sent(h.sent, Step(h, e).sent));
    assert !e.Received? ==> Owed(h, e) == 0;
    if e.Received? { ReceiveAcks(h, e); } else { CompleteAcks(h, e); }
    hide *;
  }

  lemma {:induction false} RunAcks(h: Host, es: seq<Event>)
    requires Run(h, es).phase == Running
    ensures Acks(Run(h, es).sent) + Unsent(Run(h, es)) == Acks(h.sent) + Unsent(h) + AllOwed(h, es)
    decreases |es|
  {
    if es != [] {
      if Step(h, es[0]).phase != Running { StoppedStays(Step(h, es[0]), es[1..]); }
      StepAcks(h, es[0]);
      RunAcks(Step(h, es[0]), es[1..]);
    }
  }

  /** Every acknowledged message gets exactly one ACK. */
  lemma EveryMessageAcked(es: seq<Event>)
    requires Run(Opened(), es).phase == Running
    ensures Acks(Run(Opened(), es).sent) + Unsent(Run(Opened(), es)) == AllOwed(Opened(), es)
  {
    RunAcks(Opened(), es);
  }

  // ---------------------------------------------------------------- the answer to an action

  predicate Busy(h: Host) {
    h.phase == Running && (h.st.asyncRes.Some? || h.ackDue)
  }

  predicate Idle(h: Host) {
    h.phase == Running && h.st.asyncRes.None? && !h.ackDue
  }

  /** The action runs through `es` and ends with its last event. */
  ghost predicate Action(h: Host, es: seq<Event>)
    decreases |es|
  {
    if Busy(h) then es != [] && Action(Step(h, es[0]), es[1..])
    else Idle(h) && es == []
  }

  predicate Cancels(e: Event) {
    e.Received? && e.msg == Cancel
  }

  /** A CANCEL is received while a capture of this action is in flight. */
  ghost predicate CancelIn(h: Host, es: seq<Event>)
    decreases |es|
  {
    && es != [] && h.st.asyncRes.Some?
    && ((Enabled(h, es[0]) && Cancels(es[0])) || CancelIn(Step(h, es[0]), es[1..]))
  }

  /** The capture in flight is cancelled, or a later one of this action will be. */
  ghost predicate Cancelled(h: Host, es: seq<Event>) {
    h.st.asyncRes.Some? && (h.st.asyncCancelled || CancelIn(h, es))
  }

  /** The capture that ends an action. */
  ghost function Ending(h: Host, es: seq<Event>): Finish
    requires Busy(h) && h.st.asyncRes.Some? && Action(h, es)
    decreases |es|
  {
    var t := Step(h, es[0]);
    assert Action(t, es[1..]) && (Busy(t) || Idle(t));
    if t.st.asyncRes.None? then es[0].finish else Ending(t, es[1..])
  }

  /** The template the capture was matched with. */
  function Matched(c: Capture): Option<Identity> {
    if c.status == STATUS_SUCCESS && c.finish == c.push == c.feature == Success then c.identity else None
  }

  /** Every stage succeeded, and the engine named a template or knows that there is none. */
  predicate Conclusive(c: Capture) {
    && c.status == STATUS_SUCCESS && c.finish == c.push == Success
    && (c.feature == UnknownId || (c.feature == Success && c.identity.Some?))
  }

  /** The reply that ends an action, read off the capture that ended it: the cancelled are acknowledged; an
      enrolment is a duplicate exactly if the engine found one, and else brings the stored template of its guid
      and finger; an identification names a template only if it matched, and asks for a retry exactly if it
      was not conclusive. */
  function FinalReply(cb: Callback, cancelled: bool, enrolled: Identity, f: Finish): Reply {
    if cancelled then Ack
    else match cb
      case EnrollCb =>
        var duplicate := f.commit.isDuplicate || f.commit.commit == DuplicateEnrollment;
        RespEnroll(false, true, duplicate, if duplicate then [] else RecordOf(f.commit.records, enrolled.guid, enrolled.finger))
      case VerifyCb => RespVerify(!Conclusive(f.capture), Matched(f.capture).Some?)
      case IdentifyCb =>
        var found := Matched(f.capture);
        var rest := if Conclusive(f.capture) then f.stale else NO_IDENTITY;
        RespIdentify(!Conclusive(f.capture), found.Some?, if found.Some? then found.value else rest)
  }

  /** The record sent is the first one of that guid and finger, and nothing if there is none. */
  lemma {:induction false} RecordOfMeans(records: seq<Template>, guid: Guid, finger: Finger, k: nat)
    requires k <= |records|
    requires forall i {:trigger records[i]} :: 0 <= i < k ==> records[i].guid != guid || records[i].finger != finger
    ensures k < |records| && records[k].guid == guid && records[k].finger == finger ==>
      RecordOf(records, guid, finger) == records[k].data
    ensures k == |records| ==> RecordOf(records, guid, finger) == []
    decreases k
  {
    if k > 0 {
      assert records[0].guid != guid || records[0].finger != finger;
      assert forall i {:trigger records[1..][i]} :: 0 <= i < k - 1 ==> records[1..][i] == records[i + 1];
      RecordOfMeans(records[1..], guid, finger, k - 1);
    }
  }

  function Enrolled(h: Host): Identity {
    Identity(h.dev.enrollGuid, h.dev.enrollFinger)
  }

  /** The reply that is to end the action under way. */
  ghost function Expected(h: Host, es: seq<Event>): Reply
    requires Action(h, es)
  {
    if h.st.asyncRes.None? || !Busy(h) then Ack
    else FinalReply(h.st.asyncRes.value, Cancelled(h, es), Enrolled(h), Ending(h, es))
  }

  /** A complete answer: for an enrolment any number of progress reports, then exactly one final reply. */
  ghost predicate Answer(cb: Callback, last: Reply, rs: seq<Reply>) {
    && rs != []
    && (forall i {:trigger rs[i]} :: 0 <= i < |rs| - 1 ==> cb == EnrollCb && rs[i].RespEnroll? && !rs[i].done)
    && rs[|rs| - 1] == last
  }

  function Without(rs: seq<Reply>, n: nat): seq<Reply>
    requires n < |rs|
  {
    rs[..n] + rs[n + 1..]
  }

  /** The ACK of the start stands at `n`, the answer around it. */
  ghost predicate AckAt(cb: Callback, last: Reply, rs: seq<Reply>, n: nat) {
    n < |rs| && rs[n] == Ack && Answer(cb, last, Without(rs, n))
  }

  /** What is sent from `h` until its action is over. */
  ghost predicate Rest(h: Host, last: Reply, rs: seq<Reply>) {
    if h.st.asyncRes.None? then rs == if h.ackDue then [Ack] else []
    else if !h.ackDue then Answer(h.st.asyncRes.value, last, rs)
    else exists n: nat :: AckAt(h.st.asyncRes.value, last, rs, n)
  }

  lemma PrependAnswer(last: Reply, r: Reply, rs: seq<Reply>)
    requires Answer(EnrollCb, last, rs) && r.RespEnroll? && !r.done
    ensures Answer(EnrollCb, last, [r] + rs)
  {
    assert forall i {:trigger ([r] + rs)[i]} :: 1 <= i < |rs| + 1 ==> ([r] + rs)[i] == rs[i - 1];
  }

  /** A progress report in front of the rest. */
  lemma PrependRest(h: Host, t: Host, last: Reply, r: Reply, rs: seq<Reply>)
    requires Enrolls(h) && Enrolls(t) && t.ackDue == h.ackDue && Rest(t, last, rs) && r.RespEnroll? && !r.done
    ensures Rest(h, last, [r] + rs)
  {
    hide Answer;
    if h.ackDue {
      var n: nat :| AckAt(EnrollCb, last, rs, n);
      PrependAnswer(last, r, Without(rs, n));
      assert Without([r] + rs, n + 1) == [r] + Without(rs, n);
      assert AckAt(EnrollCb, last, [r] + rs, n + 1);
    } else {
      PrependAnswer(last, r, rs);
    }
  }

  /** One event of an action, seen from the replies that follow it. */
  lemma RestStep(h: Host, e: Event, last: Reply, later: Reply, rs: seq<Reply>)
    requires Inv(h) && Busy(h) && (Busy(Step(h, e)) || Idle(Step(h, e)))
    requires Rest(Step(h, e), later, rs)
    requires Step(h, e).st.asyncRes.Some? ==> later == last
    requires e.Completed? && h.st.asyncRes.Some? && Step(h, e).st.asyncRes.None? ==>
      last == FinalReply(h.st.asyncRes.value, h.st.asyncCancelled, Enrolled(h), e.finish)
    ensures Rest(h, last, Sent(h.sent, Step(h, e).sent) + rs)
  {
    var t := Step(h, e);
    hide Answer;
    if !Enabled(h, e) || e.Received? {
      assert Sent(h.sent, t.sent) + rs == rs;
    } else if e.Acked? {
      AckedRest(h, last, rs);
    } else if Enrolls(t) {
      ProgressSent(h, e.finish);
      PrependRest(h, t, last, t.sent[|h.sent|], rs);
    } else {
      CompletedRest(h, e.finish, last, rs);
    }
  }

  /** The completion that leads to another capture. */
  lemma ProgressSent(h: Host, f: Finish)
    requires Enabled(h, Completed(f)) && Enrolls(Step(h, Completed(f)))
    ensures Enrolls(h) && Step(h, Completed(f)).ackDue == h.ackDue
    ensures Step(h, Completed(f)).phase == Running ==>
      var r := RespEnroll(!EnrollOutcome(f.capture).success, false, false, []);
      Step(h, Completed(f)).sent == h.sent + [r] && Sent(h.sent, Step(h, Completed(f)).sent) == [r]
  {
  }

  /** The completion after which no capture is in flight. */
  lemma FinalSent(h: Host, f: Finish) returns (r: Reply)
    requires Enabled(h, Completed(f)) && Step(h, Completed(f)).phase == Running && Step(h, Completed(f)).st.asyncRes.None?
    requires Inv(h)
    ensures Sent(h.sent, Step(h, Completed(f)).sent) == [r] && r == FinalReply(h.st.asyncRes.value, h.st.asyncCancelled, Enrolled(h), f)
  {
    var t := Step(h, Completed(f));
    r := t.sent[|h.sent|];
    assert t.sent == h.sent + [r];
  }

  lemma AckedRest(h: Host, last: Reply, rs: seq<Reply>)
    requires Busy(h) && h.ackDue && Rest(Step(h, Acked), last, rs)
    ensures Rest(h, last, Sent(h.sent, Step(h, Acked).sent) + rs)
  {
    assert Sent(h.sent, Step(h, Acked).sent) == [Ack];
    if h.st.asyncRes.Some? {
      assert Without([Ack] + rs, 0) == rs;
      assert AckAt(h.st.asyncRes.value, last, [Ack] + rs, 0);
    }
  }

  /** The completion that ends the action. */
  lemma CompletedRest(h: Host, f: Finish, last: Reply, rs: seq<Reply>)
    requires Inv(h) && Enabled(h, Completed(f)) && Step(h, Completed(f)).phase == Running
    requires Step(h, Completed(f)).st.asyncRes.None? && rs == if h.ackDue then [Ack] else []
    requires last == FinalReply(h.st.asyncRes.value, h.st.asyncCancelled, Enrolled(h), f)
    ensures Rest(h, last, Sent(h.sent, Step(h, Completed(f)).sent) + rs)
  {
    var r := FinalSent(h, f);
    hide Step, Inv, FinalReply;
    if h.ackDue {
      assert Without([r] + rs, 1) == [r];
      assert AckAt(h.st.asyncRes.value, last, [r] + rs, 1);
    }
  }

  lemma {:induction false} RestOfAction(h: Host, es: seq<Event>)
    requires Inv(h) && Action(h, es)
    ensures exists rs :: Run(h, es).sent == h.sent + rs && Rest(h, Expected(h, es), rs)
    decreases |es|
  {
    hide Inv, Step, Sent, CancelIn;
    if Idle(h) {
      assert Run(h, es).sent == h.sent + [];
    } else {
      var t := Step(h, es[0]);
      StepInv(h, es[0]);
      RestOfAction(t, es[1..]);
      hide Rest;
      var rs :| Run(t, es[1..]).sent == t.sent + rs && Rest(t, Expected(t, es[1..]), rs);
      StepSends(h, es[0]);
      ExpectedStep(h, es);
      RestStep(h, es[0], Expected(h, es), Expected(t, es[1..]), rs);
      assert Run(h, es).sent == h.sent + (Sent(h.sent, t.sent) + rs);
    }
  }

  /** Whether an action counts as last does not depend on when one asks. */
  lemma CancelStep(h: Host, es: seq<Event>)
    requires es != [] && Busy(h) && (Busy(Step(h, es[0])) || Idle(Step(h, es[0])))
    ensures var t := Step(h, es[0]);
      && (h.st.asyncRes.None? ==> t.st.asyncRes.None?)
      && (t.st.asyncRes.Some? ==> (Cancelled(h, es) <==> Cancelled(t, es[1..])))
      && (h.st.asyncRes.Some? && t.st.asyncRes.None? ==> (Cancelled(h, es) <==> h.st.asyncCancelled))
  {
    var t := Step(h, es[0]);
    assert t.st.asyncRes.None? ==> !CancelIn(t, es[1..]);
  }

  lemma ExpectedStep(h: Host, es: seq<Event>)
    requires Busy(h) && Action(h, es)
    ensures var t := Step(h, es[0]);
      && Action(t, es[1..])
      && (t.st.asyncRes.Some? ==> Expected(h, es) == Expected(t, es[1..]))
      && (es[0].Completed? && h.st.asyncRes.Some? && t.st.asyncRes.None? ==>
            Expected(h, es) == FinalReply(h.st.asyncRes.value, h.st.asyncCancelled, Enrolled(h), es[0].finish))
  {
    CancelStep(h, es);
    SameAction(h, es[0]);
    hide Step, CancelIn, FinalReply;
  }

  /** The callback and the enrolment of an action do not change while it goes on. */
  lemma SameAction(h: Host, e: Event)
    requires Busy(h)
    ensures var t := Step(h, e);
      h.st.asyncRes.Some? && t.phase == Running && t.st.asyncRes.Some? ==> t.st.asyncRes == h.st.asyncRes && Enrolled(t) == Enrolled(h)
  {
  }

  function CallbackOf(m: Msg): Callback
    requires StartsAction(m)
  {
    match m
    case Enroll(_, _) => EnrollCb
    case Verify(_, _) => VerifyCb
    case Identify => IdentifyCb
  }

  /** Between `before` and `after` an ACK and a complete answer were sent, the ACK anywhere among it. */
  ghost predicate AckedAndAnswered(before: seq<Reply>, after: seq<Reply>, cb: Callback, last: Reply) {
    exists rs, n: nat :: after == before + rs && AckAt(cb, last, rs, n)
  }

  function EnrolledBy(m: Msg): Identity {
    if m.Enroll? then Identity(m.guid, m.finger) else NO_IDENTITY
  }

  /** Every action that comes to its end is answered completely: besides the ACK of its start it gets
      exactly one final reply, which is the one its last capture calls for, or an ACK exactly if it was
      cancelled, and only an enrolment gets progress reports before it. */
  lemma ActionAnswered(before: seq<Event>, e: Event, es: seq<Event>)
    requires Idle(Run(Opened(), before)) && e.Received? && StartsAction(e.msg)
    requires Busy(Step(Run(Opened(), before), e)) && Action(Step(Run(Opened(), before), e), es)
    ensures var h := Run(Opened(), before);
      var t, cb := Step(h, e), CallbackOf(e.msg);
      && t.st.asyncRes == Some(cb)
      && AckedAndAnswered(h.sent, Run(t, es).sent, cb, FinalReply(cb, CancelIn(t, es), EnrolledBy(e.msg), Ending(t, es)))
  {
    var h, cb := Run(Opened(), before), CallbackOf(e.msg);
    var t := Step(h, e);
    RunInv(Opened(), before);
    StepInv(h, e);
    assert t.sent == h.sent && t.st.asyncRes == Some(cb) && t.ackDue && !t.st.asyncCancelled;
    assert cb == EnrollCb ==> Enrolled(t) == EnrolledBy(e.msg);
    RestOfAction(t, es);
    var rs :| Run(t, es).sent == t.sent + rs && Rest(t, Expected(t, es), rs);
    assert Expected(t, es) == FinalReply(cb, CancelIn(t, es), EnrolledBy(e.msg), Ending(t, es));
    hide AckAt, Inv, FinalReply, Expected;
    var n: nat :| AckAt(cb, Expected(t, es), rs, n);
    assert Run(t, es).sent == h.sent + rs;
  }

  /** A run in which the host is not busy at the end saw the end of the action it began with. */
  lemma {:induction false} ActionEnds(h: Host, es: seq<Event>)
    requires Busy(h) && Idle(Run(h, es))
    ensures exists n :: 0 <= n <= |es| && Action(h, es[..n])
    decreases |es|
  {
    var t := Step(h, es[0]);
    if t.phase != Running { StoppedStays(t, es[1..]); }
    if Busy(t) {
      ActionEnds(t, es[1..]);
      var n :| 0 <= n <= |es[1..]| && Action(t, es[1..][..n]);
      assert es[..n + 1][1..] == es[1..][..n] && es[..n + 1][0] == es[0];
      assert Action(h, es[..n + 1]);
    } else {
      assert es[..1][1..] == [] && Action(t, []);
      assert Action(h, es[..1]);
    }
  }

  // ---------------------------------------------------------------- enrolments that get stuck

  /** An enrolment ends as a duplicate, and discarding it fails. */
  predicate Jams(h: Host, e: Event) {
    && Enabled(h, e) && e.Completed? && Enrolls(h) && !h.st.asyncCancelled
    && LastSample(e.finish.capture) && FoundDuplicate(e.finish.commit) && !e.finish.discard
  }

  ghost predicate JamIn(h: Host, es: seq<Event>)
    decreases |es|
  {
    es != [] && (Jams(h, es[0]) || JamIn(Step(h, es[0]), es[1..]))
  }

  lemma StepJam(h: Host, e: Event)
    requires Inv(h) && Step(h, e).phase == Running
    ensures var t := Step(h, e);
      t.dev.enrolling && !Enrolls(t) <==> (h.dev.enrolling && !Enrolls(h)) || Jams(h, e)
  {
  }

  lemma {:induction false} RunJam(h: Host, es: seq<Event>)
    requires Inv(h) && Run(h, es).phase == Running
    ensures var t := Run(h, es);
      t.dev.enrolling && !Enrolls(t) <==> (h.dev.enrolling && !Enrolls(h)) || JamIn(h, es)
    decreases |es|
  {
    if es != [] {
      var t := Step(h, es[0]);
      if t.phase != Running { StoppedStays(t, es[1..]); }
      StepJam(h, es[0]);
      StepInv(h, es[0]);
      RunJam(t, es[1..]);
    }
  }

  /** A host that runs no enrolment is marked as enrolling exactly if the discard of a duplicate failed. */
  lemma IdleEnrollingIff(es: seq<Event>)
    requires Run(Opened(), es).phase == Running && !Enrolls(Run(Opened(), es))
    ensures Run(Opened(), es).dev.enrolling <==> JamIn(Opened(), es)
  {
    RunJam(Opened(), es);
  }

  /** That can happen, and then no further action can be started. */
  lemma JammedHostAborts() returns (es: seq<Event>)
    ensures var h := Run(Opened(), es);
      Idle(h) && h.dev.enrolling
      && forall m, begin, capture :: StartsAction(m) ==> Step(h, Received(m, begin, capture)).phase == Aborted
  {
    var capture := Capture(STATUS_SUCCESS, Success, Success, Success, None);
    var finish := Finish(capture, Commit(Success, true, Success, []), false, true, NO_IDENTITY);
    es := [Received(Enroll(1, 1), true, true), Acked, Completed(finish)];
    var h1 := Step(Opened(), es[0]);
    var h2 := Step(h1, es[1]);
    var h3 := Step(h2, es[2]);
    assert es[1..][1..] == [es[2]] && [es[2]][1..] == [];
    assert Run(h3, []) == h3;
    assert Run(h2, [es[2]]) == h3;
    assert Run(h1, es[1..]) == h3;
  }

  // ---------------------------------------------------------------- the count of failed captures

  /** How an identification that was not cancelled went. */
  datatype Outcome = Fine | Retry | Failed

  function OutcomeOf(h: Host, e: Event): seq<Outcome> {
    if !Enabled(h, e) || !e.Completed? || Enrolls(h) || h.st.asyncCancelled then []
    else [if Conclusive(e.finish.capture) then Fine else if BadSample(e.finish.capture) then Retry else Failed]
  }

  function Outcomes(h: Host, es: seq<Event>): seq<Outcome>
    decreases |es|
  {
    if es == [] then [] else OutcomeOf(h, es[0]) + Outcomes(Step(h, es[0]), es[1..])
  }

  /** The failures after the last success, on top of `start` if there was none. */
  function FailsSince(start: nat, os: seq<Outcome>): nat {
    if os == [] then start
    else
      var last := os[|os| - 1];
      if last.Fine? then 0 else FailsSince(start, os[..|os| - 1]) + if last.Failed? then 1 else 0
  }

  lemma {:induction false} FailsAppend(start: nat, os: seq<Outcome>, more: seq<Outcome>)
    ensures FailsSince(start, os + more) == FailsSince(FailsSince(start, os), more)
    decreases |more|
  {
    if more == [] {
      assert os + more == os;
    } else {
      var init := more[..|more| - 1];
      FailsAppend(start, os, init);
      assert (os + more)[..|os + more| - 1] == os + init;
    }
  }

  lemma StepFails(h: Host, e: Event)
    requires Step(h, e).phase == Running
    ensures Step(h, e).st.captureFails == FailsSince(h.st.captureFails, OutcomeOf(h, e))
  {
  }

  lemma {:induction false} RunFails(h: Host, es: seq<Event>)
    requires Run(h, es).phase == Running
    ensures Run(h, es).st.captureFails == FailsSince(h.st.captureFails, Outcomes(h, es))
    decreases |es|
  {
    if es != [] {
      var t := Step(h, es[0]);
      if t.phase != Running { StoppedStays(t, es[1..]); }
      StepFails(h, es[0]);
      RunFails(t, es[1..]);
      FailsAppend(h.st.captureFails, OutcomeOf(h, es[0]), Outcomes(t, es[1..]));
    }
  }

  /** `capture_fails` counts the failed captures since the last success, and the host gives up exactly
      at the fourth one. */
  lemma GivesUpAfterThree(es: seq<Event>, f: Finish)
    requires var h := Run(Opened(), es); h.phase == Running && h.st.asyncRes.Some? && !Enrolls(h) && !h.st.asyncCancelled
    ensures var h := Run(Opened(), es);
      && h.st.captureFails == FailsSince(0, Outcomes(Opened(), es)) <= MAX_CONSECUTIVE_CAPTURE_FAILS
      && (Step(h, Completed(f)).phase == Aborted <==>
            OutcomeOf(h, Completed(f)) == [Failed] && h.st.captureFails == MAX_CONSECUTIVE_CAPTURE_FAILS)
  {
    RunInv(Opened(), es);
    RunFails(Opened(), es);
  }
}
