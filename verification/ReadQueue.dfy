/**
 The queue of asynchronous reads of a HID file and its reader thread (fileops.c).

 ReadSpec is the machine whose steps interleave: reads being queued, flags being set, and the
 reader's own steps, each as long as it holds the lock or takes one report. ReadQueue is the code
 over the linked queue and the buffers of the reads; each of its methods is one step of the machine.
 */
module ReadSpec {
  import opened Bytes
  import HidFrames

  const REPORT_IN_ID: byte := 0x0F
  const REPORT_STATUS_ID: byte := 0x10
  const HEARTBEAT_SIZE := 20

  /** struct hid_read_req: which OVERLAPPED it completes, and the size of its buffer. */
  datatype Req = Req(ovlp: nat, bufSize: nat)

  /** A completed read: successful with the data delivered, or cancelled. */
  datatype Completion = Delivered(req: Req, data: bytes) | Cancelled(req: Req)

  /** Where the reader thread is. */
  datatype PC =
    | Outside                       // at the test of the outer loop
    | Waiting                       // before the section that holds the lock
    | Reading(req: Req)             // in the read loop
    | Completing(what: Completion)  // the read loop is left
    | Cancelling(rest: seq<Req>)    // reads taken off the queue to be cancelled
    | Finished

  /** One report read by the thread: the report, the buffer size, and the heartbeat flag when it was tested. */
  datatype Read = Read(report: bytes, bufSize: nat, passHeartbeats: bool)

  datatype Reader = Reader(
    queue: seq<Req>, started: bool, shutdown: bool, shuttingDown: bool, pc: PC,
    issued: seq<Req>, completed: seq<Completion>, seen: seq<Read>)

  function Opened(): Reader {
    Reader([], false, false, false, Outside, [], [], [])
  }

  function Truncated(report: bytes, size: nat): (data: bytes)
    ensures |data| <= size
  {
    if |report| <= size then report else report[..size]
  }

  predicate IsHeartbeat(data: bytes) {
    && |data| == HEARTBEAT_SIZE && data[0] == REPORT_STATUS_ID && data[1..9] == HidFrames.MAGIC
    && data[9] == 0x07 && data[10] == 0 && data[11] == 0 && data[12] == 0
    && (data[13] == 0x01 || data[13] == 0x02)
  }

  /** The filters of the read loop; an empty read passes them. */
  predicate Passes(data: bytes, passHeartbeats: bool) {
    && (data != [] ==> data[0] == REPORT_IN_ID || data[0] == REPORT_STATUS_ID)
    && (IsHeartbeat(data) ==> passHeartbeats)
  }

  /** Zero-padded to the buffer. */
  function Padded(data: bytes, size: nat): (r: bytes)
    requires |data| <= size
    ensures |r| == size
  {
    data + Zeros(size - |data|)
  }

  function ResultOf(req: Req, data: bytes): Completion
    requires |data| <= req.bufSize
  {
    if data == [] then Cancelled(req) else Delivered(req, Padded(data, req.bufSize))
  }

  /** What read brings: a report, EAGAIN and how the poll after it ends, or another error. */
  datatype Input = Got(report: bytes, passHeartbeats: bool) | Again(pollOk: bool) | ReadError

  datatype Event =
    | Queue(req: Req, created: bool)
    | SetShutdown
    | SetShuttingDown
    | Tick(input: Input)

  predicate Stopping(r: Reader) {
    r.shutdown || r.shuttingDown
  }

  /** `hid_file_read`. The first one starts the thread; the read is refused if that fails. */
  function Queued(r: Reader, req: Req, created: bool): Reader {
    if !r.started && !created then r
    else r.(started := true, queue := r.queue + [req], issued := r.issued + [req])
  }

  /** The section under the lock. */
  function Taken(r: Reader): Reader {
    if Stopping(r) then r.(queue := [], pc := Cancelling(r.queue))
    else if r.queue == [] then r
    else r.(queue := r.queue[1..], pc := Reading(r.queue[0]))
  }

  /** One round of the read loop. */
  function ReadOne(r: Reader, req: Req, input: Input): Reader {
    match input
    case Got(report, pass) =>
      var data := Truncated(report, req.bufSize);
      var r1 := r.(seen := r.seen + [Read(report, req.bufSize, pass)]);
      if Passes(data, pass) then r1.(pc := Completing(ResultOf(req, data))) else r1
    case Again(pollOk) => if Stopping(r) || !pollOk then r.(pc := Completing(Cancelled(req))) else r
    case ReadError => r.(pc := Completing(Cancelled(req)))
  }

  /** One step of the reader thread. */
  function Ticked(r: Reader, input: Input): Reader {
    if !r.started then r
    else match r.pc
      case Outside => r.(pc := if Stopping(r) then Finished else Waiting)
      case Waiting => Taken(r)
      case Reading(req) => ReadOne(r, req, input)
      case Completing(what) => r.(completed := r.completed + [what], pc := Outside)
      case Cancelling(rest) =>
        if rest == [] then r.(pc := Finished)
        else r.(completed := r.completed + [Cancelled(rest[0])], pc := Cancelling(rest[1..]))
      case Finished => r
  }

  function Step(r: Reader, e: Event): Reader {
    match e
    case Queue(req, created) => Queued(r, req, created)
    case SetShutdown => r.(shutdown := true)
    case SetShuttingDown => r.(shuttingDown := true)
    case Tick(input) => Ticked(r, input)
  }

  function Run(r: Reader, es: seq<Event>): Reader
    decreases |es|
  {
    if es == [] then r else Run(Step(r, es[0]), es[1..])
  }

  // ---------------------------------------------------------------- conservation and order

  function Reqs(cs: seq<Completion>): (rs: seq<Req>)
    ensures |rs| == |cs| && forall i {:trigger rs[i]} :: 0 <= i < |cs| ==> rs[i] == cs[i].req
  {
    seq(|cs|, i requires 0 <= i < |cs| => cs[i].req)
  }

  /** The reads that are neither queued nor completed. */
  function InFlight(pc: PC): seq<Req> {
    match pc
    case Reading(req) => [req]
    case Completing(what) => [what.req]
    case Cancelling(rest) => rest
    case _ => []
  }

  /** Every read is in exactly one place, in the order in which reads were queued. */
  ghost predicate Conserved(r: Reader) {
    r.issued == Reqs(r.completed) + InFlight(r.pc) + r.queue
  }

  lemma CompleteConserves(r: Reader, t: Reader, c: Completion)
    requires Conserved(r) && t.issued == r.issued && t.completed == r.completed + [c]
    requires InFlight(r.pc) + r.queue == [c.req] + (InFlight(t.pc) + t.queue)
    ensures Conserved(t)
  {
    assert Reqs(t.completed) == Reqs(r.completed) + [c.req];
    assert r.issued == Reqs(r.completed) + (InFlight(r.pc) + r.queue);
  }

  /** Steps that complete nothing. */
  lemma MoveConserves(r: Reader, t: Reader)
    requires Conserved(r) && t.completed == r.completed
    requires t.issued == r.issued && InFlight(t.pc) + t.queue == InFlight(r.pc) + r.queue
    ensures Conserved(t)
  {
    assert r.issued == Reqs(r.completed) + (InFlight(r.pc) + r.queue);
  }

  lemma ReadConserves(r: Reader, input: Input)
    requires Conserved(r) && r.pc.Reading?
    ensures Conserved(ReadOne(r, r.pc.req, input))
  {
    hide Conserved, Passes, Truncated, Padded;
    MoveConserves(r, ReadOne(r, r.pc.req, input));
  }

  lemma TakeConserves(r: Reader)
    requires Conserved(r) && r.pc == Waiting
    ensures Conserved(Taken(r))
  {
    hide Conserved;
    if !Stopping(r) && r.queue != [] { assert r.queue == [r.queue[0]] + r.queue[1..]; }
    MoveConserves(r, Taken(r));
  }

  lemma TickConserves(r: Reader, input: Input)
    requires Conserved(r) && r.started
    ensures Conserved(Ticked(r, input))
  {
    var t := Ticked(r, input);
    hide Conserved, Reqs, ReadOne, Taken;
    match r.pc
    case Reading(_) => ReadConserves(r, input);
    case Waiting => TakeConserves(r);
    case Completing(what) => CompleteConserves(r, t, what);
    case Cancelling(rest) =>
      if rest == [] {
        MoveConserves(r, t);
      } else {
        assert rest == [rest[0]] + rest[1..];
        CompleteConserves(r, t, Cancelled(rest[0]));
      }
    case _ => MoveConserves(r, t);
  }

  lemma StepConserves(r: Reader, e: Event)
    requires Conserved(r)
    ensures Conserved(Step(r, e))
  {
    if e.Tick? && r.started { TickConserves(r, e.input); }
    hide Ticked;
  }

  lemma {:induction false} RunConserves(r: Reader, es: seq<Event>)
    requires Conserved(r)
    ensures Conserved(Run(r, es))
    decreases |es|
  {
    if es != [] {
      StepConserves(r, es[0]);
      RunConserves(Step(r, es[0]), es[1..]);
    }
  }

  /** In every interleaving: reads are completed in the order in which they were queued, each at most
      once, and what is not completed is in flight or still queued, in that order. */
  lemma ReadsAreConserved(es: seq<Event>)
    ensures var r := Run(Opened(), es);
      && r.issued == Reqs(r.completed) + InFlight(r.pc) + r.queue
      && Reqs(r.completed) <= r.issued
      && multiset(r.issued) == multiset(Reqs(r.completed)) + multiset(InFlight(r.pc)) + multiset(r.queue)
  {
    assert Reqs([]) == [];
    RunConserves(Opened(), es);
  }

  // ---------------------------------------------------------------- what is delivered

  /** The reports that pass the filters, padded, in the order in which they were read. */
  function Accepted(seen: seq<Read>): seq<bytes> {
    if seen == [] then []
    else
      var x := seen[|seen| - 1];
      var data := Truncated(x.report, x.bufSize);
      Accepted(seen[..|seen| - 1]) + if data != [] && Passes(data, x.passHeartbeats) then [Padded(data, x.bufSize)] else []
  }

  function DataOf(cs: seq<Completion>): seq<bytes> {
    if cs == [] then []
    else DataOf(cs[..|cs| - 1]) + if cs[|cs| - 1].Delivered? then [cs[|cs| - 1].data] else []
  }

  function Pending(pc: PC): seq<Completion> {
    if pc.Completing? then [pc.what] else []
  }

  /** Everything accepted has been delivered, up to the completion in progress; a delivery fills its buffer. */
  ghost predicate InOrder(r: Reader) {
    && DataOf(r.completed + Pending(r.pc)) == Accepted(r.seen)
    && (forall i {:trigger r.completed[i]} :: 0 <= i < |r.completed| && r.completed[i].Delivered? ==>
          |r.completed[i].data| == r.completed[i].req.bufSize)
    && (r.pc.Completing? && r.pc.what.Delivered? ==> |r.pc.what.data| == r.pc.what.req.bufSize)
  }

  lemma DataOfSnoc(cs: seq<Completion>, c: Completion)
    ensures DataOf(cs + [c]) == DataOf(cs) + if c.Delivered? then [c.data] else []
  {
    assert (cs + [c])[..|cs|] == cs;
  }

  lemma AcceptedSnoc(seen: seq<Read>, x: Read)
    ensures Accepted(seen + [x]) == Accepted(seen) +
      var data := Truncated(x.report, x.bufSize);
      if data != [] && Passes(data, x.passHeartbeats) then [Padded(data, x.bufSize)] else []
  {
    assert (seen + [x])[..|seen|] == seen;
  }

  lemma ReadInOrder(r: Reader, input: Input)
    requires InOrder(r) && r.pc.Reading?
    ensures InOrder(ReadOne(r, r.pc.req, input))
  {
    var t := ReadOne(r, r.pc.req, input);
    assert r.completed + [] == r.completed;
    if t.seen != r.seen { AcceptedSnoc(r.seen, Read(input.report, r.pc.req.bufSize, input.passHeartbeats)); }
    if t.pc.Completing? { DataOfSnoc(r.completed, t.pc.what); }
  }

  lemma CompletedInOrder(r: Reader, t: Reader, c: Completion)
    requires InOrder(r) && t.completed == r.completed + [c] && t.seen == r.seen && !t.pc.Completing?
    requires r.pc == Completing(c) || (r.pc.Cancelling? && c.Cancelled?)
    ensures InOrder(t)
  {
    assert t.completed + [] == t.completed && r.completed + [] == r.completed;
    DataOfSnoc(r.completed, c);
  }

  lemma StepInOrder(r: Reader, e: Event)
    requires InOrder(r)
    ensures InOrder(Step(r, e))
  {
    var t := Step(r, e);
    if e.Tick? && r.started {
      match r.pc
      case Reading(_) => ReadInOrder(r, e.input);
      case Completing(what) => CompletedInOrder(r, t, what);
      case Cancelling(rest) => if rest != [] { CompletedInOrder(r, t, Cancelled(rest[0])); }
      case _ =>
    }
    hide ReadOne;
  }

  lemma {:induction false} RunInOrder(r: Reader, es: seq<Event>)
    requires InOrder(r)
    ensures InOrder(Run(r, es))
    decreases |es|
  {
    if es != [] {
      StepInOrder(r, es[0]);
      RunInOrder(Step(r, es[0]), es[1..]);
    }
  }

  /** The reports the thread read in a run, each for the read it was serving. */
  function ReadsOf(r: Reader, es: seq<Event>): seq<Read>
    decreases |es|
  {
    if es == [] then []
    else
      (if es[0].Tick? && es[0].input.Got? && r.started && r.pc.Reading?
       then [Read(es[0].input.report, r.pc.req.bufSize, es[0].input.passHeartbeats)] else [])
      + ReadsOf(Step(r, es[0]), es[1..])
  }

  lemma {:induction false} SeenAreReads(r: Reader, es: seq<Event>)
    ensures Run(r, es).seen == r.seen + ReadsOf(r, es)
    decreases |es|
  {
    if es == [] {
      assert r.seen + ReadsOf(r, es) == r.seen;
    } else {
      SeenAreReads(Step(r, es[0]), es[1..]);
      StepSees(r, es[0]);
      hide Step;
      var first := Seen(r, es[0]);
      assert r.seen + ReadsOf(r, es) == r.seen + first + ReadsOf(Step(r, es[0]), es[1..]);
    }
  }

  function Seen(r: Reader, e: Event): seq<Read> {
    if e.Tick? && e.input.Got? && r.started && r.pc.Reading? then [Read(e.input.report, r.pc.req.bufSize, e.input.passHeartbeats)]
    else []
  }

  lemma StepSees(r: Reader, e: Event)
    ensures Step(r, e).seen == r.seen + Seen(r, e)
  {
    if Seen(r, e) == [] { assert r.seen + Seen(r, e) == r.seen; }
  }

  /** The data delivered are exactly the reports read that pass the filters, in stream order, zero-padded to
      the size of the read's buffer; the last one may still be on its way. */
  lemma DeliveriesAreFiltered(es: seq<Event>)
    ensures var r := Run(Opened(), es);
      && DataOf(r.completed + Pending(r.pc)) == Accepted(ReadsOf(Opened(), es))
      && (forall i :: 0 <= i < |r.completed| && r.completed[i].Delivered? ==> |r.completed[i].data| == r.completed[i].req.bufSize)
  {
    RunInOrder(Opened(), es);
    SeenAreReads(Opened(), es);
    assert Opened().seen + ReadsOf(Opened(), es) == ReadsOf(Opened(), es);
  }

  /** When one round of the read loop leaves it, and with what. */
  lemma RoundMeans(r: Reader, input: Input)
    requires r.started && r.pc.Reading?
    ensures var req, t := r.pc.req, Step(r, Tick(input));
      var data := if input.Got? then Truncated(input.report, req.bufSize) else [];
      && (t.pc == r.pc <==> (input.Got? && !Passes(data, input.passHeartbeats)) || (input == Again(true) && !Stopping(r)))
      && (t.pc != r.pc ==> t.pc == Completing(if data != [] then Delivered(req, Padded(data, req.bufSize)) else Cancelled(req)))
      && t.queue == r.queue && t.completed == r.completed
  {
  }

  predicate Usable(input: Input, size: nat) {
    input.Got? && Truncated(input.report, size) != [] && Passes(Truncated(input.report, size), input.passHeartbeats)
  }

  /** A running thread completes the oldest read with the first report that passes the filters. */
  lemma Serves(r: Reader, es: seq<Event>)
    requires r.started && !Stopping(r) && r.pc == Outside && r.queue != []
    requires OnlyTicks(es) && |es| == 4 && Usable(es[2].input, r.queue[0].bufSize)
    ensures var req, t := r.queue[0], Run(r, es);
      && t.pc == Outside && t.queue == r.queue[1..]
      && t.completed == r.completed + [Delivered(req, Padded(Truncated(es[2].input.report, req.bufSize), req.bufSize))]
  {
    var req := r.queue[0];
    assert es[0].Tick? && es[1].Tick? && es[3].Tick?;
    var r1 := Step(r, es[0]);
    var r2 := Step(r1, es[1]);
    assert r2.pc == Reading(req) && r2.queue == r.queue[1..];
    RoundMeans(r2, es[2].input);
    var r3 := Step(r2, es[2]);
    var r4 := Step(r3, es[3]);
    hide Step, Passes, Padded, Truncated;
    assert es[1..][0] == es[1] && es[1..][1..][0] == es[2] && es[1..][1..][1..][0] == es[3] && es[1..][1..][1..][1..] == [];
    assert Run(r4, []) == r4;
    assert Run(r3, es[1..][1..][1..]) == r4;
    assert Run(r2, es[1..][1..]) == r4;
    assert Run(r1, es[1..]) == r4;
  }

  // ---------------------------------------------------------------- shutdown

  function NewOf(e: Event): seq<Req> {
    if e.Queue? then [e.req] else []
  }

  /** The reads queued by a run of a started thread. */
  function NewReads(es: seq<Event>): seq<Req>
    decreases |es|
  {
    if es == [] then [] else NewOf(es[0]) + NewReads(es[1..])
  }

  /** The events after the first step of the thread. */
  function AfterTick(es: seq<Event>): seq<Event>
    decreases |es|
  {
    if es == [] then [] else if es[0].Tick? then es[1..] else AfterTick(es[1..])
  }

  /** What a thread that is to stop leaves in the queue: only the step that holds the lock empties it, and
      once a flag is set only a thread that is there already gets to make that step. */
  function LeftBehind(r: Reader, es: seq<Event>): seq<Req> {
    if r.pc == Waiting then NewReads(AfterTick(es)) else r.queue + NewReads(es)
  }

  lemma StepKept(r: Reader, e: Event)
    requires r.started && Stopping(r) && r.pc != Waiting
    ensures var t := Step(r, e);
      t.started && Stopping(t) && t.pc != Waiting && t.queue == r.queue + NewOf(e)
  {
    if !e.Queue? { assert r.queue + NewOf(e) == r.queue; }
  }

  lemma {:induction false} QueueKept(r: Reader, es: seq<Event>)
    requires r.started && Stopping(r) && r.pc != Waiting
    ensures Run(r, es).queue == r.queue + NewReads(es)
    decreases |es|
  {
    hide Step, NewOf, Stopping;
    if es == [] {
      assert r.queue + NewReads(es) == r.queue;
    } else {
      StepKept(r, es[0]);
      QueueKept(Step(r, es[0]), es[1..]);
      assert r.queue + NewReads(es) == r.queue + NewOf(es[0]) + NewReads(es[1..]);
    }
  }

  /** Once a flag is set, every run to the end of the thread leaves exactly these reads in the queue. */
  lemma {:induction false} ShutdownLeaves(r: Reader, es: seq<Event>)
    requires r.started && Stopping(r) && r.pc != Finished && Run(r, es).pc == Finished
    ensures Run(r, es).queue == LeftBehind(r, es)
    decreases |es|
  {
    if r.pc != Waiting {
      QueueKept(r, es);
    } else {
      assert es != [];
      var t := Step(r, es[0]);
      if es[0].Tick? {
        QueueKept(t, es[1..]);
        assert t.queue + NewReads(es[1..]) == NewReads(es[1..]);
      } else {
        ShutdownLeaves(t, es[1..]);
      }
    }
  }

  /** So all reads queued before the flag was set are completed exactly if the thread is waiting for the
      lock at that moment, or nothing is queued then; also when reads are queued afterwards. */
  lemma AllCompletedIff(r: Reader, es: seq<Event>)
    requires Conserved(r) && r.started && Stopping(r) && r.pc != Finished && Run(r, es).pc == Finished
    ensures r.issued <= Reqs(Run(r, es).completed) <==> r.pc == Waiting || r.queue == []
    ensures Reqs(Run(r, es).completed) + LeftBehind(r, es) == r.issued + NewReads(es)
  {
    hide Step, Reqs, Conserved, NewReads, Run, AfterTick;
    RunConserves(r, es);
    Issues(r, es);
    ShutdownLeaves(r, es);
    FinishedIssued(Run(r, es));
    FewerAfterTick(es);
    Prefixes(r.issued, NewReads(es), Reqs(Run(r, es).completed), LeftBehind(r, es));
  }

  /** Two ways to cut a list: the first front is the shorter one exactly if the second rest is. */
  lemma Prefixes<T>(a: seq<T>, b: seq<T>, c: seq<T>, d: seq<T>)
    requires a + b == c + d
    ensures a <= c <==> |d| <= |b|
  {
    assert |a| + |b| == |c| + |d|;
    if |a| <= |c| {
      assert a == (a + b)[..|a|] == (c + d)[..|a|] == c[..|a|];
    }
  }

  lemma FinishedIssued(r: Reader)
    requires Conserved(r) && r.pc == Finished
    ensures r.issued == Reqs(r.completed) + r.queue
  {
    assert Reqs(r.completed) + [] == Reqs(r.completed);
  }

  lemma {:induction false} FewerAfterTick(es: seq<Event>)
    ensures |NewReads(AfterTick(es))| <= |NewReads(es)|
    decreases |es|
  {
    if es != [] { FewerAfterTick(es[1..]); }
  }

  lemma {:induction false} Issues(r: Reader, es: seq<Event>)
    requires r.started
    ensures Run(r, es).issued == r.issued + NewReads(es)
    decreases |es|
  {
    hide Step, NewOf;
    if es == [] {
      assert r.issued + NewReads(es) == r.issued;
    } else {
      StepIssues(r, es[0]);
      Issues(Step(r, es[0]), es[1..]);
      assert r.issued + NewReads(es) == r.issued + NewOf(es[0]) + NewReads(es[1..]);
    }
  }

  lemma StepIssues(r: Reader, e: Event)
    requires r.started
    ensures Step(r, e).started && Step(r, e).issued == r.issued + NewOf(e)
  {
    if !e.Queue? { assert r.issued + NewOf(e) == r.issued; }
  }

  /** For instance a read queued behind the one in flight. */
  lemma ReadsLeftBehind(a: Req, b: Req) returns (es: seq<Event>)
    ensures var r := Run(Opened(), es);
      r.pc == Finished && r.completed == [Cancelled(a)] && r.queue == [b]
      && forall input :: Step(r, Tick(input)) == r
  {
    var t := Tick(ReadError);
    var end := [t] + ([t] + ([t] + []));
    es := [Queue(a, true)] + ([Queue(b, true)] + ([t] + ([t] + ([SetShutdown] + end))));
    var r1 := RunCons(Opened(), Queue(a, true), [Queue(b, true)] + ([t] + ([t] + ([SetShutdown] + end))));
    var r2 := RunCons(r1, Queue(b, true), [t] + ([t] + ([SetShutdown] + end)));
    assert r2.queue == [a, b];
    var r3 := RunCons(r2, t, [t] + ([SetShutdown] + end));
    var r4 := RunCons(r3, t, [SetShutdown] + end);
    assert r4.queue == [b] && r4.pc == Reading(a);
    var r5 := RunCons(r4, SetShutdown, end);
    var r6 := RunCons(r5, t, [t] + ([t] + []));
    var r7 := RunCons(r6, t, [t] + []);
    var r8 := RunCons(r7, t, []);
    assert Run(r8, []) == r8;
  }

  lemma RunCons(r: Reader, e: Event, es: seq<Event>) returns (t: Reader)
    ensures t == Step(r, e) && Run(r, [e] + es) == Run(t, es)
  {
    t := Step(r, e);
    assert ([e] + es)[1..] == es;
  }

  /** A report that is filtered out while the thread reads; it goes on reading, whatever the flags say. */
  predicate Skipped(r: Reader, e: Event) {
    && e.Tick? && e.input.Got? && r.pc.Reading?
    && !Passes(Truncated(e.input.report, r.pc.req.bufSize), e.input.passHeartbeats)
  }

  /** The ticks of a run that are not spent on such reports. */
  function Steps(r: Reader, es: seq<Event>): nat
    decreases |es|
  {
    if es == [] then 0
    else (if es[0].Tick? && !Skipped(r, es[0]) then 1 else 0) + Steps(Step(r, es[0]), es[1..])
  }

  /** How many it takes a thread that is to stop to end. */
  function Budget(r: Reader): nat {
    match r.pc
    case Outside => 1
    case Waiting => |r.queue| + 2
    case Reading(_) => 3
    case Completing(_) => 2
    case Cancelling(rest) => |rest| + 1
    case Finished => 0
  }

  lemma StepSpends(r: Reader, e: Event)
    requires r.started && Stopping(r)
    ensures var t := Step(r, e);
      && t.started && Stopping(t)
      && Budget(t) <= Budget(r) + |NewOf(e)|
      && (e.Tick? && !Skipped(r, e) && r.pc != Finished ==> Budget(t) < Budget(r))
  {
  }

  /** A thread that is to stop ends within a known number of steps, wherever it is, whatever the device does and
      whatever is queued meanwhile; only reports that are filtered out do not count. */
  lemma {:induction false} StopsWithin(r: Reader, es: seq<Event>)
    requires r.started && Stopping(r) && Steps(r, es) >= Budget(r) + |NewReads(es)|
    ensures Run(r, es).pc == Finished
    decreases |es|
  {
    if r.pc == Finished {
      StaysFinished(r, es);
    } else {
      assert es != [];
      StepSpends(r, es[0]);
      hide Step, Skipped, Budget, NewOf, Stopping;
      StopsWithin(Step(r, es[0]), es[1..]);
    }
  }

  lemma {:induction false} StaysFinished(r: Reader, es: seq<Event>)
    requires r.pc == Finished
    ensures Run(r, es).pc == Finished
    decreases |es|
  {
    if es != [] { StaysFinished(Step(r, es[0]), es[1..]); }
  }

  /** The read in flight is cancelled at shutdown as soon as the device has no report. */
  lemma InFlightIsCancelled(r: Reader, es: seq<Event>)
    requires r.started && Stopping(r) && r.pc.Reading? && OnlyTicks(es) && |es| == 3 && !es[0].input.Got?
    ensures var t := Run(r, es);
      t.pc == Finished && t.completed == r.completed + [Cancelled(r.pc.req)] && t.queue == r.queue
  {
    var r1 := Step(r, es[0]);
    assert es[1].Tick? && es[2].Tick?;
    RoundMeans(r, es[0].input);
    var r2 := Step(r1, es[1]);
    var r3 := Step(r2, es[2]);
    hide Step, Passes, Padded, Truncated;
    assert es[1..][0] == es[1] && es[1..][1..][0] == es[2] && es[1..][1..][1..] == [];
    assert Run(r3, []) == r3;
    assert Run(r2, es[1..][1..]) == r3;
    assert Run(r1, es[1..]) == r3;
  }

  function AllCancelled(rs: seq<Req>): (cs: seq<Completion>)
    ensures |cs| == |rs| && forall i {:trigger cs[i]} :: 0 <= i < |rs| ==> cs[i] == Cancelled(rs[i])
  {
    seq(|rs|, i requires 0 <= i < |rs| => Cancelled(rs[i]))
  }

  ghost predicate OnlyTicks(es: seq<Event>) {
    forall i {:trigger es[i]} :: 0 <= i < |es| ==> es[i].Tick?
  }

  /** A waiting thread that is to stop cancels all that is queued, in order, and ends, whatever the device does. */
  lemma CancelsAll(r: Reader, es: seq<Event>)
    requires r.started && Stopping(r) && r.pc == Waiting
    requires OnlyTicks(es) && |es| == |r.queue| + 2
    ensures var t := Run(r, es);
      t.pc == Finished && t.queue == [] && t.completed == r.completed + AllCancelled(r.queue)
  {
    assert es[0].Tick?;
    CancelsRest(Step(r, es[0]), r.queue, es[1..]);
  }

  lemma {:induction false} CancelsRest(r: Reader, rest: seq<Req>, es: seq<Event>)
    requires r.started && r.pc == Cancelling(rest) && OnlyTicks(es) && |es| == |rest| + 1
    ensures var t := Run(r, es);
      t.pc == Finished && t.queue == r.queue && t.completed == r.completed + AllCancelled(rest)
    decreases |rest|
  {
    assert es[0].Tick?;
    var r1 := Step(r, es[0]);
    if rest == [] {
      assert Run(r1, es[1..]) == r1;
      assert r.completed + AllCancelled(rest) == r.completed;
    } else {
      CancelsRest(r1, rest[1..], es[1..]);
      assert r.completed + AllCancelled(rest) == r1.completed + AllCancelled(rest[1..]);
    }
  }
}

/** fileops.c itself: the linked queue, the buffers, and the reader thread cut at its steps. */
module ReadQueue {
  import opened Bytes
  import opened ReadSpec
  import HidFrames

  /** struct hid_read_req. */
  class ReadReq {
    const ovlp: nat
    const buf: array<byte>
    var next: ReadReq?

    constructor (ovlp: nat, buf: array<byte>)
      ensures this.ovlp == ovlp && this.buf == buf && next == null
    {
      this.ovlp, this.buf, next := ovlp, buf, null;
    }
  }

  function ValueOf(q: ReadReq): Req {
    Req(q.ovlp, q.buf.Length)
  }

  function Values(list: seq<ReadReq>): (rs: seq<Req>)
    ensures |rs| == |list| && forall i {:trigger rs[i]} :: 0 <= i < |list| ==> rs[i] == ValueOf(list[i])
  {
    seq(|list|, i requires 0 <= i < |list| => ValueOf(list[i]))
  }

  function At(list: seq<ReadReq>, i: int): ReadReq? {
    if 0 <= i < |list| then list[i] else null
  }

  /** `list` is threaded by `next` and ends there. */
  ghost predicate Threaded(list: seq<ReadReq>)
    reads list
  {
    && (forall i {:trigger list[i].next} :: 0 <= i < |list| ==> list[i].next == At(list, i + 1))
    && (forall i, j :: 0 <= i < j < |list| ==> list[i] != list[j])
  }

  ghost predicate Owned(list: seq<ReadReq>, repr: set<object>) {
    forall i {:trigger list[i]} :: 0 <= i < |list| ==> list[i] in repr && list[i].buf in repr
  }

  ghost predicate Apart(list: seq<ReadReq>, rest: seq<ReadReq>) {
    forall i {:trigger rest[i]} :: 0 <= i < |rest| ==> rest[i] !in list
  }

  /** The list without its head. */
  lemma TailOf(list: seq<ReadReq>, other: seq<ReadReq>, repr: set<object>)
    requires Threaded(list) && Owned(list, repr) && Apart(list, other) && list != []
    ensures Threaded(list[1..]) && Owned(list[1..], repr) && Apart(list[1..], other)
    ensures list[0].next == At(list[1..], 0) && At(list[1..], |list| - 2) == (if |list| == 1 then null else list[|list| - 1])
    ensures list[0] in repr && list[0].buf in repr
    ensures Values(list) != [] && ValueOf(list[0]) == Values(list)[0] && Values(list[1..]) == Values(list)[1..]
  {
    var tail := list[1..];
    assert list[0].next == At(list, 1);
    assert forall i {:trigger tail[i]} :: 0 <= i < |tail| ==> tail[i] == list[i + 1];
    assert Values(tail) == Values(list)[1..];
  }

  lemma AppendedTo(list: seq<ReadReq>, rest: seq<ReadReq>, repr: set<object>, q: ReadReq)
    requires Owned(list, repr) && Owned(rest, repr) && Apart(list, rest) && q !in rest
    ensures Owned(list + [q], repr + {q, q.buf}) && Owned(rest, repr + {q, q.buf}) && Apart(list + [q], rest)
    ensures Values(list + [q]) == Values(list) + [ValueOf(q)]
  {
  }

  lemma NotIn(list: seq<ReadReq>, repr: set<object>, q: ReadReq)
    requires Owned(list, repr) && q !in repr
    ensures q !in list
  {
  }

  lemma ApartTail(list: seq<ReadReq>, rest: seq<ReadReq>)
    requires Apart(list, rest) && rest != []
    ensures Apart(list, rest[1..]) && Apart(rest, [])
  {
  }

  /** Where the thread is in its loops. */
  datatype Place = AtTest | AtLock | InReadLoop | AfterReadLoop | InCancelLoop | Returned

  /** struct hid_reader_ctx with the global flag, the locals of the thread and what it has completed. */
  class ReaderCtx {
    var threadStarted: bool
    var shutdown: bool
    var shuttingDown: bool
    var queueHead: ReadReq?
    var queueTail: ReadReq?
    var place: Place
    var req: ReadReq?           // the read being served
    var n: int                  // what read returned for it
    var walk: ReadReq?          // the next read to cancel
    var completed: seq<Completion>
    ghost var list: seq<ReadReq>
    ghost var rest: seq<ReadReq>
    ghost var issued: seq<Req>
    ghost var seen: seq<Read>
    ghost var repr: set<object>

    ghost predicate Valid()
      reads this, repr
    {
      && this in repr
      && Owned(list, repr) && Owned(rest, repr) && Apart(list, rest)
      && Threaded(list) && queueHead == At(list, 0) && queueTail == At(list, |list| - 1)
      && Threaded(rest) && walk == At(rest, 0)
      && (place == InReadLoop || place == AfterReadLoop ==> req != null && req.buf in repr)
      && (place == AfterReadLoop && n > 0 ==> n == req.buf.Length)
    }

    ghost function Where(): PC
      requires Valid()
      reads this, repr
    {
      match place
      case AtTest => Outside
      case AtLock => Waiting
      case InReadLoop => Reading(ValueOf(req))
      case AfterReadLoop =>
        Completing(if n > 0 then Delivered(ValueOf(req), req.buf[..]) else Cancelled(ValueOf(req)))
      case InCancelLoop => Cancelling(Values(rest))
      case Returned => Finished
    }

    /** The machine's state. */
    ghost function State(): Reader
      requires Valid()
      reads this, repr
    {
      Reader(Values(list), threadStarted, shutdown, shuttingDown, Where(), issued, completed, seen)
    }

    constructor ()
      ensures Valid() && State() == Opened() && fresh(repr)
    {
      threadStarted, shutdown, shuttingDown, queueHead, queueTail := false, false, false, null, null;
      place, req, n, walk, completed := AtTest, null, 0, null, [];
      list, rest, issued, seen, repr := [], [], [], [], {this};
    }

    /** `hid_file_read`; `created` is whether pthread_create succeeds. */
    method HidFileRead(ovlp: nat, buf: array<byte>, created: bool) returns (ok: bool)
      requires Valid()
      modifies this, list
      ensures Valid() && fresh(repr - old(repr) - {buf})
      ensures State() == Queued(old(State()), Req(ovlp, buf.Length), created)
      ensures ok <==> old(threadStarted) || created
      ensures Values(list) == if ok then Values(old(list)) + [Req(ovlp, buf.Length)] else Values(old(list))
    {
      var q := new ReadReq(ovlp, buf);
      if !threadStarted {
        if !created { return false; }
        threadStarted := true;
      }
      hide Threaded, Values, Owned, Apart;
      Enqueue(q);
      return true;
    }

    /** The end of it: the request joins the queue. */
    method Enqueue(q: ReadReq)
      requires Valid() && q !in repr && q.next == null
      modifies this`queueHead, this`queueTail, this`list, this`issued, this`repr, list`next
      ensures Valid() && repr == old(repr) + {q, q.buf} && issued == old(issued) + [ValueOf(q)]
      ensures Values(list) == Values(old(list)) + [ValueOf(q)] && Where() == old(Where())
    {
      hide Threaded, Values, Owned, Apart;
      NotIn(list, repr, q);
      NotIn(rest, repr, q);
      AppendedTo(list, rest, repr, q);
      Append(q);
      issued, repr := issued + [ValueOf(q)], repr + {q, q.buf};
    }

    /** It becomes the tail. */
    method Append(q: ReadReq)
      requires Threaded(list) && queueHead == At(list, 0) && queueTail == At(list, |list| - 1)
      requires Threaded(rest) && Apart(list, rest) && q.next == null && q !in list && q !in rest
      modifies this`queueHead, this`queueTail, this`list, list`next
      ensures Threaded(list) && queueHead == At(list, 0) && queueTail == At(list, |list| - 1)
      ensures Threaded(rest) && list == old(list) + [q]
    {
      if queueTail != null { queueTail.next := q; } else { queueHead := q; }
      queueTail := q;
      ghost var was := list;
      list := list + [q];
      assert forall i {:trigger list[i]} :: 0 <= i < |was| ==> list[i] == was[i];
    }

    /** The test of the outer loop. */
    method TestFlags()
      requires Valid() && threadStarted && place == AtTest
      modifies this`place
      ensures Valid() && forall input :: State() == Ticked(old(State()), input)
    {
      hide Threaded, Values, Owned, Apart;
      place := if shutdown || shuttingDown then Returned else AtLock;
    }

    /** The section under the lock: the whole queue is taken off, or the oldest read. With neither a flag
        nor a read the thread goes on waiting. */
    method LockedSection()
      requires Valid() && threadStarted && place == AtLock
      modifies this`queueHead, this`queueTail, this`list, this`walk, this`rest, this`place, this`req
      ensures Valid() && State() == Taken(old(State()))
    {
      assert list == [] <==> queueHead == null;
      assert list == [] <==> Values(list) == [];
      hide Threaded, Values, Owned, Apart;
      if shutdown || shuttingDown {
        TakeAll();
      } else if queueHead != null {
        TakeHead();
      }
    }

    /** Everything queued is taken off to be cancelled. */
    method TakeAll()
      requires Valid() && place == AtLock
      modifies this`queueHead, this`queueTail, this`list, this`walk, this`rest, this`place
      ensures Valid() && place == InCancelLoop && rest == old(list) && Values(list) == []
    {
      walk, rest := queueHead, list;
      queueHead, queueTail, list := null, null, [];
      place := InCancelLoop;
    }

    /** The oldest read leaves the queue to be served. */
    method TakeHead()
      requires Valid() && queueHead != null && place == AtLock
      modifies this`queueHead, this`queueTail, this`list, this`place, this`req
      ensures Valid() && Values(old(list)) != [] && Values(list) == Values(old(list))[1..]
      ensures place == InReadLoop && req != null && ValueOf(req) == Values(old(list))[0]
    {
      TailOf(list, rest, repr);
      hide Threaded, Values, Owned, Apart;
      req := queueHead;
      queueHead := req.next;
      if queueHead == null { queueTail := null; }
      list := list[1..];
      place := InReadLoop;
    }

    /** The filters of the read loop. */
    static method Skips(data: array<byte>, n: nat, passHeartbeats: bool) returns (skip: bool)
      requires n <= data.Length
      ensures skip <==> !Passes(data[..n], passHeartbeats)
    {
      if n > 0 && data[0] != REPORT_IN_ID && data[0] != REPORT_STATUS_ID { return true; }
      if n == 20 && data[0] == REPORT_STATUS_ID {
        ghost var d := data[..n];
        var magic := data[1..9] == HidFrames.MAGIC;
        assert data[1..9] == d[1..9];
        if magic && data[9] == 0x07 && data[10] == 0x00 && data[11] == 0x00 && data[12] == 0x00 {
          var hbType := data[13];
          if !passHeartbeats && (hbType == 0x01 || hbType == 0x02) { return true; }
        }
      }
      return false;
    }

    /** `read` puts as much of a report into the buffer as fits. */
    static method ReadInto(buf: array<byte>, report: bytes) returns (n: nat)
      modifies buf
      ensures n <= buf.Length && buf[..n] == Truncated(report, buf.Length)
    {
      n := if |report| <= buf.Length then |report| else buf.Length;
      forall k | 0 <= k < n {
        buf[k] := report[k];
      }
    }

    /** The padding behind the loop; returns the new length. */
    static method Pad(buf: array<byte>, n: nat) returns (m: nat)
      requires n <= buf.Length
      modifies buf
      ensures m == if n > 0 then buf.Length else 0
      ensures n > 0 ==> buf[..] == Padded(old(buf[..n]), buf.Length)
    {
      m := n;
      if 0 < n < buf.Length {
        forall k | n <= k < buf.Length {
          buf[k] := 0;
        }
        m := buf.Length;
      }
      assert n > 0 ==> buf[..] == Padded(old(buf[..n]), buf.Length);
    }

    /** A report read for a request: is it one to deliver, and how long is it then? */
    static method TakeReport(buf: array<byte>, report: bytes, passHeartbeats: bool) returns (skip: bool, n: nat)
      modifies buf
      ensures var data := Truncated(report, buf.Length);
        && skip == !Passes(data, passHeartbeats)
        && (!skip ==> n == (if data == [] then 0 else buf.Length) && (n > 0 ==> buf[..] == Padded(data, buf.Length)))
    {
      hide Passes, Truncated, Padded;
      n := ReadInto(buf, report);
      ghost var data := buf[..n];
      assert |data| == n;
      skip := Skips(buf, n, passHeartbeats);
      if !skip { n := Pad(buf, n); }
    }

    /** One round of the read loop. */
    method ReadRound(input: Input)
      requires Valid() && threadStarted && place == InReadLoop && req != null
      modifies this`place, this`n, this`seen, req.buf
      ensures Valid() && State() == ReadOne(old(State()), old(ValueOf(req)), input)
    {
      hide Threaded, Values, Owned, Apart, Passes, Padded, Truncated;
      match input
      case Got(report, passHeartbeats) =>
        var skip, m := TakeReport(req.buf, report, passHeartbeats);
        seen := seen + [Read(report, req.buf.Length, passHeartbeats)];
        if !skip {
          n, place := m, AfterReadLoop;
        }
      case Again(pollOk) =>
        if shutdown || shuttingDown || !pollOk {
          n, place := -1, AfterReadLoop;
        }
      case ReadError =>
        n, place := -1, AfterReadLoop;
    }

    /** The completion behind it. */
    method CompleteRead()
      requires Valid() && threadStarted && place == AfterReadLoop
      modifies this`place, this`completed
      ensures Valid() && forall input :: State() == Ticked(old(State()), input)
    {
      hide Threaded, Values, Owned, Apart;
      if n > 0 {
        completed := completed + [Delivered(ValueOf(req), req.buf[..n])];
      } else {
        completed := completed + [Cancelled(ValueOf(req))];
      }
      place := AtTest;
      assert n > 0 ==> req.buf[..n] == req.buf[..];
    }

    /** One round of the loop that cancels what was taken off the queue. */
    method CancelNext()
      requires Valid() && threadStarted && place == InCancelLoop
      modifies this`place, this`walk, this`rest, this`completed
      ensures Valid() && forall input :: State() == Ticked(old(State()), input)
    {
      assert rest == [] <==> walk == null;
      assert rest == [] <==> Values(rest) == [];
      hide Threaded, Values, Owned, Apart;
      if walk == null {
        place := Returned;
      } else {
        TailOf(rest, [], repr);
        ApartTail(list, rest);
        var next := walk.next;
        completed := completed + [Cancelled(ValueOf(walk))];
        walk, rest := next, rest[1..];
      }
    }

    /** One step of the thread, if it was started. */
    method Tick(input: Input)
      requires Valid()
      modifies repr
      ensures Valid() && repr == old(repr) && State() == Ticked(old(State()), input)
    {
      if threadStarted {
        match place
        case AtTest => TestFlags();
        case AtLock => LockedSection();
        case InReadLoop => ReadRound(input);
        case AfterReadLoop => CompleteRead();
        case InCancelLoop => CancelNext();
        case Returned =>
      }
    }

    /** One event, whoever causes it. */
    method Do(e: Event)
      requires Valid()
      modifies repr
      ensures Valid() && fresh(repr - old(repr)) && State() == Step(old(State()), e)
    {
      match e
      case Queue(req, created) =>
        var buf := new byte[req.bufSize];
        var _ := HidFileRead(req.ovlp, buf, created);
      case SetShutdown => shutdown := true;
      case SetShuttingDown => shuttingDown := true;
      case Tick(input) => Tick(input);
    }

    /** The code over any interleaving is a run of the machine. */
    method RunAll(es: seq<Event>)
      requires Valid()
      modifies repr
      ensures Valid() && State() == Run(old(State()), es)
    {
      for i := 0 to |es|
        invariant Valid() && fresh(repr - old(repr))
        invariant Run(State(), es[i..]) == Run(old(State()), es)
      {
        hide Step;
        Do(es[i]);
        assert es[i..][0] == es[i] && es[i..][1..] == es[i + 1..];
      }
      assert es[|es|..] == [];
    }
  }
}
