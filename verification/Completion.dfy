/**
 The completion of one sensor capture, from the driver's `wdf_complete_request` to the
 final callback of the host, as interleaved atomic steps under sequential consistency.

 Three layers each race "register a callback" against "complete":
   - the WDF request (request.c): one lock, held while the callback list is walked;
   - the overlapped operation (io.c): no lock, two atomics `cb_status` and `cb_fnc`;
   - the async result (async.c): one lock, but the callback runs after the unlock.

 Any number of driver threads complete the request, in any order and at any moment.
 The three registrations are free to interleave with each other and with the completers;
 the order in which one host thread makes them is one of the interleavings covered.
 */
module Completion {
  import opened Wrappers

  type Status = nat

  const STATUS_SUCCESS: Status := 0
  const STATUS_PENDING: Status := 0x103

  /** What is fixed before the capture: the status each driver thread will pass, the context
      and thread flag registered on the overlapped operation, the context of the final callback. */
  datatype Config = Config(statuses: seq<Status>, ctx: nat, newThread: bool, cookie: nat)

  /** The callbacks on a device-control request: the buffer copy and `req_cb`. */
  datatype ReqCallback = DevctrlCb | ReqCb

  /** Where the thread inside `winio_complete_overlapped` stands. */
  datatype OverlappedPc =
    | NotCompleting
    | Entered          // about to store `Internal`
    | InternalStored   // about to store `cb_status`
    | StatusStored     // about to exchange `cb_fnc`
    | CallbackTaken    // about to read `cb_ctx`/`cb_new_thread` and call

  datatype Owner = Registrar | Completer(index: nat)

  /** The critical section of the request lock: its owner and the callbacks still to be called. */
  datatype Section = Section(owner: Owner, todo: seq<ReqCallback>, call: OverlappedPc)

  datatype Outcome = Accepted | TooEarly | AlreadyDone
  datatype CompleterPc = Calling | Inside | Returned(outcome: Outcome)

  /** `winwdf_devctrl_file` adds the buffer copy and starts the request, `tudor_devctrl` adds `req_cb`. */
  datatype RegistrarPc = AddDevctrl | Start | AddReqCb | Adding | Added

  /** Where the thread inside `winio_set_overlapped_callback` stands. */
  datatype SetterPc =
    | StoreCtx | StoreThread | StoreFnc | LoadStatus
    | Exchange(seen: Status)
    | Call(seen: Status)
    | SetterDone

  /** One call of the overlapped callback (device.c), running in its own thread. */
  datatype AdapterPc = Running | Publish(success: bool) | Notify(success: bool, fnc: Option<nat>) | Finished
  datatype Adapter = Adapter(status: Status, ctx: nat, newThread: bool, pc: AdapterPc)

  datatype FinalCall = FinalCall(success: bool, ctx: nat)

  /** struct winwdf_request, the threads that complete it, the one that registers on it, one that waits for it. */
  datatype Request = Request(
    started: bool, done: bool, status: Status, callbacks: seq<ReqCallback>, section: Option<Section>,
    completers: seq<CompleterPc>, registrar: RegistrarPc, waiter: Option<Status>
  )

  /** The OVERLAPPED with its struct winfile_op, and the thread that registers on it. */
  datatype Overlapped = Overlapped(
    internal: Status, cbStatus: Status, cbFnc: bool, cbCtx: nat, cbNewThread: bool, setter: SetterPc
  )

  /** struct _async_res, whether its callback was registered, one waiter, and the final calls made. */
  datatype Async = Async(
    success: Option<bool>, cb: Option<nat>, registered: bool, waiter: Option<bool>, finals: seq<FinalCall>
  )

  datatype State = State(req: Request, io: Overlapped, adapters: seq<Adapter>, res: Async)

  datatype Action =
    | Complete(i: nat)              // driver thread i acquires the request lock
    | Register                      // next step of the request registrations
    | InSection                     // next step of the thread that holds the request lock
    | SetOverlapped                 // next step of winio_set_overlapped_callback
    | RunAdapter(k: nat, ok: bool)  // next step of overlapped callback k; `ok` is the answer of the adapter DLL
    | SetAsync                      // tudor_set_async_callback
    | WaitRequest                   // winwdf_wait_request returns
    | WaitAsync                     // tudor_wait_async returns

  function Init(cfg: Config): State {
    State(Request(false, false, STATUS_SUCCESS, [], None, seq(|cfg.statuses|, _ => Calling), AddDevctrl, None),
          Overlapped(STATUS_PENDING, STATUS_PENDING, false, 0, false, StoreCtx),
          [],
          Async(None, None, false, None, []))
  }

  predicate Enabled(s: State, a: Action) {
    match a
    case Complete(i) => s.req.section.None? && i < |s.req.completers| && s.req.completers[i].Calling?
    case Register => s.req.section.None? && !s.req.registrar.Adding? && !s.req.registrar.Added?
    case InSection => s.req.section.Some?
    case SetOverlapped => !s.io.setter.SetterDone?
    case RunAdapter(k, _) => k < |s.adapters| && !s.adapters[k].pc.Finished?
    case SetAsync => !s.res.registered
    case WaitRequest => s.req.section.None? && s.req.done && s.req.waiter.None?
    case WaitAsync => s.res.success.Some? && s.res.waiter.None?
  }

  /** `wdf_complete_request` up to its callback loop. */
  function EnterComplete(cfg: Config, r: Request, i: nat): Request
    requires i < |r.completers| && i < |cfg.statuses|
  {
    if !r.started then r.(completers := r.completers[i := Returned(TooEarly)])
    else if r.done then r.(completers := r.completers[i := Returned(AlreadyDone)])
    else r.(done := true, status := cfg.statuses[i],
            completers := r.completers[i := Inside],
            section := Some(Section(Completer(i), r.callbacks, NotCompleting)))
  }

  /** `winwdf_add_request_callback`: call now when the request is done, else push. */
  function AddCallback(r: Request, cb: ReqCallback, next: RegistrarPc): Request {
    if r.started && r.done then r.(registrar := Adding, section := Some(Section(Registrar, [cb], NotCompleting)))
    else r.(registrar := next, callbacks := [cb] + r.callbacks)
  }

  function RegisterStep(r: Request): Request
    requires !r.registrar.Adding? && !r.registrar.Added?
  {
    match r.registrar
    case AddDevctrl => AddCallback(r, DevctrlCb, Start)
    case Start => r.(started := true, status := STATUS_SUCCESS, registrar := AddReqCb)
    case AddReqCb => AddCallback(r, ReqCb, Added)
  }

  function Leave(r: Request, owner: Owner): Request {
    match owner
    case Registrar => r.(section := None, registrar := Added)
    case Completer(i) =>
      if i < |r.completers| then r.(section := None, completers := r.completers[i := Returned(Accepted)])
      else r.(section := None)
  }

  function Calls(r: Request, call: OverlappedPc): Request
    requires r.section.Some?
  {
    r.(section := Some(r.section.value.(call := call)))
  }

  /** One step of the lock owner: the callback loop, and inside `req_cb` the steps of
      `winio_complete_overlapped` with the status the request was completed with. */
  function SectionStep(s: State): State
    requires s.req.section.Some?
  {
    var c := s.req.section.value;
    match c.call
    case NotCompleting =>
      if c.todo == [] then s.(req := Leave(s.req, c.owner))
      else
        var call := if c.todo[0].ReqCb? then Entered else NotCompleting;
        s.(req := s.req.(section := Some(c.(todo := c.todo[1..], call := call))))
    case Entered =>
      s.(req := Calls(s.req, InternalStored), io := s.io.(internal := s.req.status))
    case InternalStored =>
      s.(req := Calls(s.req, StatusStored), io := s.io.(cbStatus := s.req.status))
    case StatusStored =>
      s.(req := Calls(s.req, if s.io.cbFnc then CallbackTaken else NotCompleting), io := s.io.(cbFnc := false))
    case CallbackTaken =>
      s.(req := Calls(s.req, NotCompleting),
         adapters := s.adapters + [Adapter(s.req.status, s.io.cbCtx, s.io.cbNewThread, Running)])
  }

  /** `winio_set_overlapped_callback`. */
  function SetterStep(cfg: Config, s: State): State
    requires !s.io.setter.SetterDone?
  {
    match s.io.setter
    case StoreCtx => s.(io := s.io.(cbCtx := cfg.ctx, setter := StoreThread))
    case StoreThread => s.(io := s.io.(cbNewThread := cfg.newThread, setter := StoreFnc))
    case StoreFnc => s.(io := s.io.(cbFnc := true, setter := LoadStatus))
    case LoadStatus =>
      s.(io := s.io.(setter := if s.io.cbStatus != STATUS_PENDING then Exchange(s.io.cbStatus) else SetterDone))
    case Exchange(seen) =>
      s.(io := s.io.(cbFnc := false, setter := if s.io.cbFnc then Call(seen) else SetterDone))
    case Call(seen) =>
      s.(io := s.io.(setter := SetterDone),
         adapters := s.adapters + [Adapter(seen, cfg.ctx, cfg.newThread, Running)])
  }

  /** The device callback, then the two halves of `async_complete_op`: publish under the lock, call after it. */
  function AdapterStep(s: State, k: nat, ok: bool): State
    requires k < |s.adapters| && !s.adapters[k].pc.Finished?
  {
    var a := s.adapters[k];
    match a.pc
    case Running => s.(adapters := s.adapters[k := a.(pc := Publish(a.status == STATUS_SUCCESS && ok))])
    case Publish(b) =>
      s.(adapters := s.adapters[k := a.(pc := Notify(b, s.res.cb))], res := s.res.(success := Some(b)))
    case Notify(b, fnc) =>
      s.(adapters := s.adapters[k := a.(pc := Finished)],
         res := s.res.(finals := s.res.finals + if fnc.Some? then [FinalCall(b, fnc.value)] else []))
  }

  /** `tudor_set_async_callback`, one locked step. */
  function SetAsyncStep(cfg: Config, r: Async): Async {
    if r.success.Some? then r.(registered := true, finals := r.finals + [FinalCall(r.success.value, cfg.cookie)])
    else r.(registered := true, cb := Some(cfg.cookie))
  }

  function Step(cfg: Config, s: State, a: Action): State
    requires Enabled(s, a) && |s.req.completers| == |cfg.statuses|
  {
    match a
    case Complete(i) => s.(req := EnterComplete(cfg, s.req, i))
    case Register => s.(req := RegisterStep(s.req))
    case InSection => SectionStep(s)
    case SetOverlapped => SetterStep(cfg, s)
    case RunAdapter(k, ok) => AdapterStep(s, k, ok)
    case SetAsync => s.(res := SetAsyncStep(cfg, s.res))
    case WaitRequest => s.(req := s.req.(waiter := Some(s.req.status)))
    case WaitAsync => s.(res := s.res.(waiter := s.res.success))
  }

  // ---------------------------------------------------------------- runs

  /** `acts` is a run from `s` to `e`. */
  ghost predicate Run(cfg: Config, s: State, acts: seq<Action>, e: State)
    decreases |acts|
  {
    if acts == [] then s == e
    else |s.req.completers| == |cfg.statuses| && Enabled(s, acts[0]) && Run(cfg, Step(cfg, s, acts[0]), acts[1..], e)
  }

  ghost predicate Reaches(cfg: Config, s: State, e: State) {
    exists acts :: Run(cfg, s, acts, e)
  }

  /** Nothing can move any more. */
  ghost predicate Terminal(s: State) {
    forall a :: !Enabled(s, a)
  }

  // ---------------------------------------------------------------- invariant

  function B(b: bool): nat { if b then 1 else 0 }

  /** What is left of the callback list [req_cb, buffer copy] while it is walked. */
  predicate Walkable(cbs: seq<ReqCallback>) {
    cbs == [] || cbs == [DevctrlCb] || cbs == [ReqCb] || cbs == [ReqCb, DevctrlCb]
  }

  predicate Took(c: CompleterPc) {
    c.Inside? || c == Returned(Accepted)
  }

  /** The callback list: `req_cb` is on it exactly from its registration on. */
  ghost predicate ListInv(r: Request) {
    match r.registrar
    case AddDevctrl => r.callbacks == [] && !r.started && !r.done
    case Start => r.callbacks == [DevctrlCb] && !r.started && !r.done
    case AddReqCb => r.callbacks == [DevctrlCb] && r.started
    case Adding => r.callbacks == [DevctrlCb] && r.started && r.done && r.section.Some? && r.section.value.owner.Registrar?
    case Added => r.started && (r.callbacks == [ReqCb, DevctrlCb] || (r.callbacks == [DevctrlCb] && r.done))
  }

  /** Who holds the request lock. */
  ghost predicate OwnerInv(r: Request) {
    && (r.section.Some? ==> r.done && Walkable(r.section.value.todo))
    && (r.section.Some? && r.section.value.owner.Registrar? ==> r.registrar.Adding?)
    && (r.section.Some? && r.section.value.owner.Completer? ==> r.section.value.owner.index < |r.completers|)
    && (forall i :: 0 <= i < |r.completers| ==>
          (r.completers[i].Inside? <==> r.section.Some? && r.section.value.owner == Completer(i)))
  }

  /** Whose completion counted: done means that one was accepted, and the status is its. */
  ghost predicate AcceptInv(cfg: Config, r: Request) {
    && |r.completers| == |cfg.statuses|
    && (r.done <==> exists i :: 0 <= i < |r.completers| && Took(r.completers[i]))
    && (forall i :: 0 <= i < |r.completers| && Took(r.completers[i]) ==> r.status == cfg.statuses[i])
    && (forall i, j :: 0 <= i < j < |r.completers| && Took(r.completers[i]) ==> !Took(r.completers[j]))
    && (forall i :: 0 <= i < |r.completers| && r.completers[i] == Returned(AlreadyDone) ==> r.done)
    && (r.waiter.Some? ==> r.done && r.waiter.value == r.status)
  }

  /** `req_cb` still to come, on one of the three places it can wait. */
  function ReqCbAhead(r: Request): nat {
    if r.section.Some? then B(ReqCb in r.section.value.todo) + B(r.registrar.AddReqCb?)
    else if r.done then B(r.registrar.AddReqCb?)
    else 1
  }

  predicate InReqCb(r: Request) {
    r.section.Some? && !r.section.value.call.NotCompleting?
  }

  predicate Taken(r: Request) {
    r.section.Some? && r.section.value.call.CallbackTaken?
  }

  /** Progress of the one `winio_complete_overlapped`: 0 not stored, 1 stored, 2 exchanged. */
  function Phase(r: Request): nat {
    if ReqCbAhead(r) > 0 then 0
    else if !InReqCb(r) || Taken(r) then 2
    else if r.section.value.call.StatusStored? then 1
    else 0
  }

  predicate FncStored(o: Overlapped) {
    o.setter.LoadStatus? || o.setter.Exchange? || o.setter.Call? || o.setter.SetterDone?
  }

  /** The places where the one registered callback can be: in `cb_fnc`, taken by the completer,
      taken by the setter, or called. */
  function Tokens(r: Request, o: Overlapped, calls: nat): nat {
    B(o.cbFnc) + B(Taken(r)) + B(o.setter.Call?) + calls
  }

  /** `req_cb` runs once, and never before the request is done. */
  ghost predicate OnceInv(r: Request) {
    && ReqCbAhead(r) + B(InReqCb(r)) <= 1
    && (ReqCbAhead(r) == 0 ==> r.done)
  }

  ghost predicate HandshakeInv(r: Request, o: Overlapped, calls: nat) {
    && (Phase(r) == 0 ==> o.cbStatus == STATUS_PENDING)
    && (Phase(r) > 0 ==> o.cbStatus == r.status)
    && Tokens(r, o, calls) == B(FncStored(o))
    && (o.setter.Exchange? ==> o.setter.seen == r.status && r.status != STATUS_PENDING && Phase(r) > 0)
    && (o.setter.Call? ==> o.setter.seen == r.status && r.status != STATUS_PENDING && Phase(r) > 0)
    && (o.setter.SetterDone? && o.cbFnc ==> Phase(r) < 2 || r.status == STATUS_PENDING)
  }

  ghost predicate ContextInv(cfg: Config, o: Overlapped) {
    && (!o.setter.StoreCtx? ==> o.cbCtx == cfg.ctx)
    && (!o.setter.StoreCtx? && !o.setter.StoreThread? ==> o.cbNewThread == cfg.newThread)
  }

  /** Every call of the overlapped callback carries what was registered and the request's status. */
  ghost predicate CallInv(cfg: Config, r: Request, adapters: seq<Adapter>) {
    forall k :: 0 <= k < |adapters| ==>
      && r.done && adapters[k].status == r.status
      && adapters[k].ctx == cfg.ctx && adapters[k].newThread == cfg.newThread
  }

  /** The final call is made by `async_complete_op` when the callback was registered before the
      publication, and by `tudor_set_async_callback` otherwise. */
  function ExpectedFinals(cfg: Config, adapters: seq<Adapter>, r: Async): seq<FinalCall> {
    if r.success.None? || !r.registered then []
    else if r.cb.Some? && |adapters| == 1 && adapters[0].pc.Notify? then []
    else [FinalCall(r.success.value, cfg.cookie)]
  }

  ghost predicate AsyncInv(cfg: Config, adapters: seq<Adapter>, r: Async) {
    && |adapters| <= 1
    && (r.cb.Some? ==> r.registered && r.cb.value == cfg.cookie)
    && (r.success.None? && r.registered ==> r.cb.Some?)
    && (r.success.Some? <==> |adapters| == 1 && (adapters[0].pc.Notify? || adapters[0].pc.Finished?))
    && (|adapters| == 1 ==>
          var a := adapters[0];
          && (a.pc.Publish? && a.pc.success ==> a.status == STATUS_SUCCESS)
          && (r.success == Some(true) ==> a.status == STATUS_SUCCESS)
          && (a.pc.Notify? ==> r.success == Some(a.pc.success) && a.pc.fnc == r.cb))
    && r.finals == ExpectedFinals(cfg, adapters, r)
    && (r.waiter.Some? ==> r.waiter == r.success)
  }

  ghost predicate Inv(cfg: Config, s: State) {
    && ListInv(s.req) && OwnerInv(s.req) && AcceptInv(cfg, s.req) && OnceInv(s.req)
    && HandshakeInv(s.req, s.io, |s.adapters|) && ContextInv(cfg, s.io) && CallInv(cfg, s.req, s.adapters)
    && AsyncInv(cfg, s.adapters, s.res)
  }
}
