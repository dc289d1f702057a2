/** What every run of the completion chain keeps, and what it delivers. */
module CompletionProofs {
  import opened Wrappers
  import opened Completion

  lemma InitInv(cfg: Config)
    ensures Inv(cfg, Init(cfg))
  {
  }

  lemma CompleteInv(cfg: Config, s: State, i: nat)
    requires Inv(cfg, s) && Enabled(s, Complete(i))
    ensures Inv(cfg, s.(req := EnterComplete(cfg, s.req, i)))
  {
    var r, t := s.req, EnterComplete(cfg, s.req, i);
    if r.done {
      var j :| 0 <= j < |r.completers| && Took(r.completers[j]);
      assert Took(t.completers[j]);
    }
    if !r.done && t.done { assert Took(t.completers[i]); }
  }

  lemma RegisterInv(cfg: Config, s: State)
    requires Inv(cfg, s) && Enabled(s, Register)
    ensures Inv(cfg, s.(req := RegisterStep(s.req)))
  {
  }

  lemma LeaveInv(cfg: Config, s: State)
    requires Inv(cfg, s) && s.req.section.Some?
    requires s.req.section.value.call.NotCompleting? && s.req.section.value.todo == []
    ensures Inv(cfg, SectionStep(s))
  {
    var r, t := s.req, SectionStep(s).req;
    if r.section.value.owner.Completer? {
      var i := r.section.value.owner.index;
      assert Took(r.completers[i]) && Took(t.completers[i]);
    }
  }

  lemma CallNextInv(cfg: Config, s: State)
    requires Inv(cfg, s) && s.req.section.Some?
    requires s.req.section.value.call.NotCompleting? && s.req.section.value.todo != []
    ensures Inv(cfg, SectionStep(s))
  {
    var todo := s.req.section.value.todo;
    assert todo[1..] == [] || todo[1..] == [DevctrlCb];
  }

  lemma StoreInv(cfg: Config, s: State)
    requires Inv(cfg, s) && s.req.section.Some?
    requires s.req.section.value.call.Entered? || s.req.section.value.call.InternalStored?
    ensures Inv(cfg, SectionStep(s))
  {
  }

  lemma ExchangeInv(cfg: Config, s: State)
    requires Inv(cfg, s) && s.req.section.Some? && s.req.section.value.call.StatusStored?
    ensures Inv(cfg, SectionStep(s))
  {
  }

  lemma TakenInv(cfg: Config, s: State)
    requires Inv(cfg, s) && s.req.section.Some? && s.req.section.value.call.CallbackTaken?
    ensures Inv(cfg, SectionStep(s))
  {
  }

  lemma SectionInv(cfg: Config, s: State)
    requires Inv(cfg, s) && Enabled(s, InSection)
    ensures Inv(cfg, SectionStep(s))
  {
    match s.req.section.value.call
    case NotCompleting => if s.req.section.value.todo == [] { LeaveInv(cfg, s); } else { CallNextInv(cfg, s); }
    case Entered => StoreInv(cfg, s);
    case InternalStored => StoreInv(cfg, s);
    case StatusStored => ExchangeInv(cfg, s);
    case CallbackTaken => TakenInv(cfg, s);
  }

  lemma SetterCallInv(cfg: Config, s: State)
    requires Inv(cfg, s) && s.io.setter.Call?
    ensures Inv(cfg, SetterStep(cfg, s))
  {
  }

  lemma SetterStoreInv(cfg: Config, s: State)
    requires Inv(cfg, s) && (s.io.setter.StoreCtx? || s.io.setter.StoreThread? || s.io.setter.StoreFnc?)
    ensures Inv(cfg, SetterStep(cfg, s))
  {
  }

  lemma SetterLookInv(cfg: Config, s: State)
    requires Inv(cfg, s) && (s.io.setter.LoadStatus? || s.io.setter.Exchange?)
    ensures Inv(cfg, SetterStep(cfg, s))
  {
  }

  lemma SetterInv(cfg: Config, s: State)
    requires Inv(cfg, s) && Enabled(s, SetOverlapped)
    ensures Inv(cfg, SetterStep(cfg, s))
  {
    if s.io.setter.Call? {
      SetterCallInv(cfg, s);
    } else if s.io.setter.LoadStatus? || s.io.setter.Exchange? {
      SetterLookInv(cfg, s);
    } else {
      SetterStoreInv(cfg, s);
    }
  }

  lemma AdapterInv(cfg: Config, s: State, k: nat, ok: bool)
    requires Inv(cfg, s) && Enabled(s, RunAdapter(k, ok))
    ensures Inv(cfg, AdapterStep(s, k, ok))
  {
  }

  lemma StepInv(cfg: Config, s: State, a: Action)
    requires Inv(cfg, s) && Enabled(s, a)
    ensures Inv(cfg, Step(cfg, s, a))
  {
    match a
    case Complete(i) => CompleteInv(cfg, s, i);
    case Register => RegisterInv(cfg, s);
    case InSection => SectionInv(cfg, s);
    case SetOverlapped => SetterInv(cfg, s);
    case RunAdapter(k, ok) => AdapterInv(cfg, s, k, ok);
    case SetAsync =>
    case WaitRequest =>
    case WaitAsync =>
  }

  lemma {:induction false} RunInv(cfg: Config, s: State, acts: seq<Action>, e: State)
    requires Inv(cfg, s) && Run(cfg, s, acts, e)
    ensures Inv(cfg, e)
    decreases |acts|
  {
    if acts != [] {
      StepInv(cfg, s, acts[0]);
      RunInv(cfg, Step(cfg, s, acts[0]), acts[1..], e);
    }
  }

  // ---------------------------------------------------------------- termination

  function CallingCount(cs: seq<CompleterPc>): nat {
    if cs == [] then 0 else B(cs[0].Calling?) + CallingCount(cs[1..])
  }

  lemma {:induction false} CallingUpdate(cs: seq<CompleterPc>, i: nat, c: CompleterPc)
    requires i < |cs|
    ensures CallingCount(cs[i := c]) == CallingCount(cs) - B(cs[i].Calling?) + B(c.Calling?)
  {
    if i == 0 {
      assert cs[0 := c][1..] == cs[1..];
    } else {
      CallingUpdate(cs[1..], i - 1, c);
      assert cs[i := c][1..] == cs[1..][i - 1 := c];
    }
  }

  function SectionRank(section: Option<Section>): nat {
    if section.None? then 0
    else
      1 + 8 * |section.value.todo| +
      match section.value.call
      case NotCompleting => 0
      case Entered => 7
      case InternalStored => 6
      case StatusStored => 5
      case CallbackTaken => 4
  }

  function RegistrarRank(pc: RegistrarPc): nat {
    match pc case AddDevctrl => 12 case Start => 11 case AddReqCb => 10 case Adding => 0 case Added => 0
  }

  function SetterRank(pc: SetterPc): nat {
    match pc
    case StoreCtx => 9 case StoreThread => 8 case StoreFnc => 7 case LoadStatus => 6
    case Exchange(_) => 5 case Call(_) => 4 case SetterDone => 0
  }

  function AdapterRank(adapters: seq<Adapter>): nat {
    if adapters == [] then 0
    else match adapters[0].pc case Running => 3 case Publish(_) => 2 case Notify(_, _) => 1 case Finished => 0
  }

  /** The number of steps that can still be taken. */
  function Rank(s: State): nat {
    18 * CallingCount(s.req.completers) + SectionRank(s.req.section) + RegistrarRank(s.req.registrar)
    + SetterRank(s.io.setter) + AdapterRank(s.adapters)
    + B(!s.res.registered) + B(s.req.waiter.None?) + B(s.res.waiter.None?)
  }

  /** Leaving the section: the completer that returns was not counted as calling. */
  lemma LeaveRank(s: State)
    requires s.req.section.Some? && OwnerIsInside(s.req)
    requires s.req.section.value.call.NotCompleting? && s.req.section.value.todo == []
    ensures Rank(SectionStep(s)) < Rank(s)
  {
    var c := s.req.section.value;
    if c.owner.Completer? { CallingUpdate(s.req.completers, c.owner.index, Returned(Accepted)); }
  }

  lemma SectionRankDown(s: State)
    requires s.req.section.Some? && OwnerIsInside(s.req)
    requires Taken(s.req) ==> s.adapters == []
    ensures Rank(SectionStep(s)) < Rank(s)
  {
    if s.req.section.value.call.NotCompleting? && s.req.section.value.todo == [] {
      LeaveRank(s);
    } else {
      MoveRank(s);
    }
    hide SectionStep, Rank, OwnerIsInside;
  }

  /** Every other step of the owner lowers the rank of the section, or turns it into that of an adapter. */
  lemma MoveRank(s: State)
    requires s.req.section.Some? && (Taken(s.req) ==> s.adapters == [])
    requires !(s.req.section.value.call.NotCompleting? && s.req.section.value.todo == [])
    ensures Rank(SectionStep(s)) < Rank(s)
  {
    var t := SectionStep(s);
    assert t.req.completers == s.req.completers && t.req.registrar == s.req.registrar && t.req.waiter == s.req.waiter;
    assert t.io.setter == s.io.setter && t.res == s.res;
    assert SectionRank(t.req.section) + AdapterRank(t.adapters) < SectionRank(s.req.section) + AdapterRank(s.adapters);
  }

  /** The completer that owns the lock, if it is one, is on its way through the critical section. */
  predicate OwnerIsInside(r: Request)
    requires r.section.Some?
  {
    r.section.value.owner.Completer? ==>
      r.section.value.owner.index < |r.completers| && r.completers[r.section.value.owner.index].Inside?
  }

  lemma SetterRankDown(cfg: Config, s: State)
    requires !s.io.setter.SetterDone?
    requires s.io.setter.Call? ==> s.adapters == []
    ensures Rank(SetterStep(cfg, s)) < Rank(s)
  {
  }

  lemma CompleteRankDown(cfg: Config, s: State, i: nat)
    requires Enabled(s, Complete(i)) && |s.req.completers| == |cfg.statuses|
    requires Walkable(s.req.callbacks)
    ensures Rank(s.(req := EnterComplete(cfg, s.req, i))) < Rank(s)
  {
    CallingUpdate(s.req.completers, i, EnterComplete(cfg, s.req, i).completers[i]);
  }

  lemma AdapterRankDown(s: State, k: nat, ok: bool)
    requires |s.adapters| == 1 && k == 0 && !s.adapters[0].pc.Finished?
    ensures Rank(AdapterStep(s, k, ok)) < Rank(s)
  {
  }

  /** Every step takes one off the rank, whoever makes it. */
  lemma RankDown(cfg: Config, s: State, a: Action)
    requires Inv(cfg, s) && Enabled(s, a)
    ensures Rank(Step(cfg, s, a)) < Rank(s)
  {
    match a
    case Complete(i) => CompleteRankDown(cfg, s, i);
    case Register =>
    case InSection => SectionRankDown(s);
    case SetOverlapped => SetterRankDown(cfg, s);
    case RunAdapter(k, ok) => AdapterRankDown(s, k, ok);
    case SetAsync =>
    case WaitRequest =>
    case WaitAsync =>
  }

  /** No run is longer than the rank of its first state: every capture comes to rest. */
  lemma {:induction false} RunsAreBounded(cfg: Config, s: State, acts: seq<Action>, e: State)
    requires Inv(cfg, s) && Run(cfg, s, acts, e)
    ensures |acts| + Rank(e) <= Rank(s)
    decreases |acts|
  {
    if acts != [] {
      StepInv(cfg, s, acts[0]);
      RankDown(cfg, s, acts[0]);
      RunsAreBounded(cfg, Step(cfg, s, acts[0]), acts[1..], e);
    }
  }

  // ---------------------------------------------------------------- delivery

  /** Every thread has returned from its call; a waiter for something that never happens still waits. */
  ghost predicate AllReturned(s: State) {
    && s.req.section.None? && s.req.registrar.Added? && s.io.setter.SetterDone? && s.res.registered
    && (forall i :: 0 <= i < |s.req.completers| ==> s.req.completers[i].Returned?)
    && (forall k :: 0 <= k < |s.adapters| ==> s.adapters[k].pc.Finished?)
    && (s.req.done ==> s.req.waiter == Some(s.req.status))
    && (s.res.success.Some? ==> s.res.waiter == s.res.success)
  }

  /** No interleaving deadlocks: where nothing can move, every call has returned. */
  lemma NoDeadlock(cfg: Config, s: State)
    requires Inv(cfg, s)
    ensures Terminal(s) <==> AllReturned(s)
  {
    if Terminal(s) {
      assert !Enabled(s, InSection) && !Enabled(s, Register) && !Enabled(s, SetOverlapped) && !Enabled(s, SetAsync);
      assert !Enabled(s, WaitRequest) && !Enabled(s, WaitAsync);
      forall i | 0 <= i < |s.req.completers| ensures s.req.completers[i].Returned? {
        assert !Enabled(s, Complete(i));
      }
      forall k | 0 <= k < |s.adapters| ensures s.adapters[k].pc.Finished? {
        assert !Enabled(s, RunAdapter(k, true));
      }
    }
  }

  /** The request was completed after it was started. */
  ghost predicate Completed(s: State) {
    exists i :: 0 <= i < |s.req.completers| && s.req.completers[i].Returned? && !s.req.completers[i].outcome.TooEarly?
  }

  /** `st` is what the one accepted completion passed. */
  ghost predicate AcceptedStatus(cfg: Config, s: State, st: Status) {
    exists i :: 0 <= i < |s.req.completers| && i < |cfg.statuses| && Took(s.req.completers[i]) && st == cfg.statuses[i]
  }

  // ---------------------------------------------------------------- what the run's actions decide

  /** What the adapter answered: in the first step of the one overlapped callback. */
  function FirstAnswer(acts: seq<Action>): Option<bool> {
    if acts == [] then None
    else if acts[0].RunAdapter? && acts[0].k == 0 then Some(acts[0].ok)
    else FirstAnswer(acts[1..])
  }

  /** The outcome as far as it is decided. */
  function Decided(s: State): Option<bool> {
    if s.adapters == [] then None
    else match s.adapters[0].pc
      case Running => None
      case Publish(b) => Some(b)
      case Notify(b, _) => Some(b)
      case Finished => s.res.success
  }

  predicate IsAnswer(a: Action) {
    a.RunAdapter? && a.k == 0
  }

  lemma StepDecides(cfg: Config, s: State, a: Action)
    requires Inv(cfg, s) && Enabled(s, a)
    ensures var t := Step(cfg, s, a);
      && (s.adapters != [] ==> t.adapters != [] && t.adapters[0].status == s.adapters[0].status)
      && (Decided(s).Some? ==> Decided(t) == Decided(s))
      && (Decided(s).None? && !IsAnswer(a) ==> Decided(t) == None)
      && (Decided(s).None? && IsAnswer(a) ==> s.adapters != [] && Decided(t) == Some(s.adapters[0].status == STATUS_SUCCESS && a.ok))
  {
  }

  lemma {:induction false} RunDecides(cfg: Config, s: State, acts: seq<Action>, e: State)
    requires Inv(cfg, s) && Run(cfg, s, acts, e)
    ensures s.adapters != [] ==> e.adapters != [] && e.adapters[0].status == s.adapters[0].status
    ensures Decided(s).Some? ==> Decided(e) == Decided(s)
    ensures Decided(s).None? && FirstAnswer(acts).None? ==> Decided(e) == None
    ensures Decided(s).None? && FirstAnswer(acts).Some? ==>
      e.adapters != [] && Decided(e) == Some(e.adapters[0].status == STATUS_SUCCESS && FirstAnswer(acts).value)
    decreases |acts|
  {
    if acts != [] {
      StepDecides(cfg, s, acts[0]);
      StepInv(cfg, s, acts[0]);
      RunDecides(cfg, Step(cfg, s, acts[0]), acts[1..], e);
      hide Inv, Step, Decided;
    }
  }

  /** The thread of the first completion after the request was started, which is the second step of the
      registrations; `regs` of them were made before. */
  function FirstAccepted(acts: seq<Action>, regs: nat): Option<nat> {
    if acts == [] then None
    else if acts[0].Complete? && regs >= 2 then Some(acts[0].i)
    else FirstAccepted(acts[1..], if acts[0].Register? then regs + 1 else regs)
  }

  predicate Registered(pc: RegistrarPc, regs: nat) {
    (pc.AddDevctrl? <==> regs == 0) && (pc.Start? <==> regs == 1)
  }

  lemma StepAccepts(cfg: Config, s: State, a: Action, regs: nat)
    requires Inv(cfg, s) && Enabled(s, a) && Registered(s.req.registrar, regs)
    ensures var t := Step(cfg, s, a);
      && Registered(t.req.registrar, if a.Register? then regs + 1 else regs)
      && (s.req.done ==> t.req.done && t.req.status == s.req.status)
      && (!s.req.done ==> (t.req.done <==> a.Complete? && regs >= 2))
      && (!s.req.done && t.req.done ==> a.i < |cfg.statuses| && t.req.status == cfg.statuses[a.i])
  {
  }

  lemma {:induction false} RunAccepts(cfg: Config, s: State, acts: seq<Action>, e: State, regs: nat)
    requires Inv(cfg, s) && Run(cfg, s, acts, e) && Registered(s.req.registrar, regs)
    ensures s.req.done ==> e.req.done && e.req.status == s.req.status
    ensures !s.req.done ==> (e.req.done <==> FirstAccepted(acts, regs).Some?)
    ensures !s.req.done && e.req.done ==>
      FirstAccepted(acts, regs).value < |cfg.statuses| && e.req.status == cfg.statuses[FirstAccepted(acts, regs).value]
    decreases |acts|
  {
    if acts != [] {
      StepAccepts(cfg, s, acts[0], regs);
      StepInv(cfg, s, acts[0]);
      RunAccepts(cfg, Step(cfg, s, acts[0]), acts[1..], e, if acts[0].Register? then regs + 1 else regs);
      hide Inv, Step;
    }
  }

  /** `Internal` of the OVERLAPPED: pending until `winio_complete_overlapped` stores the status. */
  ghost predicate InternalInv(s: State) {
    s.io.internal ==
      if ReqCbAhead(s.req) > 0 || (s.req.section.Some? && s.req.section.value.call.Entered?) then STATUS_PENDING
      else s.req.status
  }

  lemma StepInternal(cfg: Config, s: State, a: Action)
    requires Inv(cfg, s) && InternalInv(s) && Enabled(s, a)
    ensures InternalInv(Step(cfg, s, a))
  {
    if a.InSection? && s.req.section.value.call.NotCompleting? && s.req.section.value.todo != [] {
      var todo := s.req.section.value.todo;
      assert todo[1..] == [] || todo[1..] == [DevctrlCb];
    }
  }

  lemma {:induction false} RunInternal(cfg: Config, s: State, acts: seq<Action>, e: State)
    requires Inv(cfg, s) && InternalInv(s) && Run(cfg, s, acts, e)
    ensures InternalInv(e)
    decreases |acts|
  {
    if acts != [] {
      StepInternal(cfg, s, acts[0]);
      StepInv(cfg, s, acts[0]);
      RunInternal(cfg, Step(cfg, s, acts[0]), acts[1..], e);
      hide Inv, Step, InternalInv;
    }
  }

  /** The outcome a run decides on: the adapter is asked only after a successful completion. */
  predicate Succeeds(acts: seq<Action>, status: Status) {
    status == STATUS_SUCCESS && FirstAnswer(acts) == Some(true)
  }

  /** In every interleaving, at every moment: the overlapped callback and the final callback have run
      at most once; never before a completion was accepted; always with the status of the accepted
      completion, the registered context and the registered thread flag; and the final callback is told
      success exactly if that status is STATUS_SUCCESS and the adapter calls succeeded. */
  lemma AtMostOnce(cfg: Config, acts: seq<Action>, e: State)
    requires Run(cfg, Init(cfg), acts, e)
    ensures |e.adapters| <= 1 && |e.res.finals| <= |e.adapters|
    ensures e.adapters != [] ==> AcceptedStatus(cfg, e, e.adapters[0].status)
    ensures e.adapters != [] ==> e.adapters[0].ctx == cfg.ctx && e.adapters[0].newThread == cfg.newThread
    ensures e.res.finals != [] ==> e.res.finals[0] == FinalCall(Succeeds(acts, e.adapters[0].status), cfg.cookie)
  {
    InitInv(cfg);
    RunInv(cfg, Init(cfg), acts, e);
    RunDecides(cfg, Init(cfg), acts, e);
    if e.adapters != [] {
      var i :| 0 <= i < |e.req.completers| && Took(e.req.completers[i]);
      assert e.adapters[0].status == cfg.statuses[i];
    }
  }

  /** What rest means, in the state alone. */
  lemma AtRest(cfg: Config, e: State)
    requires Inv(cfg, e) && InternalInv(e) && Terminal(e)
    ensures Completed(e) <==> e.req.done
    ensures !e.req.done ==> e.adapters == [] && e.res.finals == [] && e.io.internal == STATUS_PENDING
    ensures e.req.done ==> e.req.waiter == Some(e.req.status) && e.io.internal == e.req.status
    ensures e.req.done && e.req.status != STATUS_PENDING ==>
      && |e.adapters| == 1 && e.adapters[0].status == e.req.status && e.res.success.Some? && Decided(e) == e.res.success
      && e.res.finals == [FinalCall(e.res.success.value, cfg.cookie)]
    ensures e.res.waiter == e.res.success
  {
    NoDeadlock(cfg, e);
    if e.req.done {
      var i :| 0 <= i < |e.req.completers| && Took(e.req.completers[i]);
      assert e.req.completers[i].Returned? && !e.req.completers[i].outcome.TooEarly?;
    }
    if Completed(e) {
      var i :| 0 <= i < |e.req.completers| && e.req.completers[i].Returned? && !e.req.completers[i].outcome.TooEarly?;
      if e.req.completers[i].outcome.Accepted? { assert Took(e.req.completers[i]); }
    }
  }

  /** When everything has come to rest: the request is done exactly if a thread completed it after its start,
      with the status of the first that did; then, provided that status is not STATUS_PENDING, the final
      callback has run exactly once, and was told success exactly if the status is STATUS_SUCCESS and the
      adapter calls succeeded, and otherwise not at all; and every waiter has that status or that outcome. */
  lemma ExactlyOnce(cfg: Config, acts: seq<Action>, e: State)
    requires Run(cfg, Init(cfg), acts, e) && Terminal(e)
    ensures Completed(e) <==> e.req.done
    ensures e.req.done <==> FirstAccepted(acts, 0).Some?
    ensures e.req.done ==> FirstAccepted(acts, 0).value < |cfg.statuses| && e.req.status == cfg.statuses[FirstAccepted(acts, 0).value]
    ensures !Completed(e) ==> e.adapters == [] && e.res.finals == [] && e.io.internal == STATUS_PENDING
    ensures Completed(e) && e.req.status != STATUS_PENDING ==>
              && |e.adapters| == 1 && e.adapters[0].status == e.req.status
              && e.res.success == Some(Succeeds(acts, e.req.status))
              && e.res.finals == [FinalCall(Succeeds(acts, e.req.status), cfg.cookie)]
    ensures Completed(e) ==> e.req.waiter == Some(e.req.status) && e.io.internal == e.req.status
    ensures e.res.waiter == e.res.success
  {
    assert Decided(Init(cfg)) == None && InternalInv(Init(cfg)) && Registered(Init(cfg).req.registrar, 0) && !Init(cfg).req.done;
    hide Inv, InternalInv, Terminal, Completed, Decided, Init, Registered;
    InitInv(cfg);
    RunInv(cfg, Init(cfg), acts, e);
    RunDecides(cfg, Init(cfg), acts, e);
    RunAccepts(cfg, Init(cfg), acts, e, 0);
    RunInternal(cfg, Init(cfg), acts, e);
    AtRest(cfg, e);
  }

  lemma StepKeepsStatus(cfg: Config, s: State, a: Action)
    requires ListInv(s.req) && s.req.done && Enabled(s, a) && |s.req.completers| == |cfg.statuses|
    ensures Step(cfg, s, a).req.done && Step(cfg, s, a).req.status == s.req.status
  {
  }

  /** The first accepted status is the request's status for the rest of the run. */
  lemma {:induction false} FirstStatusStays(cfg: Config, s: State, acts: seq<Action>, e: State)
    requires Inv(cfg, s) && Run(cfg, s, acts, e) && s.req.done
    ensures e.req.done && e.req.status == s.req.status
    decreases |acts|
  {
    if acts != [] {
      StepInv(cfg, s, acts[0]);
      StepKeepsStatus(cfg, s, acts[0]);
      FirstStatusStays(cfg, Step(cfg, s, acts[0]), acts[1..], e);
    }
  }

  // ---------------------------------------------------------------- the status that is not delivered

  lemma {:induction false} RunThen(cfg: Config, s: State, acts: seq<Action>, m: State, a: Action)
    requires Run(cfg, s, acts, m) && Enabled(m, a) && |m.req.completers| == |cfg.statuses|
    ensures Run(cfg, s, acts + [a], Step(cfg, m, a))
    decreases |acts|
  {
    if acts != [] {
      RunThen(cfg, Step(cfg, s, acts[0]), acts[1..], m, a);
      assert (acts + [a])[1..] == acts[1..] + [a];
    }
  }

  lemma ReachesThen(cfg: Config, s: State, m: State, a: Action)
    requires Reaches(cfg, s, m) && Enabled(m, a) && |m.req.completers| == |cfg.statuses|
    ensures Reaches(cfg, s, Step(cfg, m, a))
  {
    var acts :| Run(cfg, s, acts, m);
    RunThen(cfg, s, acts, m, a);
  }

  /** The callback sits in `cb_fnc`, and both sides have already looked. */
  ghost predicate Lost(cfg: Config, s: State) {
    && Inv(cfg, s) && s.req.done && s.req.status == STATUS_PENDING && s.io.cbFnc
    && s.io.setter.SetterDone? && s.req.section.None? && s.req.registrar.Added?
  }

  /** A lost callback stays lost: no continuation, however it interleaves, runs the final callback. */
  lemma {:induction false} LostForever(cfg: Config, s: State, acts: seq<Action>, e: State)
    requires Lost(cfg, s) && Run(cfg, s, acts, e)
    ensures Lost(cfg, e) && e.res.finals == []
    decreases |acts|
  {
    if acts != [] {
      StepInv(cfg, s, acts[0]);
      LostForever(cfg, Step(cfg, s, acts[0]), acts[1..], e);
    }
  }

  /** One continuation of a lost state runs to the end, with the same completion accepted. */
  lemma {:induction false} LostToTheEnd(cfg: Config, s0: State, s: State, i: nat) returns (e: State)
    requires Lost(cfg, s) && Reaches(cfg, s0, s)
    requires i < |s.req.completers| && s.req.completers[i] == Returned(Accepted)
    ensures Reaches(cfg, s0, e) && Terminal(e) && Lost(cfg, e)
    ensures |e.req.completers| == |s.req.completers| && e.req.completers[i] == Returned(Accepted)
    decreases Rank(s)
  {
    if Terminal(s) {
      e := s;
    } else {
      var a :| Enabled(s, a);
      StepInv(cfg, s, a);
      RankDown(cfg, s, a);
      ReachesThen(cfg, s0, s, a);
      e := LostToTheEnd(cfg, s0, Step(cfg, s, a), i);
    }
  }

  /** Both callbacks are registered and thread i has been accepted; it stands before its callback loop. */
  lemma AcceptFirst(cfg: Config, i: nat) returns (s: State)
    requires i < |cfg.statuses|
    ensures Reaches(cfg, Init(cfg), s) && Inv(cfg, s)
    ensures s.req.section == Some(Section(Completer(i), [ReqCb, DevctrlCb], NotCompleting))
    ensures s.req.registrar.Added? && s.io.setter.StoreCtx? && s.req.status == cfg.statuses[i]
  {
    s := Init(cfg);
    InitInv(cfg);
    assert Run(cfg, s, [], s);
    var k := 0;
    while k < 3
      invariant 0 <= k <= 3
      invariant Reaches(cfg, Init(cfg), s) && Inv(cfg, s) && s.io.setter.StoreCtx?
      invariant s.req.section.None? && s.req.completers[i].Calling? && !s.req.done
      invariant s.req.registrar == [AddDevctrl, Start, AddReqCb, Added][k]
    {
      StepInv(cfg, s, Register);
      ReachesThen(cfg, Init(cfg), s, Register);
      s, k := Step(cfg, s, Register), k + 1;
    }
    StepInv(cfg, s, Complete(i));
    ReachesThen(cfg, Init(cfg), s, Complete(i));
    s := Step(cfg, s, Complete(i));
  }

  lemma OwnerMoves(s: State, i: nat)
    requires s.req.section.Some? && s.req.section.value.owner == Completer(i) && i < |s.req.completers|
    ensures var t := SectionStep(s);
      && t.req.registrar == s.req.registrar && t.req.status == s.req.status && t.io.setter == s.io.setter
      && (t.req.section.Some? ==> t.req.section.value.owner == Completer(i))
      && (t.req.section.None? ==> i < |t.req.completers| && t.req.completers[i] == Returned(Accepted))
  {
  }

  /** Thread i runs its whole critical section before the overlapped callback is set. */
  lemma CompleteFirst(cfg: Config, i: nat) returns (s: State)
    requires i < |cfg.statuses|
    ensures Reaches(cfg, Init(cfg), s) && Inv(cfg, s)
    ensures s.req.section.None? && s.req.registrar.Added? && s.io.setter.StoreCtx?
    ensures s.req.completers[i] == Returned(Accepted) && s.req.status == cfg.statuses[i]
  {
    s := AcceptFirst(cfg, i);
    while s.req.section.Some?
      invariant Reaches(cfg, Init(cfg), s) && Inv(cfg, s)
      invariant s.req.registrar.Added? && s.io.setter.StoreCtx? && s.req.status == cfg.statuses[i]
      invariant s.req.section.Some? ==> s.req.section.value.owner == Completer(i)
      invariant s.req.section.None? ==> s.req.completers[i] == Returned(Accepted)
      decreases Rank(s)
    {
      var t := Step(cfg, s, InSection);
      StepInv(cfg, s, InSection);
      RankDown(cfg, s, InSection);
      ReachesThen(cfg, Init(cfg), s, InSection);
      assert t == SectionStep(s);
      OwnerMoves(s, i);
      s := t;
    }
  }

  /** Completion with STATUS_PENDING before the registration loses the callback. */
  lemma PendingLoses(cfg: Config, i: nat) returns (e: State)
    requires i < |cfg.statuses| && cfg.statuses[i] == STATUS_PENDING
    ensures Reaches(cfg, Init(cfg), e) && Terminal(e) && AcceptedFrom(cfg, e, i) && e.res.finals == []
  {
    var s := CompleteFirst(cfg, i);
    assert Took(s.req.completers[i]);
    var k := 0;
    while k < 4
      invariant 0 <= k <= 4
      invariant Reaches(cfg, Init(cfg), s) && Inv(cfg, s) && s.req.section.None? && s.req.registrar.Added? && s.req.done
      invariant s.req.completers[i] == Returned(Accepted) && s.req.status == STATUS_PENDING
      invariant s.io.setter == [StoreCtx, StoreThread, StoreFnc, LoadStatus, SetterDone][k]
      invariant k > 2 ==> s.io.cbFnc
    {
      StepInv(cfg, s, SetOverlapped);
      ReachesThen(cfg, Init(cfg), s, SetOverlapped);
      s := Step(cfg, s, SetOverlapped);
      k := k + 1;
    }
    e := LostToTheEnd(cfg, Init(cfg), s, i);
  }

  /** It was thread i's completion that the request accepted. */
  ghost predicate AcceptedFrom(cfg: Config, s: State, i: nat) {
    i < |s.req.completers| == |cfg.statuses| && s.req.completers[i] == Returned(Accepted)
  }

  /** All captures whose accepted completion is thread i's deliver exactly once. */
  ghost predicate AlwaysDelivers(cfg: Config, i: nat)
    requires i < |cfg.statuses|
  {
    forall e :: Reaches(cfg, Init(cfg), e) && Terminal(e) && AcceptedFrom(cfg, e, i) ==> |e.res.finals| == 1
  }

  /** The handshake is exact: a completion is delivered in every interleaving if and only if its
      status differs from STATUS_PENDING, the value `cb_status` starts with. */
  lemma DeliveredIffNotPending(cfg: Config, i: nat)
    requires i < |cfg.statuses|
    ensures AlwaysDelivers(cfg, i) <==> cfg.statuses[i] != STATUS_PENDING
  {
    if cfg.statuses[i] == STATUS_PENDING {
      var e := PendingLoses(cfg, i);
    } else {
      forall e | Reaches(cfg, Init(cfg), e) && Terminal(e) && AcceptedFrom(cfg, e, i)
        ensures |e.res.finals| == 1
      {
        var acts :| Run(cfg, Init(cfg), acts, e);
        ExactlyOnce(cfg, acts, e);
        InitInv(cfg);
        RunInv(cfg, Init(cfg), acts, e);
        assert Took(e.req.completers[i]);
      }
    }
  }
}
