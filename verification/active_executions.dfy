/** The in-process registry of active executions: one execution id can have several
    incarnations, each with its own post-execute promise and capacity reservation. */
module ActiveExecutions {
  import opened Common

  type ExecutionId = nat

  datatype Status = New | Running | Waiting | Finished

  /** A deferred promise: not settled, settled with its `finally` callback still to run, or done. */
  datatype Promise = Unsettled | Settled | CallbackRan

  /** One incarnation; `response` is the response promise, `attached` whether it holds a workflow
      execution, `ended` whether the run it was started for will make no more calls. */
  datatype Record = Record(
    id: ExecutionId,
    startedAt: int,
    status: Status,
    promise: Promise,
    evaluation: bool,
    response: Option<nat>,
    attached: bool,
    ended: bool)

  /** A call of `add` between its await points. */
  datatype Phase = Begun | Reserved | Closed
  datatype AddCall = AddCall(id: ExecutionId, evaluation: bool, phase: Phase)

  /** `records` lists every incarnation ever created; `active` points to the registered ones;
      `outstanding` counts reservations acquired and not released. */
  datatype Registry = Registry(
    records: seq<Record>,
    active: map<ExecutionId, nat>,
    responseModes: set<ExecutionId>,
    calls: seq<AddCall>,
    outstanding: int)

  const EMPTY := Registry([], map[], {}, [], 0)

  ghost predicate Valid(reg: Registry) {
    forall id :: id in reg.active ==> reg.active[id] < |reg.records| && reg.records[reg.active[id]].id == id
  }

  predicate Has(reg: Registry, id: ExecutionId) {
    id in reg.active && reg.active[id] < |reg.records|
  }

  function Entry(reg: Registry, id: ExecutionId): Record
    requires Has(reg, id)
  {
    reg.records[reg.active[id]]
  }

  predicate IsRegistered(reg: Registry, r: nat) {
    r < |reg.records| && reg.records[r].id in reg.active && reg.active[reg.records[r].id] == r
  }

  function Set(reg: Registry, r: nat, rec: Record): Registry
    requires r < |reg.records|
  {
    reg.(records := reg.records[r := rec])
  }

  function Remove(reg: Registry, id: ExecutionId): Registry {
    reg.(active := reg.active - {id}, responseModes := reg.responseModes - {id})
  }

  /** `resolve` or `reject`: only the first has an effect. */
  function Settle(rec: Record): Record {
    if rec.promise.Unsettled? then rec.(promise := Settled) else rec
  }

  // ---- Operations --------------------------------------------------------

  function BeginAdd(reg: Registry, id: ExecutionId, evaluation: bool): Registry {
    reg.(calls := reg.calls + [AddCall(id, evaluation, Begun)])
  }

  predicate InPhase(reg: Registry, c: nat, phase: Phase) {
    c < |reg.calls| && reg.calls[c].phase == phase
  }

  /** Evaluation executions skip the reservation. */
  function Reserve(reg: Registry, c: nat): Registry
    requires InPhase(reg, c, Begun)
  {
    reg.(calls := reg.calls[c := reg.calls[c].(phase := Reserved)],
         outstanding := if reg.calls[c].evaluation then reg.outstanding else reg.outstanding + 1)
  }

  /** Any failure before the outcome, a lost claim included, gives the reservation back. */
  function FailAdd(reg: Registry, c: nat): Registry
    requires c < |reg.calls| && !reg.calls[c].phase.Closed?
  {
    reg.(calls := reg.calls[c := reg.calls[c].(phase := Closed)],
         outstanding := if reg.calls[c].phase.Reserved? && !reg.calls[c].evaluation
                        then reg.outstanding - 1 else reg.outstanding)
  }

  /** The synchronous tail of `add`: a new incarnation takes over the id. */
  function FinishAdd(reg: Registry, c: nat, now: int): Registry
    requires InPhase(reg, c, Reserved)
  {
    var id := reg.calls[c].id;
    var resuming := if Has(reg, id) then Some(Entry(reg, id)) else None;
    var startedAt := if resuming.Some? then resuming.value.startedAt else now;
    var response := if resuming.Some? then resuming.value.response else None;
    var rec := Record(id, startedAt, Running, Unsettled, reg.calls[c].evaluation, response, false, false);
    reg.(calls := reg.calls[c := reg.calls[c].(phase := Closed)],
         records := reg.records + [rec],
         active := reg.active[id := |reg.records|])
  }

  function SetStatus(reg: Registry, id: ExecutionId, status: Status): Registry {
    if Has(reg, id) then Set(reg, reg.active[id], Entry(reg, id).(status := status)) else reg
  }

  function Stop(reg: Registry, id: ExecutionId): Registry {
    if !Has(reg, id) then reg
    else if Entry(reg, id).status == Waiting then Remove(reg, id)
    else Set(reg, reg.active[id], Settle(Entry(reg, id)))
  }

  function Finalize(reg: Registry, id: ExecutionId): Registry {
    if Has(reg, id) then Set(reg, reg.active[id], Settle(Entry(reg, id))) else reg
  }

  /** The run of incarnation `r` finalizes, by the id alone; `last` if it then makes no more calls. */
  function RunReturns(reg: Registry, r: nat, last: bool): Registry
    requires r < |reg.records|
  {
    var finalized := Finalize(reg, reg.records[r].id);
    if last && r < |finalized.records| then Set(finalized, r, finalized.records[r].(ended := true)) else finalized
  }

  function Attach(reg: Registry, id: ExecutionId): Registry {
    if Has(reg, id) then Set(reg, reg.active[id], Entry(reg, id).(attached := true)) else reg
  }

  /** The `finally` callback of incarnation `r`: whatever entry its id has by then is removed,
      unless the incarnation itself was left waiting. */
  function RunCallback(reg: Registry, r: nat): Registry
    requires r < |reg.records|
  {
    var rec := reg.records[r];
    if !rec.promise.Settled? then reg
    else
      var released := reg.(outstanding := if rec.evaluation then reg.outstanding else reg.outstanding - 1);
      if rec.status == Waiting then Set(released, r, rec.(promise := CallbackRan, attached := false))
      else Remove(Set(released, r, rec.(promise := CallbackRan)), rec.id)
  }

  datatype Step =
    | BeginStep(id: ExecutionId, evaluation: bool)
    | ReserveStep(c: nat)
    | FailStep(c: nat)
    | FinishStep(c: nat, now: int)
    | StatusStep(id: ExecutionId, status: Status)
    | StopStep(id: ExecutionId)
    | FinalizeStep(r: nat, last: bool)
    | CallbackStep(r: nat)
    | AttachStep(id: ExecutionId)
    | ResponseModeStep(id: ExecutionId)

  predicate Enabled(reg: Registry, step: Step) {
    match step
    case ReserveStep(c) => InPhase(reg, c, Begun)
    case FailStep(c) => c < |reg.calls| && !reg.calls[c].phase.Closed?
    case FinishStep(c, _) => InPhase(reg, c, Reserved)
    case FinalizeStep(r, _) => r < |reg.records| && !reg.records[r].ended
    case CallbackStep(r) => r < |reg.records| && reg.records[r].promise.Settled?
    case _ => true
  }

  function Next(reg: Registry, step: Step): Registry
    requires Enabled(reg, step)
  {
    match step
    case BeginStep(id, evaluation) => BeginAdd(reg, id, evaluation)
    case ReserveStep(c) => Reserve(reg, c)
    case FailStep(c) => FailAdd(reg, c)
    case FinishStep(c, now) => FinishAdd(reg, c, now)
    case StatusStep(id, status) => SetStatus(reg, id, status)
    case StopStep(id) => Stop(reg, id)
    case FinalizeStep(r, last) => RunReturns(reg, r, last)
    case CallbackStep(r) => RunCallback(reg, r)
    case AttachStep(id) => Attach(reg, id)
    case ResponseModeStep(id) => reg.(responseModes := reg.responseModes + {id})
  }

  ghost predicate IsRun(states: seq<Registry>, steps: seq<Step>) {
    && |states| == |steps| + 1
    && forall n | 0 <= n < |steps| :: Enabled(states[n], steps[n]) && states[n + 1] == Next(states[n], steps[n])
  }

  lemma StepKeepsValid(reg: Registry, step: Step)
    requires Enabled(reg, step) && Valid(reg)
    ensures Valid(Next(reg, step))
  {}

  /** What a step may do to incarnation `r`. */
  predicate RecordMoves(reg: Registry, step: Step, r: nat, was: Record, now: Record) {
    && now.id == was.id && now.startedAt == was.startedAt && now.evaluation == was.evaluation
    && (was.ended ==> now.ended)
    && (now.status == was.status || (step.StatusStep? && step.id == was.id && IsRegistered(reg, r)))
    && (now.promise == was.promise
        || (step == CallbackStep(r) && was.promise.Settled? && now.promise.CallbackRan?)
        || (was.promise.Unsettled? && now.promise.Settled? && IsRegistered(reg, r)
            && (step == StopStep(was.id)
                || (step.FinalizeStep? && step.r < |reg.records| && reg.records[step.r].id == was.id))))
  }

  lemma RecordAfter(reg: Registry, step: Step, r: nat)
    requires Enabled(reg, step) && Valid(reg) && r < |reg.records|
    ensures r < |Next(reg, step).records| && RecordMoves(reg, step, r, reg.records[r], Next(reg, step).records[r])
  {}

  /** A step that adds an incarnation is a takeover of its id. */
  lemma NewRecord(reg: Registry, step: Step, r: nat)
    requires Enabled(reg, step) && |reg.records| <= r < |Next(reg, step).records|
    ensures step.FinishStep? && Next(reg, step).records[r].id == reg.calls[step.c].id
  {}

  predicate TakesOver(reg: Registry, step: Step, id: ExecutionId) {
    step.FinishStep? && step.c < |reg.calls| && reg.calls[step.c].id == id
  }

  /** Only stopping a waiting entry and a removing callback of the id take an entry away. */
  predicate MayUnregister(reg: Registry, step: Step, id: ExecutionId) {
    match step
    case StopStep(stopped) => stopped == id && Has(reg, id) && Entry(reg, id).status == Waiting
    case CallbackStep(r) =>
      && r < |reg.records| && reg.records[r].id == id
      && reg.records[r].promise.Settled? && reg.records[r].status != Waiting
    case _ => false
  }

  lemma ActiveAfter(reg: Registry, step: Step, id: ExecutionId)
    requires Enabled(reg, step)
    ensures var next := Next(reg, step);
            if TakesOver(reg, step, id) then id in next.active && next.active[id] == |reg.records|
            else
              && (id in next.active <==> id in reg.active && !MayUnregister(reg, step, id))
              && (id in next.active ==> next.active[id] == reg.active[id])
  {}

  lemma StaysRegistered(reg: Registry, step: Step, x: nat)
    requires Enabled(reg, step) && Valid(reg) && IsRegistered(reg, x)
    requires !MayUnregister(reg, step, reg.records[x].id) && !TakesOver(reg, step, reg.records[x].id)
    ensures Valid(Next(reg, step)) && IsRegistered(Next(reg, step), x)
  {
    hide Next, Enabled;
    StepKeepsValid(reg, step);
    RecordAfter(reg, step, x);
    ActiveAfter(reg, step, reg.records[x].id);
  }

  // ---- Capacity ------------------------------------------------------------

  predicate CallHolds(c: AddCall) { c.phase.Reserved? && !c.evaluation }
  predicate RecordHolds(r: Record) { !r.promise.CallbackRan? && !r.evaluation }

  /** Outstanding reservations are those of non-evaluation calls between reserve and outcome
      and of non-evaluation incarnations whose callback has not run. */
  ghost predicate Conserved(reg: Registry) {
    reg.outstanding == CountIf(reg.calls, CallHolds) + CountIf(reg.records, RecordHolds)
  }

  lemma StepConserves(reg: Registry, step: Step)
    requires Enabled(reg, step) && Valid(reg) && Conserved(reg)
    ensures Conserved(Next(reg, step))
  {
    hide CountIf;
    var next := Next(reg, step);
    match step
    case BeginStep(id, evaluation) => CountIfAppend(reg.calls, AddCall(id, evaluation, Begun), CallHolds);
    case ReserveStep(c) => CountIfUpdate(reg.calls, c, next.calls[c], CallHolds);
    case FailStep(c) => CountIfUpdate(reg.calls, c, next.calls[c], CallHolds);
    case FinishStep(c, _) =>
      CountIfUpdate(reg.calls, c, next.calls[c], CallHolds);
      CountIfAppend(reg.records, next.records[|reg.records|], RecordHolds);
    case StatusStep(id, _) =>
      if Has(reg, id) { CountIfUpdate(reg.records, reg.active[id], next.records[reg.active[id]], RecordHolds); }
    case StopStep(id) =>
      if Has(reg, id) { CountIfUpdate(reg.records, reg.active[id], next.records[reg.active[id]], RecordHolds); }
    case FinalizeStep(r, last) =>
      var id, mid := reg.records[r].id, Finalize(reg, reg.records[r].id);
      if Has(reg, id) { CountIfUpdate(reg.records, reg.active[id], mid.records[reg.active[id]], RecordHolds); }
      if last { CountIfUpdate(mid.records, r, next.records[r], RecordHolds); }
    case CallbackStep(r) => CountIfUpdate(reg.records, r, next.records[r], RecordHolds);
    case AttachStep(id) =>
      if Has(reg, id) { CountIfUpdate(reg.records, reg.active[id], next.records[reg.active[id]], RecordHolds); }
    case ResponseModeStep(_) =>
  }

  /** In every run capacity is conserved, and no reservation is released that is not held. */
  lemma {:induction false} CapacityIsConserved(states: seq<Registry>, steps: seq<Step>)
    requires IsRun(states, steps) && states[0] == EMPTY
    ensures Valid(states[|steps|]) && Conserved(states[|steps|]) && states[|steps|].outstanding >= 0
  {
    if steps != [] {
      var n := |steps| - 1;
      assert IsRun(states[..n + 1], steps[..n]);
      CapacityIsConserved(states[..n + 1], steps[..n]);
      assert states[n + 1] == Next(states[n], steps[n]);
      StepKeepsValid(states[n], steps[n]);
      StepConserves(states[n], steps[n]);
    }
  }

  // ---- Superseded incarnations ---------------------------------------------

  /** An incarnation that is no longer registered and whose callback is still to come was
      left waiting, so its callback removes nothing. */
  ghost predicate SupersededAreWaiting(reg: Registry) {
    forall r :: 0 <= r < |reg.records| && !IsRegistered(reg, r) && !reg.records[r].promise.CallbackRan? ==>
      reg.records[r].status == Waiting
  }

  /** The local entry of a resumed id is absent, waiting, or done with. */
  predicate MayTakeOver(reg: Registry, id: ExecutionId) {
    !Has(reg, id) || Entry(reg, id).status == Waiting || Entry(reg, id).promise.CallbackRan?
  }

  lemma StepKeepsSuperseded(reg: Registry, step: Step)
    requires Enabled(reg, step) && Valid(reg) && SupersededAreWaiting(reg)
    requires step.FinishStep? ==> MayTakeOver(reg, reg.calls[step.c].id)
    ensures SupersededAreWaiting(Next(reg, step))
  {
    var next := Next(reg, step);
    forall r | 0 <= r < |next.records| && !IsRegistered(next, r) && !next.records[r].promise.CallbackRan?
      ensures next.records[r].status == Waiting
    {
      assert r < |reg.records|;
      if IsRegistered(reg, r) {
      }
    }
  }

  /** The guard is exact: taking over any other entry leaves an incarnation behind that can
      still remove the new one. */
  lemma TakeOverGuardIsExact(reg: Registry, c: nat, now: int)
    requires InPhase(reg, c, Reserved) && Valid(reg) && SupersededAreWaiting(reg)
    ensures SupersededAreWaiting(FinishAdd(reg, c, now)) <==> MayTakeOver(reg, reg.calls[c].id)
  {
    var next, id := FinishAdd(reg, c, now), reg.calls[c].id;
    if MayTakeOver(reg, id) {
      StepKeepsSuperseded(reg, FinishStep(c, now));
    } else {
      var r := reg.active[id];
      assert next.records[r] == reg.records[r] && !IsRegistered(next, r);
    }
  }

  ghost predicate Guarded(states: seq<Registry>, steps: seq<Step>) {
    && IsRun(states, steps)
    && forall n | 0 <= n < |steps| ::
         steps[n].FinishStep? ==> MayTakeOver(states[n], states[n].calls[steps[n].c].id)
  }

  /** In every run in which executions are taken over only when absent, waiting or done with,
      the callback of a superseded incarnation leaves the registry as it is. */
  lemma {:induction false} SupersededNeverRemoves(states: seq<Registry>, steps: seq<Step>, r: nat)
    requires Guarded(states, steps) && states[0] == EMPTY
    ensures Valid(states[|steps|]) && SupersededAreWaiting(states[|steps|])
    ensures var reg := states[|steps|];
            r < |reg.records| && !IsRegistered(reg, r) ==>
              RunCallback(reg, r).active == reg.active && RunCallback(reg, r).responseModes == reg.responseModes
  {
    if steps != [] {
      var n := |steps| - 1;
      assert Guarded(states[..n + 1], steps[..n]);
      SupersededNeverRemoves(states[..n + 1], steps[..n], r);
      assert states[n + 1] == Next(states[n], steps[n]);
      assert steps[n].FinishStep? ==> MayTakeOver(states[n], states[n].calls[steps[n].c].id);
      StepKeepsValid(states[n], steps[n]);
      StepKeepsSuperseded(states[n], steps[n]);
    }
  }

  // ---- A new incarnation -----------------------------------------------------

  /** A takeover registers a running incarnation that inherits start time and response promise. */
  lemma AddedIncarnation(reg: Registry, c: nat, now: int)
    requires InPhase(reg, c, Reserved)
    ensures var next, call, x := FinishAdd(reg, c, now), reg.calls[c], |reg.records|;
            && IsRegistered(next, x) && |next.records| == x + 1 && next.records[..x] == reg.records
            && var rec := next.records[x];
            && rec.id == call.id && rec.evaluation == call.evaluation
            && rec.status == Running && rec.promise == Unsettled && !rec.attached && !rec.ended
            && (if Has(reg, call.id)
                then rec.startedAt == Entry(reg, call.id).startedAt && rec.response == Entry(reg, call.id).response
                else rec.startedAt == now && rec.response == None)
  {}

  /** As long as nobody changes the status of an execution since it was added, it is running. */
  lemma {:induction false} StaysRunning(states: seq<Registry>, steps: seq<Step>)
    requires IsRun(states, steps) && Valid(states[0]) && |steps| > 0 && steps[0].FinishStep?
    requires var id := states[0].calls[steps[0].c].id;
             forall n, status | 0 < n < |steps| :: steps[n] != StatusStep(id, status)
    ensures var x, last := |states[0].records|, states[|steps|];
            && Valid(last) && x < |last.records| && last.records[x].id == states[0].calls[steps[0].c].id
            && last.records[x].status == Running
  {
    var n, x := |steps| - 1, |states[0].records|;
    assert states[n + 1] == Next(states[n], steps[n]);
    if n == 0 {
      StepKeepsValid(states[0], steps[0]);
      AddedIncarnation(states[0], steps[0].c, steps[0].now);
    } else {
      assert IsRun(states[..n + 1], steps[..n]);
      StaysRunning(states[..n + 1], steps[..n]);
      hide Next;
      StepKeepsValid(states[n], steps[n]);
      RecordAfter(states[n], steps[n], x);
    }
  }

  /** A plain shutdown keeps such an execution, if it is still registered, and waits for it. */
  lemma {:induction false} PlainShutdownKeepsRunning(states: seq<Registry>, steps: seq<Step>, order: seq<ExecutionId>)
    requires IsRun(states, steps) && Valid(states[0]) && |steps| > 0 && steps[0].FinishStep?
    requires var id := states[0].calls[steps[0].c].id;
             forall n, status | 0 < n < |steps| :: steps[n] != StatusStep(id, status)
    requires IsRegistered(states[|steps|], |states[0].records|) && IsKeyOrder(states[|steps|], order)
    ensures states[0].calls[steps[0].c].id in Shutdown(states[|steps|], order, false).active
  {
    StaysRunning(states, steps);
    PlainShutdownDrops(states[|steps|], order);
  }

  // ---- Start time --------------------------------------------------------

  lemma StepKeepsStart(reg: Registry, step: Step, id: ExecutionId)
    requires Enabled(reg, step) && Valid(reg) && id in reg.active && id in Next(reg, step).active
    ensures Valid(Next(reg, step)) && Entry(Next(reg, step), id).startedAt == Entry(reg, id).startedAt
  {
    if !TakesOver(reg, step, id) {
      hide Next;
      StepKeepsValid(reg, step);
      ActiveAfter(reg, step, id);
      RecordAfter(reg, step, reg.active[id]);
    }
  }

  /** As long as an id stays registered its start time is that of the first incarnation,
      through any number of resumes. */
  lemma {:induction false} StartTimeCarriesOver(states: seq<Registry>, steps: seq<Step>, id: ExecutionId)
    requires IsRun(states, steps) && Valid(states[0])
    requires forall n | 0 <= n <= |steps| :: id in states[n].active
    ensures Valid(states[|steps|]) && Entry(states[|steps|], id).startedAt == Entry(states[0], id).startedAt
  {
    if steps != [] {
      var n := |steps| - 1;
      assert IsRun(states[..n + 1], steps[..n]);
      StartTimeCarriesOver(states[..n + 1], steps[..n], id);
      assert states[n + 1] == Next(states[n], steps[n]);
      StepKeepsStart(states[n], steps[n], id);
    }
  }

  // ---- Reservations that can never be given back -----------------------------

  /** Every promise that can still be settled belongs to a registered entry. */
  ghost predicate AllReachable(reg: Registry) {
    forall r :: 0 <= r < |reg.records| && reg.records[r].promise.Unsettled? ==> IsRegistered(reg, r)
  }

  /** A step that drops or replaces an entry does so only once the entry's promise has settled. */
  predicate DropsSettled(reg: Registry, step: Step) {
    match step
    case FinishStep(c, _) =>
      c < |reg.calls| && (Has(reg, reg.calls[c].id) ==> !Entry(reg, reg.calls[c].id).promise.Unsettled?)
    case StopStep(id) => Has(reg, id) && Entry(reg, id).status == Waiting ==> !Entry(reg, id).promise.Unsettled?
    case _ => true
  }

  /** Stopping or taking over a waiting execution keeps all promises reachable if and only if
      its own promise has settled; no other guarded step loses one. */
  lemma LosesAPromiseIff(reg: Registry, step: Step)
    requires Enabled(reg, step) && Valid(reg) && AllReachable(reg) && SupersededAreWaiting(reg)
    ensures AllReachable(Next(reg, step)) <==> DropsSettled(reg, step)
  {
    var next := Next(reg, step);
    if !DropsSettled(reg, step) {
      var id := if step.FinishStep? then reg.calls[step.c].id else step.id;
      var r := reg.active[id];
      assert next.records[r] == reg.records[r] && !IsRegistered(next, r);
    } else {
      forall r | 0 <= r < |next.records| && next.records[r].promise.Unsettled?
        ensures IsRegistered(next, r)
      {
        if r < |reg.records| { KeepsReach(reg, step, r); }
      }
    }
  }

  lemma KeepsReach(reg: Registry, step: Step, r: nat)
    requires Enabled(reg, step) && Valid(reg) && AllReachable(reg) && SupersededAreWaiting(reg)
    requires DropsSettled(reg, step)
    requires r < |reg.records| && r < |Next(reg, step).records| && Next(reg, step).records[r].promise.Unsettled?
    ensures IsRegistered(Next(reg, step), r)
  {
    hide Next;
    RecordAfter(reg, step, r);
    assert IsRegistered(reg, r);
    assert Has(reg, reg.records[r].id) && Entry(reg, reg.records[r].id) == reg.records[r];
    if step.CallbackStep? && reg.records[step.r].id == reg.records[r].id {
      assert !IsRegistered(reg, step.r);
    }
    StaysRegistered(reg, step, r);
  }

  ghost predicate Lost(reg: Registry, r: nat) {
    r < |reg.records| && reg.records[r].promise.Unsettled? && !IsRegistered(reg, r)
  }

  /** A promise that is out of reach is never settled, so its reservation is held for good. */
  lemma {:induction false} LostStaysLost(states: seq<Registry>, steps: seq<Step>, r: nat)
    requires IsRun(states, steps) && Valid(states[0]) && Lost(states[0], r)
    ensures Valid(states[|steps|]) && Lost(states[|steps|], r)
    ensures RecordHolds(states[|steps|].records[r]) <==> RecordHolds(states[0].records[r])
  {
    if steps != [] {
      var n := |steps| - 1;
      assert IsRun(states[..n + 1], steps[..n]);
      LostStaysLost(states[..n + 1], steps[..n], r);
      assert states[n + 1] == Next(states[n], steps[n]);
      hide Next;
      StepKeepsValid(states[n], steps[n]);
      RecordAfter(states[n], steps[n], r);
      ActiveAfter(states[n], steps[n], states[n].records[r].id);
    }
  }

  /** Such runs exist: from the empty registry, an execution starts to wait and is stopped before
      its own run has finalized it. */
  lemma StopLosesAPromise(id: ExecutionId, now: int) returns (states: seq<Registry>, steps: seq<Step>)
    ensures |steps| == 5 && IsRun(states, steps) && states[0] == EMPTY
    ensures Lost(states[5], 0) && RecordHolds(states[5].records[0]) && states[5].outstanding == 1
    ensures states[5].active == map[]
  {
    var call, rec := AddCall(id, false, Closed), Record(id, now, Running, Unsettled, false, None, false, false);
    var s1 := Registry([], map[], {}, [call.(phase := Begun)], 0);
    var s2 := Registry([], map[], {}, [call.(phase := Reserved)], 1);
    var s3 := Registry([rec], map[id := 0], {}, [call], 1);
    var s4 := Registry([rec.(status := Waiting)], map[id := 0], {}, [call], 1);
    var s5 := Registry([rec.(status := Waiting)], map[], {}, [call], 1);
    steps := [BeginStep(id, false), ReserveStep(0), FinishStep(0, now), StatusStep(id, Waiting), StopStep(id)];
    assert Next(EMPTY, steps[0]) == s1;
    assert Next(s1, steps[1]) == s2;
    assert Next(s2, steps[2]) == s3;
    assert Next(s3, steps[3]) == s4;
    assert Next(s4, steps[4]) == s5;
    states := [EMPTY, s1, s2, s3, s4, s5];
  }

  // ---- Runs that outlive their incarnation -------------------------------------

  /** A finalization settles the promise of another incarnation than its own if and only if its
      own is no longer the registered one and the registered one has not settled. */
  lemma ForeignFinalizeIff(reg: Registry, r: nat, last: bool)
    requires Valid(reg) && Enabled(reg, FinalizeStep(r, last))
    ensures var next := Next(reg, FinalizeStep(r, last));
            (exists x :: 0 <= x < |reg.records| && x != r && next.records[x].promise != reg.records[x].promise) <==>
            Has(reg, reg.records[r].id) && !IsRegistered(reg, r) && Entry(reg, reg.records[r].id).promise.Unsettled?
  {
    var next, id := Next(reg, FinalizeStep(r, last)), reg.records[r].id;
    if Has(reg, id) && !IsRegistered(reg, r) && Entry(reg, id).promise.Unsettled? {
      var x := reg.active[id];
      assert next.records[x].promise != reg.records[x].promise;
    }
  }

  /** The run of incarnation `r` would settle a later incarnation: it has not ended, and another
      incarnation of its id is registered. */
  ghost predicate IsForeign(reg: Registry, r: nat) {
    r < |reg.records| && !reg.records[r].ended && Has(reg, reg.records[r].id) && !IsRegistered(reg, r)
  }

  /** This step takes over the id of `r` while the run of `r` goes on. */
  predicate Overtakes(reg: Registry, step: Step, r: nat) {
    r < |reg.records| && !reg.records[r].ended && TakesOver(reg, step, reg.records[r].id)
  }

  /** In every run from the empty registry the run of an incarnation can settle another one only if
      its id was taken over while it was going on. */
  lemma {:induction false} ForeignMeansOvertaken(states: seq<Registry>, steps: seq<Step>, r: nat)
    requires IsRun(states, steps) && states[0] == EMPTY && IsForeign(states[|steps|], r)
    ensures exists m :: 0 <= m < |steps| && Overtakes(states[m], steps[m], r)
  {
    RunIsValid(states, steps, |steps|);
    if steps != [] {
      var n := |steps| - 1;
      var before, step, now := states[n], steps[n], states[n + 1];
      assert now == Next(before, step);
      RunIsValid(states, steps, n);
      assert IsRun(states[..n + 1], steps[..n]);
      hide Next;
      if r < |before.records| {
        var id := before.records[r].id;
        RecordAfter(before, step, r);
        ActiveAfter(before, step, id);
        if TakesOver(before, step, id) {
          assert Overtakes(states[n], steps[n], r);
        } else {
          ForeignMeansOvertaken(states[..n + 1], steps[..n], r);
          var m :| 0 <= m < n && Overtakes(states[..n + 1][m], steps[..n][m], r);
          assert Overtakes(states[m], steps[m], r);
        }
      } else {
        NewIsRegistered(before, step, r);
        assert false;
      }
    }
  }

  lemma NewIsRegistered(reg: Registry, step: Step, r: nat)
    requires Enabled(reg, step) && |reg.records| <= r < |Next(reg, step).records|
    ensures IsRegistered(Next(reg, step), r)
  {}

  lemma {:induction false} RunIsValid(states: seq<Registry>, steps: seq<Step>, n: nat)
    requires IsRun(states, steps) && Valid(states[0]) && n <= |steps|
    ensures Valid(states[n])
  {
    if n > 0 {
      RunIsValid(states, steps, n - 1);
      assert states[n] == Next(states[n - 1], steps[n - 1]);
      StepKeepsValid(states[n - 1], steps[n - 1]);
    }
  }

  /** This incarnation can no longer do anything to a later one of its id: its run has ended and no
      callback of it that removes the entry is to come. */
  predicate DoneWith(rec: Record) {
    rec.ended && (rec.promise.Settled? ==> rec.status == Waiting)
  }

  ghost predicate OthersDone(reg: Registry, x: nat)
    requires x < |reg.records|
  {
    forall r :: 0 <= r < |reg.records| && r != x && reg.records[r].id == reg.records[x].id ==> DoneWith(reg.records[r])
  }

  /** Nobody stops the execution or takes it over, and its own run does not return. */
  predicate LeavesAlone(reg: Registry, step: Step, x: nat)
    requires x < |reg.records|
  {
    match step
    case StopStep(id) => id != reg.records[x].id
    case FinishStep(c, _) => c < |reg.calls| && reg.calls[c].id != reg.records[x].id
    case FinalizeStep(r, _) => r != x
    case _ => true
  }

  ghost predicate IsLeftAlone(reg: Registry, x: nat, states: seq<Registry>, steps: seq<Step>) {
    && IsRun(states, steps) && states[0] == reg
    && forall n | 0 <= n < |steps| :: x < |states[n].records| && LeavesAlone(states[n], steps[n], x)
  }

  lemma StepKeepsAlone(reg: Registry, step: Step, x: nat)
    requires Enabled(reg, step) && Valid(reg) && IsRegistered(reg, x) && reg.records[x].promise.Unsettled?
    requires OthersDone(reg, x) && LeavesAlone(reg, step, x)
    ensures Valid(Next(reg, step)) && IsRegistered(Next(reg, step), x)
    ensures Next(reg, step).records[x].promise.Unsettled? && OthersDone(Next(reg, step), x)
  {
    hide Next;
    StaysRegistered(reg, step, x);
    RecordAfter(reg, step, x);
    var next := Next(reg, step);
    forall r | 0 <= r < |next.records| && r != x && next.records[r].id == next.records[x].id
      ensures DoneWith(next.records[r])
    {
      if r < |reg.records| { RecordAfter(reg, step, r); } else { NewRecord(reg, step, r); }
    }
  }

  lemma {:induction false} LeftAloneStays(reg: Registry, x: nat, states: seq<Registry>, steps: seq<Step>)
    requires Valid(reg) && IsRegistered(reg, x) && reg.records[x].promise.Unsettled? && OthersDone(reg, x)
    requires IsLeftAlone(reg, x, states, steps)
    ensures var last := states[|steps|];
            Valid(last) && IsRegistered(last, x) && last.records[x].promise.Unsettled? && OthersDone(last, x)
  {
    if steps != [] {
      var n := |steps| - 1;
      assert IsLeftAlone(reg, x, states[..n + 1], steps[..n]);
      LeftAloneStays(reg, x, states[..n + 1], steps[..n]);
      assert states[n + 1] == Next(states[n], steps[n]);
      StepKeepsAlone(states[n], steps[n], x);
    }
  }

  ghost predicate StaysWhileLeftAlone(reg: Registry, x: nat) {
    forall states, steps | IsLeftAlone(reg, x, states, steps) :: IsRegistered(states[|steps|], x)
  }

  /** An unfinished incarnation that is left alone stays registered in every continuation if and
      only if all other incarnations of its id are done with: the run of one that is not
      finalizes this one, or a callback of one is still to come, and the entry is removed. */
  lemma StaysRegisteredIff(reg: Registry, x: nat)
    requires Valid(reg) && IsRegistered(reg, x) && reg.records[x].promise.Unsettled?
    ensures StaysWhileLeftAlone(reg, x) <==> OthersDone(reg, x)
  {
    if OthersDone(reg, x) {
      forall states, steps | IsLeftAlone(reg, x, states, steps)
        ensures IsRegistered(states[|steps|], x)
      {
        LeftAloneStays(reg, x, states, steps);
      }
    } else {
      var r :| 0 <= r < |reg.records| && r != x && reg.records[r].id == reg.records[x].id && !DoneWith(reg.records[r]);
      if reg.records[r].promise.Settled? && reg.records[r].status != Waiting {
        PendingCallbackRemoves(reg, x, r);
      } else {
        LateFinalizeRemoves(reg, x, r);
      }
    }
  }

  lemma PendingCallbackRemoves(reg: Registry, x: nat, r: nat)
    requires IsRegistered(reg, x) && r < |reg.records| && r != x && reg.records[r].id == reg.records[x].id
    requires reg.records[r].promise.Settled? && reg.records[r].status != Waiting
    ensures !StaysWhileLeftAlone(reg, x)
  {
    var next := Next(reg, CallbackStep(r));
    assert IsLeftAlone(reg, x, [reg, next], [CallbackStep(r)]);
    assert !IsRegistered([reg, next][|[CallbackStep(r)]|], x);
  }

  /** The older run finalizes the newer incarnation, whose callback then removes its entry. */
  lemma LateFinalizeRemoves(reg: Registry, x: nat, r: nat)
    requires Valid(reg) && IsRegistered(reg, x) && reg.records[x].promise.Unsettled?
    requires r < |reg.records| && r != x && reg.records[r].id == reg.records[x].id && !reg.records[r].ended
    ensures !StaysWhileLeftAlone(reg, x)
  {
    var id := reg.records[x].id;
    var running := Next(reg, StatusStep(id, Running));
    var finalized := Next(running, FinalizeStep(r, false));
    var removed := Next(finalized, CallbackStep(x));
    var states := [reg, running, finalized, removed];
    var steps := [StatusStep(id, Running), FinalizeStep(r, false), CallbackStep(x)];
    assert IsLeftAlone(reg, x, states, steps);
    assert !IsRegistered(states[|steps|], x);
  }

  /** A resumed execution is safe from its earlier incarnations if and only if, when it is taken
      over, all of them are done with. */
  lemma ResumedStaysIff(reg: Registry, c: nat, now: int)
    requires Valid(reg) && InPhase(reg, c, Reserved)
    ensures StaysWhileLeftAlone(FinishAdd(reg, c, now), |reg.records|) <==>
      forall r :: 0 <= r < |reg.records| && reg.records[r].id == reg.calls[c].id ==> DoneWith(reg.records[r])
  {
    var resumed, x := FinishAdd(reg, c, now), |reg.records|;
    StaysRegisteredIff(resumed, x);
    assert forall r :: 0 <= r < |reg.records| ==> resumed.records[r] == reg.records[r];
  }

  // ---- Shutdown --------------------------------------------------------------

  /** One turn of the loop in `shutdown`; `cancel` is `isRegularMode && cancelAll`. */
  function ShutdownOne(reg: Registry, id: ExecutionId, cancel: bool): Registry {
    if cancel then Stop(reg, id)
    else if Has(reg, id) && (Entry(reg, id).status == Waiting || Entry(reg, id).status == New)
    then reg.(active := reg.active - {id})
    else reg
  }

  function Shutdown(reg: Registry, order: seq<ExecutionId>, cancel: bool): Registry {
    if order == [] then reg
    else ShutdownOne(Shutdown(reg, order[..|order| - 1], cancel), order[|order| - 1], cancel)
  }

  predicate Drops(rec: Record, cancel: bool) {
    rec.status == Waiting || (!cancel && rec.status == New)
  }

  ghost predicate IsKeyOrder(reg: Registry, order: seq<ExecutionId>) {
    && (forall id :: id in order <==> id in reg.active)
    && (forall i, j :: 0 <= i < j < |order| ==> order[i] != order[j])
  }

  /** What the loop has done to the ids visited so far. */
  ghost predicate ShutDown(reg: Registry, visited: seq<ExecutionId>, cancel: bool, after: Registry)
    requires Valid(reg)
  {
    && |after.records| == |reg.records| && after.outstanding == reg.outstanding && after.calls == reg.calls
    && (forall id :: id in after.active <==> id in reg.active && !(id in visited && Drops(Entry(reg, id), cancel)))
    && (forall id :: id in after.active ==> after.active[id] == reg.active[id])
    && (forall r | 0 <= r < |reg.records| :: after.records[r] ==
          if cancel && IsRegistered(reg, r) && reg.records[r].id in visited && reg.records[r].status != Waiting
          then Settle(reg.records[r]) else reg.records[r])
    && (forall id :: id in after.responseModes <==>
          id in reg.responseModes && !(cancel && id in visited && Has(reg, id) && Entry(reg, id).status == Waiting))
  }

  lemma {:induction false} ShutdownEffect(reg: Registry, order: seq<ExecutionId>, cancel: bool)
    requires Valid(reg)
    requires forall id :: id in order ==> id in reg.active
    requires forall i, j :: 0 <= i < j < |order| ==> order[i] != order[j]
    ensures ShutDown(reg, order, cancel, Shutdown(reg, order, cancel))
  {
    if order != [] {
      var init, last := order[..|order| - 1], order[|order| - 1];
      ShutdownEffect(reg, init, cancel);
      assert last !in init;
      ShutdownTurn(reg, init, cancel, Shutdown(reg, init, cancel), last);
      assert order == init + [last];
    }
  }

  lemma ShutdownTurn(reg: Registry, visited: seq<ExecutionId>, cancel: bool, mid: Registry, id: ExecutionId)
    requires Valid(reg) && ShutDown(reg, visited, cancel, mid) && id in reg.active && id !in visited
    ensures ShutDown(reg, visited + [id], cancel, ShutdownOne(mid, id, cancel))
  {
    assert Entry(mid, id) == Entry(reg, id);
    assert forall x :: x in visited + [id] <==> x in visited || x == id;
  }

  /** Running the pending callbacks in the order given. */
  function Drain(reg: Registry, rs: seq<nat>): Registry {
    if rs == [] then reg
    else
      var before := Drain(reg, rs[..|rs| - 1]);
      var r := rs[|rs| - 1];
      if r < |before.records| then RunCallback(before, r) else before
  }

  /** A pending callback of `rs` that will remove the entry of `id`. */
  ghost predicate Clears(reg: Registry, rs: seq<nat>, id: ExecutionId) {
    exists r :: r in rs && r < |reg.records| && reg.records[r].id == id
             && reg.records[r].promise.Settled? && reg.records[r].status != Waiting
  }

  lemma {:induction false} DrainEffect(reg: Registry, rs: seq<nat>)
    ensures var after := Drain(reg, rs);
            && |after.records| == |reg.records|
            && (forall r :: 0 <= r < |reg.records| ==>
                  after.records[r].id == reg.records[r].id && after.records[r].status == reg.records[r].status
                  && after.records[r].promise ==
                       if r in rs && reg.records[r].promise.Settled? then CallbackRan else reg.records[r].promise)
            && (forall id :: id in after.active <==> id in reg.active && !Clears(reg, rs, id))
  {
    if rs != [] {
      var init, r := rs[..|rs| - 1], rs[|rs| - 1];
      DrainEffect(reg, init);
      assert rs == init + [r];
      var before := Drain(reg, init);
      forall id
        ensures id in Drain(reg, rs).active <==> id in reg.active && !Clears(reg, rs, id)
      {
        ClearsOneMore(reg, init, r, id);
      }
    }
  }

  lemma ClearsOneMore(reg: Registry, rs: seq<nat>, r: nat, id: ExecutionId)
    ensures Clears(reg, rs + [r], id) <==>
      Clears(reg, rs, id) || (r < |reg.records| && reg.records[r].id == id
                              && reg.records[r].promise.Settled? && reg.records[r].status != Waiting)
  {
    assert forall x :: x in rs + [r] <==> x in rs || x == r;
    if r < |reg.records| && reg.records[r].id == id
       && reg.records[r].promise.Settled? && reg.records[r].status != Waiting
    {
      assert r in rs + [r];
    }
  }

  ghost predicate CoversPending(reg: Registry, rs: seq<nat>) {
    forall r :: 0 <= r < |reg.records| && reg.records[r].promise.Settled? ==> r in rs
  }

  /** Cancelling everything empties the registry, once the pending callbacks have run in any
      order, if and only if no registered entry is past its callback without being waiting. */
  lemma {:induction false} CancelAllEmptiesIff(reg: Registry, order: seq<ExecutionId>, rs: seq<nat>)
    requires Valid(reg) && SupersededAreWaiting(reg) && IsKeyOrder(reg, order)
    requires CoversPending(Shutdown(reg, order, true), rs)
    ensures Drain(Shutdown(reg, order, true), rs).active == map[] <==>
      forall id :: id in reg.active ==> Entry(reg, id).status == Waiting || !Entry(reg, id).promise.CallbackRan?
  {
    hide Shutdown, Drain;
    var after := Shutdown(reg, order, true);
    ShutdownEffect(reg, order, true);
    DrainEffect(after, rs);
    forall id | id in after.active
      ensures Clears(after, rs, id) <==> !Entry(reg, id).promise.CallbackRan?
    {
      ClearedUnlessDone(reg, order, after, rs, id);
    }
    if Drain(after, rs).active == map[] {
      forall id | id in reg.active && Entry(reg, id).status != Waiting
        ensures !Entry(reg, id).promise.CallbackRan?
      {
        assert id in after.active && id !in Drain(after, rs).active;
      }
    }
  }

  lemma ClearedUnlessDone(reg: Registry, order: seq<ExecutionId>, after: Registry, rs: seq<nat>, id: ExecutionId)
    requires Valid(reg) && SupersededAreWaiting(reg) && IsKeyOrder(reg, order)
    requires ShutDown(reg, order, true, after) && CoversPending(after, rs) && id in after.active
    ensures Clears(after, rs, id) <==> !Entry(reg, id).promise.CallbackRan?
  {
    var r := reg.active[id];
    assert IsRegistered(reg, r) && id in order && Entry(reg, id).status != Waiting;
    if !Entry(reg, id).promise.CallbackRan? {
      assert after.records[r].promise.Settled? && r in rs;
    }
  }

  /** Without cancelling, exactly the waiting and new entries are dropped; no promise is
      touched and every other entry stays as it is. */
  lemma {:induction false} PlainShutdownDrops(reg: Registry, order: seq<ExecutionId>)
    requires Valid(reg) && IsKeyOrder(reg, order)
    ensures var after := Shutdown(reg, order, false);
            && after.records == reg.records
            && after.active == map id | id in reg.active && Entry(reg, id).status !in {Waiting, New} :: reg.active[id]
  {
    ShutdownEffect(reg, order, false);
  }

  /** A plain shutdown empties the registry once the pending callbacks have run if and only if every
      entry was waiting, new, or about to be removed by one of them. */
  lemma {:induction false} PlainShutdownEmptiesIff(reg: Registry, order: seq<ExecutionId>, rs: seq<nat>)
    requires Valid(reg) && IsKeyOrder(reg, order)
    ensures Drain(Shutdown(reg, order, false), rs).active == map[] <==>
      forall id :: id in reg.active ==> Entry(reg, id).status in {Waiting, New} || Clears(reg, rs, id)
  {
    hide Shutdown, Drain;
    var after := Shutdown(reg, order, false);
    PlainShutdownDrops(reg, order);
    DrainEffect(after, rs);
    assert forall id :: Clears(after, rs, id) <==> Clears(reg, rs, id);
    if Drain(after, rs).active == map[] {
      forall id | id in reg.active && Entry(reg, id).status !in {Waiting, New}
        ensures Clears(reg, rs, id)
      {
        assert id in after.active && id !in Drain(after, rs).active;
      }
    }
  }

  /** Incarnation `x` was left waiting and its callback has run, so it is still registered. */
  predicate LeftWaiting(reg: Registry, x: nat) {
    IsRegistered(reg, x) && reg.records[x].status == Waiting && reg.records[x].promise.CallbackRan?
  }

  /** Nobody stops the execution, changes its status or takes it over. */
  predicate KeepsWaiting(reg: Registry, step: Step, id: ExecutionId) {
    match step
    case StopStep(stopped) => stopped != id
    case StatusStep(changed, _) => changed != id
    case FinishStep(c, _) => c < |reg.calls| && reg.calls[c].id != id
    case _ => true
  }

  ghost predicate IsKeptWaiting(reg: Registry, id: ExecutionId, states: seq<Registry>, steps: seq<Step>) {
    IsRun(states, steps) && states[0] == reg && forall n | 0 <= n < |steps| :: KeepsWaiting(states[n], steps[n], id)
  }

  /** No other incarnation of the id has a callback to come that removes the entry. */
  ghost predicate NoCallbackToCome(reg: Registry, x: nat)
    requires x < |reg.records|
  {
    forall r :: 0 <= r < |reg.records| && r != x && reg.records[r].id == reg.records[x].id ==>
      (reg.records[r].promise.Settled? ==> reg.records[r].status == Waiting)
  }

  lemma StepKeepsLeftWaiting(reg: Registry, step: Step, x: nat)
    requires Enabled(reg, step) && Valid(reg) && LeftWaiting(reg, x) && NoCallbackToCome(reg, x)
    requires KeepsWaiting(reg, step, reg.records[x].id)
    ensures Valid(Next(reg, step)) && LeftWaiting(Next(reg, step), x) && NoCallbackToCome(Next(reg, step), x)
    ensures Next(reg, step).records[x].id == reg.records[x].id
  {
    hide Next;
    StaysRegistered(reg, step, x);
    RecordAfter(reg, step, x);
    var next := Next(reg, step);
    forall r | 0 <= r < |next.records| && r != x && next.records[r].id == next.records[x].id
      ensures next.records[r].promise.Settled? ==> next.records[r].status == Waiting
    {
      if r < |reg.records| { RecordAfter(reg, step, r); } else { NewRecord(reg, step, r); }
    }
  }

  lemma {:induction false} LeftWaitingStays(reg: Registry, x: nat, states: seq<Registry>, steps: seq<Step>)
    requires Valid(reg) && LeftWaiting(reg, x) && NoCallbackToCome(reg, x)
    requires IsKeptWaiting(reg, reg.records[x].id, states, steps)
    ensures var last := states[|steps|];
            Valid(last) && LeftWaiting(last, x) && NoCallbackToCome(last, x) && last.records[x].id == reg.records[x].id
  {
    if steps != [] {
      var n := |steps| - 1;
      assert IsKeptWaiting(reg, reg.records[x].id, states[..n + 1], steps[..n]);
      LeftWaitingStays(reg, x, states[..n + 1], steps[..n]);
      assert states[n + 1] == Next(states[n], steps[n]);
      StepKeepsLeftWaiting(states[n], steps[n], x);
    }
  }

  /** The id is still registered after every continuation that does not touch the execution. */
  ghost predicate KeepsShutdownWaiting(reg: Registry, id: ExecutionId) {
    forall states: seq<Registry>, steps | IsKeptWaiting(reg, id, states, steps) :: id in states[|steps|].active
  }

  /** An execution left waiting keeps the registry from becoming empty, however long a shutdown waits,
      if and only if no other incarnation of its id has a removing callback to come. */
  lemma LeftWaitingBlocksIff(reg: Registry, x: nat)
    requires Valid(reg) && LeftWaiting(reg, x)
    ensures KeepsShutdownWaiting(reg, reg.records[x].id) <==> NoCallbackToCome(reg, x)
  {
    var id := reg.records[x].id;
    if NoCallbackToCome(reg, x) {
      forall states: seq<Registry>, steps | IsKeptWaiting(reg, id, states, steps)
        ensures id in states[|steps|].active
      {
        LeftWaitingStays(reg, x, states, steps);
      }
    } else {
      var r :| 0 <= r < |reg.records| && r != x && reg.records[r].id == id
            && reg.records[r].promise.Settled? && reg.records[r].status != Waiting;
      var next := Next(reg, CallbackStep(r));
      assert IsKeptWaiting(reg, id, [reg, next], [CallbackStep(r)]);
      assert id !in [reg, next][|[CallbackStep(r)]|].active;
    }
  }

  /** A running execution that starts to wait during a plain shutdown: its run sets the status and
      returns, its callback keeps the entry, and the wait goes on for good. */
  lemma {:induction false} TurningWaitingBlocks(reg: Registry, order: seq<ExecutionId>, x: nat, last: bool)
    requires Valid(reg) && IsKeyOrder(reg, order) && IsRegistered(reg, x) && reg.records[x].status == Running
    requires reg.records[x].promise.Unsettled? && !reg.records[x].ended && NoCallbackToCome(reg, x)
    ensures var id, after := reg.records[x].id, Shutdown(reg, order, false);
            && Enabled(after, StatusStep(id, Waiting))
            && var waiting := Next(after, StatusStep(id, Waiting));
            && Enabled(waiting, FinalizeStep(x, last))
            && var returned := Next(waiting, FinalizeStep(x, last));
            && Enabled(returned, CallbackStep(x))
            && KeepsShutdownWaiting(Next(returned, CallbackStep(x)), id)
  {
    hide Shutdown;
    PlainShutdownDrops(reg, order);
    var id, after := reg.records[x].id, Shutdown(reg, order, false);
    var waiting := Next(after, StatusStep(id, Waiting));
    var returned := Next(waiting, FinalizeStep(x, last));
    var kept := Next(returned, CallbackStep(x));
    assert Valid(after) && IsRegistered(after, x);
    assert LeftWaiting(kept, x) && NoCallbackToCome(kept, x);
    LeftWaitingBlocksIff(kept, x);
  }

  /** The polling loop at the end of `shutdown`: the registry takes `steps` and goes through `states`,
      and poll `k` sees the state numbered `at[k]`. It ends exactly when it first sees no entries,
      which never happens while an execution that is left waiting is kept so. */
  method WaitUntilEmpty(states: seq<Registry>, ghost steps: seq<Step>, at: seq<nat>) returns (polls: nat, ended: bool)
    requires IsRun(states, steps) && forall k | 0 <= k < |at| :: at[k] < |states|
    ensures polls <= |at| && (forall k | 0 <= k < polls :: states[at[k]].active != map[])
    ensures ended <==> exists k :: 0 <= k < |at| && states[at[k]].active == map[]
    ensures ended ==> polls < |at| && states[at[polls]].active == map[]
    ensures forall x | 0 <= x < |states[0].records| && BlocksShutdown(states[0], x)
                    && IsKeptWaiting(states[0], states[0].records[x].id, states, steps) :: !ended
  {
    polls := 0;
    while polls < |at| && |states[at[polls]].active| != 0
      invariant polls <= |at| && forall k | 0 <= k < polls :: states[at[k]].active != map[]
    {
      polls := polls + 1;
    }
    ended := polls < |at|;
    if ended {
      forall x | 0 <= x < |states[0].records| && BlocksShutdown(states[0], x)
                 && IsKeptWaiting(states[0], states[0].records[x].id, states, steps)
        ensures false
      {
        KeptThroughout(states, steps, x, at[polls]);
      }
    }
  }

  /** Left waiting, with no other incarnation that would remove the entry. */
  ghost predicate BlocksShutdown(reg: Registry, x: nat)
    requires x < |reg.records|
  {
    Valid(reg) && LeftWaiting(reg, x) && NoCallbackToCome(reg, x)
  }

  lemma KeptThroughout(states: seq<Registry>, steps: seq<Step>, x: nat, k: nat)
    requires |states| > 0 && x < |states[0].records| && BlocksShutdown(states[0], x) && k < |states|
    requires IsKeptWaiting(states[0], states[0].records[x].id, states, steps)
    ensures states[0].records[x].id in states[k].active
  {
    assert IsKeptWaiting(states[0], states[0].records[x].id, states[..k + 1], steps[..k]);
    LeftWaitingStays(states[0], x, states[..k + 1], steps[..k]);
  }

  // ---- The service -----------------------------------------------------------

  /** The registry with its fields updated in place. `add` is cut at its await points into
      `BeginAdd`, `Reserve` and `FailAdd` or `FinishAdd`. */
  class ActiveExecutions {
    var records: seq<Record>
    var activeExecutions: map<ExecutionId, nat>
    var responseModes: set<ExecutionId>
    var calls: seq<AddCall>
    var outstanding: int

    ghost function Model(): Registry
      reads this
    {
      Registry(records, activeExecutions, responseModes, calls, outstanding)
    }

    constructor ()
      ensures Model() == EMPTY
    {
      records, activeExecutions, responseModes, calls, outstanding := [], map[], {}, [], 0;
    }

    method BeginAdd(id: ExecutionId, evaluation: bool) returns (c: nat)
      modifies this
      ensures Model() == Next(old(Model()), BeginStep(id, evaluation)) && InPhase(Model(), c, Begun)
      ensures c == |old(calls)| && calls == old(calls) + [AddCall(id, evaluation, Begun)]
      ensures records == old(records) && activeExecutions == old(activeExecutions) && outstanding == old(outstanding)
    {
      c := |calls|;
      calls := calls + [AddCall(id, evaluation, Begun)];
    }

    method Reserve(c: nat)
      requires InPhase(Model(), c, Begun)
      modifies this
      ensures Model() == Next(old(Model()), ReserveStep(c)) && InPhase(Model(), c, Reserved)
      ensures calls == old(calls)[c := AddCall(old(calls[c].id), old(calls[c].evaluation), Reserved)]
      ensures outstanding == old(outstanding) + if old(calls[c].evaluation) then 0 else 1
    {
      if !calls[c].evaluation {
        outstanding := outstanding + 1;
      }
      calls := calls[c := calls[c].(phase := Reserved)];
    }

    method FailAdd(c: nat)
      requires Enabled(Model(), FailStep(c))
      modifies this
      ensures Model() == Next(old(Model()), FailStep(c))
      ensures calls == old(calls)[c := AddCall(old(calls[c].id), old(calls[c].evaluation), Closed)]
      ensures records == old(records) && activeExecutions == old(activeExecutions)
    {
      if calls[c].phase.Reserved? && !calls[c].evaluation {
        outstanding := outstanding - 1;
      }
      calls := calls[c := calls[c].(phase := Closed)];
    }

    method FinishAdd(c: nat, now: int)
      requires Valid(Model()) && InPhase(Model(), c, Reserved)
      modifies this
      ensures Valid(Model()) && Model() == Next(old(Model()), FinishStep(c, now))
      ensures old(calls[c].id) in activeExecutions && activeExecutions[old(calls[c].id)] == |old(records)|
      ensures forall id :: id != old(calls[c].id) ==>
                (id in activeExecutions <==> id in old(activeExecutions))
                && (id in activeExecutions ==> activeExecutions[id] == old(activeExecutions)[id])
      ensures |records| == |old(records)| + 1 && records[..|old(records)|] == old(records)
      ensures var call, was, rec := old(calls[c]), old(activeExecutions), records[|old(records)|];
              && rec.id == call.id && rec.evaluation == call.evaluation
              && rec.status == Running && rec.promise == Unsettled && !rec.attached && !rec.ended
              && rec.startedAt == (if call.id in was then old(records)[was[call.id]].startedAt else now)
              && rec.response == (if call.id in was then old(records)[was[call.id]].response else None)
    {
      var id := calls[c].id;
      var startedAt, response := now, None;
      if id in activeExecutions {
        var resuming := records[activeExecutions[id]];
        startedAt, response := resuming.startedAt, resuming.response;
      }
      activeExecutions := activeExecutions[id := |records|];
      records := records + [Record(id, startedAt, Running, Unsettled, calls[c].evaluation, response, false, false)];
      calls := calls[c := calls[c].(phase := Closed)];
    }

    /** Throws, that is returns false, for an id that is not registered. */
    method SetStatus(id: ExecutionId, status: Status) returns (found: bool)
      requires Valid(Model())
      modifies this`records
      ensures found <==> id in activeExecutions
      ensures Valid(Model()) && Model() == Next(old(Model()), StatusStep(id, status))
      ensures found ==> records == old(records)[activeExecutions[id] := records[activeExecutions[id]]]
      ensures found ==> records[activeExecutions[id]] == old(records[activeExecutions[id]]).(status := status)
      ensures !found ==> records == old(records)
    {
      found := id in activeExecutions;
      if found {
        var r := activeExecutions[id];
        records := records[r := records[r].(status := status)];
      }
    }

    method AttachWorkflowExecution(id: ExecutionId) returns (found: bool)
      requires Valid(Model())
      modifies this`records
      ensures found <==> id in activeExecutions
      ensures Valid(Model()) && Model() == Next(old(Model()), AttachStep(id))
      ensures found ==> records[activeExecutions[id]] == old(records[activeExecutions[id]]).(attached := true)
    {
      found := id in activeExecutions;
      if found {
        var r := activeExecutions[id];
        records := records[r := records[r].(attached := true)];
      }
    }

    method SetResponseMode(id: ExecutionId)
      modifies this`responseModes
      ensures Model() == Next(old(Model()), ResponseModeStep(id)) && responseModes == old(responseModes) + {id}
    {
      responseModes := responseModes + {id};
    }

    method StopExecution(id: ExecutionId)
      requires Valid(Model())
      modifies this
      ensures Valid(Model()) && Model() == Next(old(Model()), StopStep(id))
      ensures id !in old(activeExecutions) ==> Model() == old(Model())
      ensures id in old(activeExecutions) && old(records[activeExecutions[id]]).status == Waiting ==>
                records == old(records) && activeExecutions == old(activeExecutions) - {id}
                && responseModes == old(responseModes) - {id}
      ensures id in old(activeExecutions) && old(records[activeExecutions[id]]).status != Waiting ==>
                activeExecutions == old(activeExecutions) && responseModes == old(responseModes)
                && !records[activeExecutions[id]].promise.Unsettled?
    {
      if id !in activeExecutions {
        return;
      }
      var r := activeExecutions[id];
      if records[r].status == Waiting {
        activeExecutions := activeExecutions - {id};
        responseModes := responseModes - {id};
      } else if records[r].promise.Unsettled? {
        records := records[r := records[r].(promise := Settled)];
      }
    }

    method FinalizeExecution(id: ExecutionId)
      requires Valid(Model())
      modifies this`records
      ensures Valid(Model()) && Model() == Finalize(old(Model()), id)
      ensures id in activeExecutions ==> !records[activeExecutions[id]].promise.Unsettled?
    {
      if id in activeExecutions {
        var r := activeExecutions[id];
        if records[r].promise.Unsettled? {
          records := records[r := records[r].(promise := Settled)];
        }
      }
    }

    /** Where a run calls `finalizeExecution`: it knows its execution id, not its incarnation. */
    method RunReturns(r: nat, last: bool)
      requires Valid(Model()) && Enabled(Model(), FinalizeStep(r, last))
      modifies this`records
      ensures Valid(Model()) && Model() == Next(old(Model()), FinalizeStep(r, last))
      ensures records[r].ended == last
      ensures records[r].id in activeExecutions ==> !records[activeExecutions[records[r].id]].promise.Unsettled?
    {
      FinalizeExecution(records[r].id);
      if last {
        records := records[r := records[r].(ended := true)];
      }
    }

    method RunCallback(r: nat)
      requires Valid(Model()) && Enabled(Model(), CallbackStep(r))
      modifies this
      ensures Valid(Model()) && Model() == Next(old(Model()), CallbackStep(r))
      ensures outstanding == old(outstanding) - if old(records[r].evaluation) then 0 else 1
      ensures old(records[r].status) == Waiting ==>
                activeExecutions == old(activeExecutions) && responseModes == old(responseModes)
                && records == old(records)[r := old(records[r]).(promise := CallbackRan, attached := false)]
      ensures old(records[r].status) != Waiting ==>
                activeExecutions == old(activeExecutions) - {old(records[r].id)}
                && responseModes == old(responseModes) - {old(records[r].id)}
                && records == old(records)[r := old(records[r]).(promise := CallbackRan)]
    {
      var rec := records[r];
      if !rec.evaluation {
        outstanding := outstanding - 1;
      }
      if rec.status == Waiting {
        records := records[r := rec.(promise := CallbackRan, attached := false)];
      } else {
        records := records[r := rec.(promise := CallbackRan)];
        activeExecutions := activeExecutions - {rec.id};
        responseModes := responseModes - {rec.id};
      }
    }

    /** The synchronous part of `shutdown`, over the ids in the order they are enumerated. */
    method ShutDownEntries(order: seq<ExecutionId>, isRegularMode: bool, cancelAll: bool)
      requires Valid(Model()) && IsKeyOrder(Model(), order)
      modifies this
      ensures Valid(Model()) && Model() == Shutdown(old(Model()), order, isRegularMode && cancelAll)
    {
      ghost var before := Model();
      for i := 0 to |order|
        invariant Valid(Model()) && Model() == Shutdown(before, order[..i], isRegularMode && cancelAll)
      {
        assert order[..i + 1][..i] == order[..i];
        var id := order[i];
        if isRegularMode && cancelAll {
          StopExecution(id);
        } else if id in activeExecutions && records[activeExecutions[id]].status in {Waiting, New} {
          activeExecutions := activeExecutions - {id};
        }
      }
      assert order[..|order|] == order;
    }
  }
}
