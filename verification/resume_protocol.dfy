/** The wait/resume protocol: several children of one waiting parent finish concurrently;
    each patches the parent's row, loads it and tries to claim it by a compare-and-swap. */
module ResumeProtocol {
  import opened Common
  import opened ChildResults

  const MAX_PARENT_RESUME_ATTEMPTS: nat := 3

  datatype Status = New | Running | Waiting | Succeeded | Failed | Canceled
  datatype Row = Row(status: Status, finished: bool, data: ExecutionData)

  datatype End = Silent | Lost | Resumed | GaveUp

  datatype Pc =
    | AwaitChild
    | PatchRead(attempt: nat)
    | PatchWrite(attempt: nat, data: ExecutionData)
    | Load(attempt: nat)
    | Claim(attempt: nat, data: ExecutionData)
    | Started(attempt: nat, data: ExecutionData)
    | Done(end: End)

  /** One resume in progress. `child` is the finished execution it acts for; a timer, a
      webhook or a chat message resumes without one, does not patch and does not retry. */
  datatype Agent = Agent(target: ExecutionId, child: Option<ExecutionId>, report: Report, pc: Pc)

  /** The database rows, all resumes ever begun, and per execution how often its row entered
      `waiting`, was claimed, and had the resume of its own parent scheduled. */
  datatype State = State(
    rows: map<ExecutionId, Row>,
    agents: seq<Agent>,
    entered: map<ExecutionId, nat>,
    claims: map<ExecutionId, nat>,
    scheduled: map<ExecutionId, nat>)

  datatype Step =
    /** Any process writes a row it runs, or cancels it. */
    | SetRow(id: ExecutionId, row: Row)
    | StartDirectly(id: ExecutionId)
    /** The child's post-execute promise settles, with nothing or `waiting`, or with a result. */
    | Settle(i: nat, outcome: Option<Report>)
    | ReadPatch(i: nat)
    | WritePatch(i: nat)
    | LoadRow(i: nat)
    | ClaimRow(i: nat)
    | FinishRun(i: nat)
    /** The current step of an agent throws: before it took effect, or after. */
    | Fail(i: nat, retryable: bool)
    | WritePatchThenFail(i: nat, retryable: bool)
    | ClaimRowThenFail(i: nat, retryable: bool)

  function Count(m: map<ExecutionId, nat>, id: ExecutionId): nat {
    if id in m then m[id] else 0
  }

  function Bump(m: map<ExecutionId, nat>, id: ExecutionId): map<ExecutionId, nat> {
    m[id := Count(m, id) + 1]
  }

  predicate IsWaiting(s: State, id: ExecutionId) {
    id in s.rows && s.rows[id].status == Waiting
  }

  function At(s: State, i: nat, pc: Pc): State
    requires i < |s.agents|
  {
    s.(agents := s.agents[i := s.agents[i].(pc := pc)])
  }

  function MaxAttempts(a: Agent): nat {
    if a.child.Some? then MAX_PARENT_RESUME_ATTEMPTS else 1
  }

  /** Where `withRetry` sends an agent whose current step threw. */
  function AfterFailure(a: Agent, retryable: bool): Pc {
    match a.pc
    case PatchRead(n) => if retryable && n < MaxAttempts(a) then PatchRead(n + 1) else Done(GaveUp)
    case PatchWrite(n, _) => if retryable && n < MaxAttempts(a) then PatchRead(n + 1) else Done(GaveUp)
    case Load(n) => if retryable && n < MaxAttempts(a) then Load(n + 1) else Done(GaveUp)
    case Claim(n, _) => if retryable && n < MaxAttempts(a) then Load(n + 1) else Done(GaveUp)
    case Started(n, _) => if retryable && n < MaxAttempts(a) then Load(n + 1) else Done(GaveUp)
    case AwaitChild => Done(GaveUp)
    case Done(e) => Done(e)
  }

  /** The agent a step belongs to has reached the point the step starts from. */
  predicate Enabled(s: State, step: Step) {
    match step
    case SetRow(id, row) => !(IsWaiting(s, id) && row.status == Waiting)
    case StartDirectly(_) => true
    case Settle(i, _) => i < |s.agents| && s.agents[i].pc.AwaitChild?
    case ReadPatch(i) => i < |s.agents| && s.agents[i].pc.PatchRead?
    case WritePatch(i) => i < |s.agents| && s.agents[i].pc.PatchWrite?
    case LoadRow(i) => i < |s.agents| && s.agents[i].pc.Load?
    case ClaimRow(i) => i < |s.agents| && s.agents[i].pc.Claim?
    case FinishRun(i) => i < |s.agents| && s.agents[i].pc.Started?
    case Fail(i, _) => i < |s.agents| && !s.agents[i].pc.Done?
    case WritePatchThenFail(i, _) => i < |s.agents| && s.agents[i].pc.PatchWrite?
    case ClaimRowThenFail(i, _) => i < |s.agents| && s.agents[i].pc.Claim? && IsWaiting(s, s.agents[i].target)
  }

  function DoSetRow(s: State, id: ExecutionId, row: Row): State {
    s.(rows := s.rows[id := row],
       entered := if row.status == Waiting && !IsWaiting(s, id) then Bump(s.entered, id) else s.entered)
  }

  /** Reads the parent and prepares the patched data; anything but a waiting parent with a
      non-empty stack is left alone. */
  function DoReadPatch(s: State, i: nat): State
    requires i < |s.agents| && s.agents[i].pc.PatchRead?
  {
    var a := s.agents[i];
    if a.report.Nothing? || a.child.None? || !IsWaiting(s, a.target) || |s.rows[a.target].data.stack| == 0
    then At(s, i, Load(1))
    else At(s, i, PatchWrite(a.pc.attempt, Patch(s.rows[a.target].data, a.report, a.child.value)))
  }

  /** The patched data is written whatever the row has become in the meantime. */
  function WriteData(s: State, id: ExecutionId, data: ExecutionData): State {
    if id in s.rows then s.(rows := s.rows[id := s.rows[id].(data := data)]) else s
  }

  function DoLoadRow(s: State, i: nat): State
    requires i < |s.agents| && s.agents[i].pc.Load?
  {
    var a := s.agents[i];
    if a.target !in s.rows || s.rows[a.target].finished then At(s, i, Done(GaveUp))
    else At(s, i, Claim(a.pc.attempt, s.rows[a.target].data))
  }

  /** The compare-and-swap on the row status, which also stores the loaded data. */
  function TakeOver(s: State, id: ExecutionId, data: ExecutionData): State
    requires IsWaiting(s, id)
  {
    s.(rows := s.rows[id := s.rows[id].(status := Running, data := data)], claims := Bump(s.claims, id))
  }

  function DoClaimRow(s: State, i: nat): State
    requires i < |s.agents| && s.agents[i].pc.Claim?
  {
    var a := s.agents[i];
    if IsWaiting(s, a.target)
    then At(TakeOver(s, a.target, a.pc.data), i, Started(a.pc.attempt, a.pc.data))
    else At(s, i, Done(Lost))
  }

  /** `run` returned: the resume of the claimed execution's own parent is scheduled. */
  function DoFinishRun(s: State, i: nat): State
    requires i < |s.agents| && s.agents[i].pc.Started?
  {
    var a := s.agents[i];
    var parent := a.pc.data.parent;
    var s' := At(s, i, Done(Resumed));
    if ShouldRestart(parent) then
      s'.(agents := s'.agents + [Agent(parent.value.executionId, Some(a.target), Nothing, AwaitChild)],
          scheduled := Bump(s'.scheduled, a.target))
    else s'
  }

  function Next(s: State, step: Step): State
    requires Enabled(s, step)
  {
    match step
    case SetRow(id, row) => DoSetRow(s, id, row)
    case StartDirectly(id) => s.(agents := s.agents + [Agent(id, None, Nothing, Load(1))])
    case Settle(i, None) => At(s, i, Done(Silent))
    case Settle(i, Some(report)) => s.(agents := s.agents[i := s.agents[i].(report := report, pc := PatchRead(1))])
    case ReadPatch(i) => DoReadPatch(s, i)
    case WritePatch(i) => At(WriteData(s, s.agents[i].target, s.agents[i].pc.data), i, Load(1))
    case LoadRow(i) => DoLoadRow(s, i)
    case ClaimRow(i) => DoClaimRow(s, i)
    case FinishRun(i) => DoFinishRun(s, i)
    case Fail(i, retryable) => At(s, i, AfterFailure(s.agents[i], retryable))
    case WritePatchThenFail(i, retryable) =>
      At(WriteData(s, s.agents[i].target, s.agents[i].pc.data), i, AfterFailure(s.agents[i], retryable))
    case ClaimRowThenFail(i, retryable) =>
      At(TakeOver(s, s.agents[i].target, s.agents[i].pc.data), i, AfterFailure(s.agents[i], retryable))
  }

  /** `states` is a run taking `steps`. */
  ghost predicate IsRun(states: seq<State>, steps: seq<Step>) {
    && |states| == |steps| + 1
    && forall n | 0 <= n < |steps| :: Enabled(states[n], steps[n]) && states[n + 1] == Next(states[n], steps[n])
  }

  const INITIAL := State(map[], [], map[], map[], map[])

  // ---- Claims never exceed waits, scheduled resumes never exceed claims ------

  /** Agents that have claimed `id` and not yet returned from `run`. */
  function InRun(agents: seq<Agent>, id: ExecutionId): nat {
    CountIf(agents, (a: Agent) => a.target == id && a.pc.Started?)
  }

  lemma InRunUpdate(agents: seq<Agent>, i: nat, a: Agent, id: ExecutionId)
    requires i < |agents|
    ensures InRun(agents[i := a], id) == InRun(agents, id)
      - (if agents[i].target == id && agents[i].pc.Started? then 1 else 0)
      + (if a.target == id && a.pc.Started? then 1 else 0)
  {
    CountIfUpdate(agents, i, a, (a: Agent) => a.target == id && a.pc.Started?);
  }

  lemma InRunAppend(agents: seq<Agent>, a: Agent, id: ExecutionId)
    ensures InRun(agents + [a], id) == InRun(agents, id) + if a.target == id && a.pc.Started? then 1 else 0
  {
    CountIfAppend(agents, a, (a: Agent) => a.target == id && a.pc.Started?);
  }

  ghost predicate Accounted(s: State, id: ExecutionId) {
    && Count(s.claims, id) + (if IsWaiting(s, id) then 1 else 0) <= Count(s.entered, id)
    && Count(s.scheduled, id) + InRun(s.agents, id) <= Count(s.claims, id)
  }

  lemma StepKeepsClaims(s: State, step: Step, id: ExecutionId)
    requires Enabled(s, step)
    requires Count(s.claims, id) + (if IsWaiting(s, id) then 1 else 0) <= Count(s.entered, id)
    ensures Count(Next(s, step).claims, id) + (if IsWaiting(Next(s, step), id) then 1 else 0)
         <= Count(Next(s, step).entered, id)
  {
    hide Patch, ShouldRestart, AfterFailure;
    if step.SetRow? || step.StartDirectly? || step.Settle? {
    } else if step.ClaimRow? || step.ClaimRowThenFail? {
    } else {
    }
  }

  /** The same resume later: whom it is for never changes, nor does a report once made. */
  predicate SameResume(a: Agent, b: Agent) {
    && a.target == b.target && a.child == b.child
    && (!a.pc.AwaitChild? ==> a.report == b.report && !b.pc.AwaitChild?)
  }

  /** From `before` to `after` the agent `i` used up some of its work, and possibly another
      resume was scheduled. */
  predicate OneWentOn(before: seq<Agent>, after: seq<Agent>, i: nat, schedules: bool)
    requires i < |before|
  {
    && |after| >= |before| && after[..|before|] == before[i := after[i]]
    && SameResume(before[i], after[i]) && Work(after[i].pc) < Work(before[i].pc)
    && (|after| == |before| || (schedules && |after| == |before| + 1 && after[|before|].pc.AwaitChild?))
  }

  /** The agents after a step: one changed, possibly one more. */
  lemma AgentsAfter(s: State, step: Step)
    requires Enabled(s, step) && !step.SetRow? && !step.StartDirectly?
    ensures OneWentOn(s.agents, Next(s, step).agents, step.i, step.FinishRun?)
  {
    hide Next, Enabled, OneWentOn;
    if step.Settle? || step.ReadPatch? || step.WritePatch? {
      PatchStepGoesOn(s, step);
    } else if step.LoadRow? || step.ClaimRow? {
      ClaimStepGoesOn(s, step);
    } else if step.FinishRun? {
      FinishGoesOn(s, step.i);
    } else {
      FailureGoesOn(s, step);
    }
  }

  lemma PcGoesOn(agents: seq<Agent>, i: nat, pc: Pc)
    requires i < |agents| && Work(pc) < Work(agents[i].pc) && !pc.AwaitChild?
    ensures OneWentOn(agents, agents[i := agents[i].(pc := pc)], i, false)
  {}

  lemma PatchStepGoesOn(s: State, step: Step)
    requires Enabled(s, step) && (step.Settle? || step.ReadPatch? || step.WritePatch?)
    ensures OneWentOn(s.agents, Next(s, step).agents, step.i, false)
  {
    hide Patch, IsWaiting;
    if !step.Settle? || step.outcome.None? {
      hide OneWentOn;
      PcGoesOn(s.agents, step.i, Next(s, step).agents[step.i].pc);
    }
  }

  lemma ClaimStepGoesOn(s: State, step: Step)
    requires Enabled(s, step) && (step.LoadRow? || step.ClaimRow?)
    ensures OneWentOn(s.agents, Next(s, step).agents, step.i, false)
  {
    hide IsWaiting, OneWentOn;
    PcGoesOn(s.agents, step.i, Next(s, step).agents[step.i].pc);
  }

  lemma FinishGoesOn(s: State, i: nat)
    requires Enabled(s, FinishRun(i))
    ensures OneWentOn(s.agents, Next(s, FinishRun(i)).agents, i, true)
  {
    hide ShouldRestart;
  }

  lemma FailureGoesOn(s: State, step: Step)
    requires Enabled(s, step) && (step.Fail? || step.WritePatchThenFail? || step.ClaimRowThenFail?)
    ensures OneWentOn(s.agents, Next(s, step).agents, step.i, false)
  {
    hide AfterFailure, Work, OneWentOn;
    FailureUsesWork(s.agents[step.i], step.retryable);
    PcGoesOn(s.agents, step.i, AfterFailure(s.agents[step.i], step.retryable));
  }

  lemma InRunStep(s: State, step: Step, id: ExecutionId)
    requires Enabled(s, step) && !step.SetRow? && !step.StartDirectly?
    ensures var agents := Next(s, step).agents;
            && step.i < |agents| && agents[step.i].target == s.agents[step.i].target
            && InRun(agents, id) == InRun(s.agents, id)
                 - (if s.agents[step.i].target == id && s.agents[step.i].pc.Started? then 1 else 0)
                 + (if agents[step.i].target == id && agents[step.i].pc.Started? then 1 else 0)
  {
    hide InRun, Next;
    AgentsAfter(s, step);
    var agents := Next(s, step).agents;
    InRunUpdate(s.agents, step.i, agents[step.i], id);
    if |agents| > |s.agents| {
      assert agents == agents[..|s.agents|] + [agents[|s.agents|]];
      InRunAppend(agents[..|s.agents|], agents[|s.agents|], id);
    } else {
      assert agents[..|s.agents|] == agents;
    }
  }

  lemma StepKeepsScheduled(s: State, step: Step, id: ExecutionId)
    requires Enabled(s, step)
    requires Count(s.scheduled, id) + InRun(s.agents, id) <= Count(s.claims, id)
    ensures Count(Next(s, step).scheduled, id) + InRun(Next(s, step).agents, id) <= Count(Next(s, step).claims, id)
  {
    hide InRun, AfterFailure, Patch, ShouldRestart, OneWentOn;
    if step.StartDirectly? {
      InRunAppend(s.agents, Agent(step.id, None, Nothing, Load(1)), id);
    } else if !step.SetRow? {
      InRunStep(s, step, id);
      if !s.agents[step.i].pc.Done? {
        FailureUsesWork(s.agents[step.i], true);
        FailureUsesWork(s.agents[step.i], false);
      }
    }
  }

  /** In every run of any number of resumes, retries included: successful claims never exceed
      the number of times the row entered `waiting`, and the ancestor resumes scheduled never
      exceed the claims. */
  lemma {:induction false} ClaimsNeverExceedWaits(states: seq<State>, steps: seq<Step>, id: ExecutionId)
    requires IsRun(states, steps) && states[0] == INITIAL
    ensures var s := states[|steps|];
            Count(s.scheduled, id) <= Count(s.claims, id) <= Count(s.entered, id)
    ensures Accounted(states[|steps|], id)
  {
    if steps != [] {
      var n := |steps| - 1;
      assert IsRun(states[..n + 1], steps[..n]);
      ClaimsNeverExceedWaits(states[..n + 1], steps[..n], id);
      assert states[n + 1] == Next(states[n], steps[n]);
      StepKeepsClaims(states[n], steps[n], id);
      StepKeepsScheduled(states[n], steps[n], id);
    }
  }

  // ---- Losers are silent and agents stop -----------------------------------

  /** A losing claim touches nothing but its own agent. */
  lemma LosingClaimIsSilent(s: State, i: nat)
    requires Enabled(s, ClaimRow(i)) && !IsWaiting(s, s.agents[i].target)
    ensures Next(s, ClaimRow(i)) == At(s, i, Done(Lost))
  {}

  /** A child that settles without a result, or still waiting, ends its resume: over any run it does
      nothing to its parent. */
  lemma {:induction false} SilentNeverResumes(states: seq<State>, steps: seq<Step>, i: nat)
    requires IsRun(states, steps) && |steps| > 0 && steps[0] == Settle(i, None)
    ensures i < |states[|steps|].agents| && states[|steps|].agents[i].pc == Done(Silent)
    ensures forall n | 0 < n < |steps| :: !Owns(steps[n], i)
    ensures states[1].rows == states[0].rows && states[1].agents[..i] == states[0].agents[..i]
  {
    var n := |steps| - 1;
    assert states[n + 1] == Next(states[n], steps[n]);
    if n > 0 {
      assert IsRun(states[..n + 1], steps[..n]);
      SilentNeverResumes(states[..n + 1], steps[..n], i);
      EveryResumeEnds(states[n], steps[n], i);
    }
  }

  /** While its row is missing or finished, a resume that has yet to load it never gets to run. */
  lemma {:induction false} FinishedIsNeverResumed(states: seq<State>, steps: seq<Step>, i: nat)
    requires IsRun(states, steps) && i < |states[0].agents| && states[0].agents[i].pc.Load?
    requires forall n | 0 <= n <= |steps| ::
               states[0].agents[i].target in states[n].rows ==> states[n].rows[states[0].agents[i].target].finished
    ensures i < |states[|steps|].agents| && states[|steps|].agents[i].target == states[0].agents[i].target
    ensures var pc := states[|steps|].agents[i].pc; pc.Load? || pc == Done(GaveUp)
  {
    if steps != [] {
      var n := |steps| - 1;
      assert IsRun(states[..n + 1], steps[..n]);
      FinishedIsNeverResumed(states[..n + 1], steps[..n], i);
      assert states[n + 1] == Next(states[n], steps[n]);
      EveryResumeEnds(states[n], steps[n], i);
      KeepsItsReport(states[n], steps[n], i);
    }
  }

  /** `run` returned: exactly if the claimed execution has a parent whose `shouldResume` is not false,
      a resume of that parent is scheduled, to act once this execution completes. */
  lemma FinishSchedulesIff(s: State, i: nat)
    requires Enabled(s, FinishRun(i))
    ensures var a, s' := s.agents[i], Next(s, FinishRun(i));
            match a.pc.data.parent
            case Some(Related(parent, resume)) =>
              if resume == Some(false) then s' == At(s, i, Done(Resumed))
              else && s'.agents == At(s, i, Done(Resumed)).agents + [Agent(parent, Some(a.target), Nothing, AwaitChild)]
                   && Count(s'.scheduled, a.target) == Count(s.scheduled, a.target) + 1
                   && s'.rows == s.rows && s'.claims == s.claims
            case None => s' == At(s, i, Done(Resumed))
  {}

  /** The step completes a run of `id`, or throws after the claim took effect. */
  predicate CompletesRun(s: State, step: Step, id: ExecutionId) {
    step.FinishRun? && step.i < |s.agents| && s.agents[step.i].target == id
  }

  predicate BreaksOffRun(s: State, step: Step, id: ExecutionId) {
    && (step.ClaimRowThenFail? || (step.Fail? && step.i < |s.agents| && s.agents[step.i].pc.Started?))
    && step.i < |s.agents| && s.agents[step.i].target == id
  }

  predicate SchedulesParent(s: State, step: Step, id: ExecutionId) {
    && CompletesRun(s, step, id) && s.agents[step.i].pc.Started?
    && var parent := s.agents[step.i].pc.data.parent;
       parent.Some? && parent.value.shouldResume != Some(false)
  }

  /** How many steps of the run satisfy `p` in the state they are taken from. */
  function Happened(states: seq<State>, steps: seq<Step>, p: (State, Step) -> bool): nat
    requires |states| == |steps| + 1
  {
    if steps == [] then 0
    else
      var n := |steps| - 1;
      Happened(states[..n + 1], steps[..n], p) + if p(states[n], steps[n]) then 1 else 0
  }

  /** In every run each claim is accounted for: it is still running, was completed or broken off; and
      an ancestor's resume was scheduled exactly for each completed run that asks for it. */
  lemma {:induction false} EveryClaimIsAccountedFor(states: seq<State>, steps: seq<Step>, id: ExecutionId)
    requires IsRun(states, steps) && states[0] == INITIAL
    ensures var s := states[|steps|];
            && Count(s.claims, id) == InRun(s.agents, id)
                 + Happened(states, steps, (s, step) => CompletesRun(s, step, id))
                 + Happened(states, steps, (s, step) => BreaksOffRun(s, step, id))
            && Count(s.scheduled, id) == Happened(states, steps, (s, step) => SchedulesParent(s, step, id))
  {
    if steps != [] {
      var n := |steps| - 1;
      assert IsRun(states[..n + 1], steps[..n]);
      EveryClaimIsAccountedFor(states[..n + 1], steps[..n], id);
      assert states[n + 1] == Next(states[n], steps[n]);
      StepAccounts(states[n], steps[n], id);
    }
  }

  lemma StepAccounts(s: State, step: Step, id: ExecutionId)
    requires Enabled(s, step)
    ensures var s' := Next(s, step);
            && Count(s'.claims, id) - InRun(s'.agents, id) == Count(s.claims, id) - InRun(s.agents, id)
                 + (if CompletesRun(s, step, id) then 1 else 0) + (if BreaksOffRun(s, step, id) then 1 else 0)
            && Count(s'.scheduled, id) == Count(s.scheduled, id) + (if SchedulesParent(s, step, id) then 1 else 0)
  {
    hide InRun, AfterFailure, Patch, OneWentOn;
    if step.StartDirectly? {
      InRunAppend(s.agents, Agent(step.id, None, Nothing, Load(1)), id);
    } else if !step.SetRow? {
      InRunStep(s, step, id);
      if !s.agents[step.i].pc.Done? {
        FailureUsesWork(s.agents[step.i], true);
        FailureUsesWork(s.agents[step.i], false);
      }
    }
  }

  /** `k` retryable failures in a row of agent `i`. */
  function FailTimes(s: State, i: nat, k: nat): State
    requires i < |s.agents|
    decreases k
  {
    if k == 0 then s
    else
      var before := FailTimes(s, i, k - 1);
      if i < |before.agents| && Enabled(before, Fail(i, true)) then Next(before, Fail(i, true)) else before
  }

  /** The first phase of a child's resume reads and writes, the second loads, claims and runs. A phase
      survives two retryable failures wherever they happen, starts over each time, and ends the
      resume with the third; a failure that may not be retried ends it at once. A direct resume
      is not retried. */
  lemma {:induction false} ThirdFailureGivesUp(s: State, i: nat)
    requires i < |s.agents| && s.agents[i].child.Some?
    ensures s.agents[i].pc in {PatchRead(1), Load(1)} ==>
              var first := s.agents[i].pc;
              && FailTimes(s, i, 1) == At(s, i, if first.Load? then Load(2) else PatchRead(2))
              && FailTimes(s, i, 2) == At(s, i, if first.Load? then Load(3) else PatchRead(3))
              && FailTimes(s, i, 3) == At(s, i, Done(GaveUp))
  {
    if s.agents[i].pc in {PatchRead(1), Load(1)} {
      var load := s.agents[i].pc.Load?;
      var one := At(s, i, if load then Load(2) else PatchRead(2));
      var two := At(s, i, if load then Load(3) else PatchRead(3));
      assert FailTimes(s, i, 0) == s;
      assert Next(s, Fail(i, true)) == one;
      assert Next(one, Fail(i, true)) == two;
      assert Next(two, Fail(i, true)) == At(s, i, Done(GaveUp));
      assert FailTimes(s, i, 1) == one;
      assert FailTimes(s, i, 2) == two;
    }
  }

  /** Where an agent in the middle of a phase goes on after a failure. */
  lemma FailureStartsThePhaseOver(s: State, i: nat, retryable: bool)
    requires Enabled(s, Fail(i, retryable)) && !s.agents[i].pc.AwaitChild?
    ensures var a := s.agents[i];
            var again := retryable && a.pc.attempt < (if a.child.Some? then 3 else 1);
            Next(s, Fail(i, retryable)) == At(s, i,
              if !again then Done(GaveUp)
              else if a.pc.PatchRead? || a.pc.PatchWrite? then PatchRead(a.pc.attempt + 1)
              else Load(a.pc.attempt + 1))
  {
    assert Next(s, Fail(i, retryable)) == At(s, i, AfterFailure(s.agents[i], retryable));
  }

  predicate Owns(step: Step, i: nat) {
    !step.SetRow? && !step.StartDirectly? && step.i == i
  }

  /** Attempts left after the current one. */
  function Left(attempt: nat): nat {
    if attempt < MAX_PARENT_RESUME_ATTEMPTS then MAX_PARENT_RESUME_ATTEMPTS - attempt else 0
  }

  /** How many more steps an agent can take. */
  function Work(pc: Pc): nat {
    match pc
    case AwaitChild => 17
    case PatchRead(n) => 2 * Left(n) + 12
    case PatchWrite(n, _) => 2 * Left(n) + 11
    case Load(n) => 3 * Left(n) + 3
    case Claim(n, _) => 3 * Left(n) + 2
    case Started(n, _) => 3 * Left(n) + 1
    case Done(_) => 0
  }

  lemma FailureUsesWork(a: Agent, retryable: bool)
    requires !a.pc.Done?
    ensures var pc := AfterFailure(a, retryable);
            Work(pc) < Work(a.pc) && !pc.AwaitChild? && !pc.Started?
  {}

  /** Every step of an agent uses up some of its work and no other step changes it, so each
      resume ends after boundedly many steps of its own, whatever the others do. */
  lemma EveryResumeEnds(s: State, step: Step, i: nat)
    requires Enabled(s, step) && i < |s.agents|
    ensures i < |Next(s, step).agents|
    ensures if Owns(step, i) then Work(Next(s, step).agents[i].pc) < Work(s.agents[i].pc)
            else Next(s, step).agents[i] == s.agents[i]
  {
    if !step.SetRow? && !step.StartDirectly? {
      AgentsAfter(s, step);
      assert Next(s, step).agents[i] == Next(s, step).agents[..|s.agents|][i];
    }
  }

  /** How many of the steps are the agent's own. */
  function OwnSteps(steps: seq<Step>, i: nat): nat {
    CountIf(steps, (step: Step) => Owns(step, i))
  }

  /** Over any run, an agent's own steps are paid for by its work. */
  lemma {:induction false} OwnStepsAreBounded(states: seq<State>, steps: seq<Step>, i: nat)
    requires IsRun(states, steps) && i < |states[0].agents|
    ensures i < |states[|steps|].agents|
    ensures OwnSteps(steps, i) + Work(states[|steps|].agents[i].pc) <= Work(states[0].agents[i].pc)
  {
    if steps != [] {
      var n := |steps| - 1;
      assert IsRun(states[..n + 1], steps[..n]);
      OwnStepsAreBounded(states[..n + 1], steps[..n], i);
      assert states[n + 1] == Next(states[n], steps[n]);
      EveryResumeEnds(states[n], steps[n], i);
    }
  }

  /** A resume takes at most 17 steps of its own from when it is scheduled for a child, at most 9
      when it starts directly, in every run and whatever the others do. */
  lemma ResumeTakesAtMost(states: seq<State>, steps: seq<Step>, i: nat)
    requires IsRun(states, steps) && i < |states[0].agents|
    ensures states[0].agents[i].pc.AwaitChild? ==> OwnSteps(steps, i) <= 17
    ensures states[0].agents[i].pc == Load(1) ==> OwnSteps(steps, i) <= 9
  {
    OwnStepsAreBounded(states, steps, i);
  }

  lemma KeepsItsReport(s: State, step: Step, i: nat)
    requires Enabled(s, step) && i < |s.agents|
    ensures i < |Next(s, step).agents| && SameResume(s.agents[i], Next(s, step).agents[i])
  {
    if !step.SetRow? && !step.StartDirectly? {
      AgentsAfter(s, step);
      assert Next(s, step).agents[i] == Next(s, step).agents[..|s.agents|][i];
    }
  }

  // ---- What a retry can recover ----------------------------------------------

  /** An agent that still has to load or claim although its row no longer waits, or that has
      ended without having returned from `run`. */
  predicate Beaten(s: State, i: nat) {
    && i < |s.agents| && !IsWaiting(s, s.agents[i].target)
    && (s.agents[i].pc.Load? || s.agents[i].pc.Claim? || (s.agents[i].pc.Done? && !s.agents[i].pc.end.Resumed?))
  }

  /** The row of `id` is made to wait again. */
  predicate WaitsAgain(step: Step, id: ExecutionId) {
    step.SetRow? && step.id == id && step.row.status == Waiting
  }

  /** A failure after the claim took effect: of the claim itself, or of the rest of `run`. */
  predicate FailsAfterClaim(s: State, step: Step) {
    && Enabled(s, step)
    && (step.ClaimRowThenFail?
        || (step.Fail? && s.agents[step.i].pc.Started? && !IsWaiting(s, s.agents[step.i].target)))
  }

  lemma BeatenStays(s: State, step: Step, i: nat)
    requires Enabled(s, step) && Beaten(s, i) && !WaitsAgain(step, s.agents[i].target)
    ensures Beaten(Next(s, step), i) && Next(s, step).agents[i].target == s.agents[i].target
  {
    hide Patch, ShouldRestart;
    EveryResumeEnds(s, step, i);
    KeepsItsReport(s, step, i);
  }

  /** A failure after the claim took effect is not recovered: until the row waits again the
      retries of that resume only ever load it and lose, so `run` is never completed. */
  lemma {:induction false} RetryAfterClaimNeverRuns(states: seq<State>, steps: seq<Step>, i: nat)
    requires IsRun(states, steps) && |steps| > 0
    requires FailsAfterClaim(states[0], steps[0]) && steps[0].i == i
    requires forall n | 0 <= n < |steps| :: !WaitsAgain(steps[n], states[0].agents[i].target)
    ensures Beaten(states[|steps|], i) && states[|steps|].agents[i].target == states[0].agents[i].target
  {
    var n := |steps| - 1;
    assert states[n + 1] == Next(states[n], steps[n]);
    if n > 0 {
      assert IsRun(states[..n + 1], steps[..n]);
      RetryAfterClaimNeverRuns(states[..n + 1], steps[..n], i);
      BeatenStays(states[n], steps[n], i);
    }
  }

  /** A retry left alone with a row that exists and is not finished: it gets to run if and only
      if the failed step left the row waiting. */
  lemma RetryRecoversIff(s: State, step: Step)
    requires Enabled(s, step) && (step.Fail? || step.ClaimRowThenFail?) && step.retryable
    requires var a := s.agents[step.i];
             (a.pc.Load? || a.pc.Claim? || a.pc.Started?) && a.pc.attempt < MaxAttempts(a)
             && a.target in s.rows && !s.rows[a.target].finished
    ensures var failed := Next(s, step);
            Enabled(failed, LoadRow(step.i)) && Enabled(Next(failed, LoadRow(step.i)), ClaimRow(step.i))
    ensures var failed := Next(s, step);
            var retried := Next(Next(failed, LoadRow(step.i)), ClaimRow(step.i));
            && (retried.agents[step.i].pc.Started? <==> IsWaiting(failed, s.agents[step.i].target))
            && (retried.agents[step.i].pc == Done(Lost) <==> !IsWaiting(failed, s.agents[step.i].target))
  {}

  // ---- The patch as one uninterrupted operation ------------------------------

  /** The rows after a patch that nothing comes in between. */
  function PatchedRows(rows: map<ExecutionId, Row>, parent: ExecutionId, report: Report, child: ExecutionId)
    : map<ExecutionId, Row>
  {
    if report.Nothing? || parent !in rows || rows[parent].status != Waiting || |rows[parent].data.stack| == 0 then rows
    else rows[parent := rows[parent].(data := Patch(rows[parent].data, report, child))]
  }

  /** Reading and writing without another step in between is that patch. */
  lemma UninterruptedPatch(s: State, i: nat)
    requires Enabled(s, ReadPatch(i)) && s.agents[i].child.Some?
    ensures var read, a := Next(s, ReadPatch(i)), s.agents[i];
            var patched := if Enabled(read, WritePatch(i)) then Next(read, WritePatch(i)) else read;
            && patched.rows == PatchedRows(s.rows, a.target, a.report, a.child.value)
            && patched == At(s, i, Load(1)).(rows := patched.rows)
  {
    hide Patch;
    var read := Next(s, ReadPatch(i));
    if Enabled(read, WritePatch(i)) {
      var patched := Next(read, WritePatch(i));
      assert patched.agents == At(s, i, Load(1)).agents;
    }
  }

  /** The parent waits and has a node to resume. */
  predicate AwaitsPatch(rows: map<ExecutionId, Row>, parent: ExecutionId) {
    parent in rows && rows[parent].status == Waiting && rows[parent].data.stack != []
  }

  /** These rows with another entry at the head of the parent's stack, and nothing else changed. */
  function WithHead(rows: map<ExecutionId, Row>, parent: ExecutionId, head: StackEntry): map<ExecutionId, Row>
    requires AwaitsPatch(rows, parent)
  {
    var row := rows[parent];
    rows[parent := row.(data := row.data.(stack := [head] + row.data.stack[1..]))]
  }

  class ExecutionRows {
    var rows: map<ExecutionId, Row>

    constructor ()
      ensures rows == map[]
    {
      rows := map[];
    }

    /** Reads the parent, assigns to the head of its stack, and writes it back. */
    method UpdateParentExecutionWithChildResults(parent: ExecutionId, results: RunResult, child: ExecutionId)
      requires forall n :: n in results.runData ==> |results.runData[n]| > 0
      modifies this
      ensures rows == PatchedRows(old(rows), parent, ReportOf(results), child)
      ensures !AwaitsPatch(old(rows), parent) ==> rows == old(rows)
      ensures results.error.None? && (forall o :: !IsFinalOutput(results, o)) ==> rows == old(rows)
      ensures AwaitsPatch(old(rows), parent) && results.error.Some? ==>
                rows == WithHead(old(rows), parent, old(rows)[parent].data.stack[0]
                                 .(resumeError := Some(ResumeError(results.error.value, child))))
      ensures forall o | AwaitsPatch(old(rows), parent) && results.error.None? && IsFinalOutput(results, o) ::
                rows == WithHead(old(rows), parent, old(rows)[parent].data.stack[0].(data := o))
    {
      ReportMeaning(results);
      var last := LastExecutedNodeData(results);
      if results.error.None? && (last.None? || last.value.data.None?) {
        return;
      }
      if parent !in rows || rows[parent].status != Waiting {
        return;
      }
      var data := rows[parent].data;
      if |data.stack| == 0 {
        return;
      }
      var head := data.stack[0];
      if results.error.Some? {
        head := head.(resumeError := Some(ResumeError(results.error.value, child)));
      } else {
        head := head.(data := last.value.data.value);
      }
      assert data.stack[0 := head] == [head] + data.stack[1..];
      data := data.(stack := data.stack[0 := head]);
      rows := rows[parent := rows[parent].(data := data)];
    }
  }
}
