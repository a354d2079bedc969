/** What a parent is restarted on: the resumes of one waiting epoch, and exactly when an epoch is
    safe from the resumes left over from an earlier one. */
module WaitingEpochs {
  import opened Common
  import opened ChildResults
  import opened ResumeProtocol

  // ---- What the winner finds: one waiting epoch ------------------------------

  /** The completed child `c` reported `r` to a resume of `p` that is not one of the `past` ones. */
  ghost predicate Spoke(past: set<int>, s: State, p: ExecutionId, r: Report, c: ExecutionId) {
    exists i :: 0 <= i < |s.agents| && i !in past && SpokenBy(s.agents[i], p, r, c)
  }

  predicate SpokenBy(a: Agent, p: ExecutionId, r: Report, c: ExecutionId) {
    a.target == p && a.child == Some(c) && a.report == r && !a.pc.AwaitChild?
  }

  predicate Carries(head: StackEntry, r: Report, c: ExecutionId) {
    match r
    case Nothing => false
    case Result(output) => head.data == output
    case Failure(error) => head.resumeError == Some(ResumeError(error, c))
  }

  /** `d` is the epoch's first data except for what completed children put on the stack head. */
  ghost predicate Patched(past: set<int>, s: State, p: ExecutionId, d0: ExecutionData, d: ExecutionData) {
    && 0 < |d0.stack| == |d.stack| && d.stack[1..] == d0.stack[1..]
    && d.parent == d0.parent && d.rest == d0.rest && d.stack[0].rest == d0.stack[0].rest
    && (d.stack[0].data == d0.stack[0].data || exists c :: Spoke(past, s, p, Result(d.stack[0].data), c))
    && (d.stack[0].resumeError == d0.stack[0].resumeError
        || (d.stack[0].resumeError.Some?
            && Spoke(past, s, p, Failure(d.stack[0].resumeError.value.error), d.stack[0].resumeError.value.child)))
  }

  /** At least one completed child's report is on the stack head. */
  ghost predicate Delivered(past: set<int>, s: State, p: ExecutionId, d: ExecutionData) {
    |d.stack| > 0 && exists r, c :: Spoke(past, s, p, r, c) && Carries(d.stack[0], r, c)
  }

  /** The resume of a completed child that has something to report. */
  predicate Reports(a: Agent) {
    a.child.Some? && !a.report.Nothing?
  }

  predicate HasAttemptsLeft(a: Agent, attempt: nat) {
    attempt < MaxAttempts(a)
  }

  /** What resume `i` of the waiting `p` must hold. A past one with something to report must not
      come to patch; data to be written or claimed is the epoch's with a report delivered; and if
      the row will or may be loaded, it delivers one. */
  ghost predicate AgentInEpoch(past: set<int>, s: State, p: ExecutionId, d0: ExecutionData, i: nat)
    requires IsWaiting(s, p) && i < |s.agents|
  {
    var a := s.agents[i];
    a.target == p ==>
      match a.pc
      case AwaitChild => i !in past
      case PatchRead(_) => Reports(a) ==> i !in past
      case PatchWrite(_, d) => i !in past && Patched(past, s, p, d0, d) && Delivered(past, s, p, d)
      case Load(_) => Reports(a) ==> Delivered(past, s, p, s.rows[p].data)
      case Claim(n, d) =>
        Reports(a) ==>
          && Patched(past, s, p, d0, d) && Delivered(past, s, p, d)
          && (HasAttemptsLeft(a, n) ==> Delivered(past, s, p, s.rows[p].data))
      case Started(n, _) => Reports(a) && HasAttemptsLeft(a, n) ==> Delivered(past, s, p, s.rows[p].data)
      case Done(_) => true
  }

  ghost predicate InEpoch(past: set<int>, s: State, p: ExecutionId, d0: ExecutionData) {
    && IsWaiting(s, p) && Patched(past, s, p, d0, s.rows[p].data)
    && (forall i :: i in past ==> i < |s.agents|)
    && forall i :: 0 <= i < |s.agents| ==> AgentInEpoch(past, s, p, d0, i)
  }

  /** The resumes in `s` that no longer await their child: what they report was made before. */
  function PastResumes(s: State): set<int> {
    set i: int | 0 <= i < |s.agents| && !s.agents[i].pc.AwaitChild?
  }

  /** A resume that can still do something for its child. */
  predicate IsActive(a: Agent) {
    match a.pc
    case AwaitChild => false
    case Started(n, _) => HasAttemptsLeft(a, n)
    case Done(_) => false
    case _ => true
  }

  /** An epoch of `p` begins here with nothing left over: a resume that has something to report
      already is over, or has claimed without a further attempt, and none is about to write. */
  predicate SafeEpoch(s: State, p: ExecutionId) {
    && IsWaiting(s, p) && |s.rows[p].data.stack| > 0
    && forall i | 0 <= i < |s.agents| && s.agents[i].target == p ::
         if Reports(s.agents[i]) then !IsActive(s.agents[i]) else !s.agents[i].pc.PatchWrite?
  }

  /** The epoch begins before any child has finished. A resume without a child never patches. */
  predicate FreshEpoch(s: State, p: ExecutionId) {
    && IsWaiting(s, p) && |s.rows[p].data.stack| > 0
    && forall i | 0 <= i < |s.agents| && s.agents[i].target == p ::
         var pc := s.agents[i].pc;
         if s.agents[i].child.Some? then pc.AwaitChild? || pc.Done?
         else pc.Load? || pc.Claim? || pc.Started? || pc.Done?
  }

  lemma SafeIsInEpoch(s: State, p: ExecutionId)
    requires SafeEpoch(s, p)
    ensures InEpoch(PastResumes(s), s, p, s.rows[p].data)
  {}

  lemma SpokeGrows(past: set<int>, s: State, step: Step, p: ExecutionId, r: Report, c: ExecutionId)
    requires Enabled(s, step) && Spoke(past, s, p, r, c)
    ensures Spoke(past, Next(s, step), p, r, c)
  {
    var i :| 0 <= i < |s.agents| && i !in past && SpokenBy(s.agents[i], p, r, c);
    var s' := Next(s, step);
    KeepsItsReport(s, step, i);
    assert SpokenBy(s'.agents[i], p, r, c);
  }

  lemma PatchedGrows(past: set<int>, s: State, step: Step, p: ExecutionId, d0: ExecutionData, d: ExecutionData)
    requires Enabled(s, step)
    ensures Patched(past, s, p, d0, d) ==> Patched(past, Next(s, step), p, d0, d)
    ensures Delivered(past, s, p, d) ==> Delivered(past, Next(s, step), p, d)
  {
    hide Next, Enabled;
    forall r, c | Spoke(past, s, p, r, c)
      ensures Spoke(past, Next(s, step), p, r, c)
    {
      SpokeGrows(past, s, step, p, r, c);
    }
  }

  /** Patching epoch data with a report that was made yields epoch data that delivers it. */
  lemma PatchStaysInEpoch(past: set<int>, s: State, p: ExecutionId, d0: ExecutionData, d: ExecutionData,
                          r: Report, c: ExecutionId)
    requires Patched(past, s, p, d0, d) && Spoke(past, s, p, r, c) && !r.Nothing?
    ensures Patched(past, s, p, d0, Patch(d, r, c)) && Delivered(past, s, p, Patch(d, r, c))
  {
    var d' := Patch(d, r, c);
    assert d'.stack[1..] == d.stack[1..];
    assert Carries(d'.stack[0], r, c);
  }

  /** The row of a parent that goes on waiting changes only by a patch. */
  lemma RowStaysInEpoch(past: set<int>, s: State, step: Step, p: ExecutionId, d0: ExecutionData)
    requires Enabled(s, step) && InEpoch(past, s, p, d0) && IsWaiting(Next(s, step), p)
    ensures Patched(past, Next(s, step), p, d0, Next(s, step).rows[p].data)
    ensures Delivered(past, s, p, s.rows[p].data) ==> Delivered(past, Next(s, step), p, Next(s, step).rows[p].data)
    ensures (step.WritePatch? || step.WritePatchThenFail?) && s.agents[step.i].target == p ==>
              Delivered(past, Next(s, step), p, Next(s, step).rows[p].data)
  {
    var s' := Next(s, step);
    if (step.WritePatch? || step.WritePatchThenFail?) && s.agents[step.i].target == p {
      assert AgentInEpoch(past, s, p, d0, step.i);
      assert s'.rows[p].data == s.agents[step.i].pc.data;
      PatchedGrows(past, s, step, p, d0, s.agents[step.i].pc.data);
    } else {
      RowUntouched(s, step, p);
      PatchedGrows(past, s, step, p, d0, s.rows[p].data);
    }
  }

  lemma RowUntouched(s: State, step: Step, p: ExecutionId)
    requires Enabled(s, step) && IsWaiting(s, p) && IsWaiting(Next(s, step), p)
    requires !((step.WritePatch? || step.WritePatchThenFail?) && s.agents[step.i].target == p)
    ensures Next(s, step).rows[p] == s.rows[p]
  {
    hide Patch, ShouldRestart;
  }

  lemma OtherAgentStaysInEpoch(past: set<int>, s: State, step: Step, p: ExecutionId, d0: ExecutionData, j: nat)
    requires Enabled(s, step) && InEpoch(past, s, p, d0) && IsWaiting(Next(s, step), p)
    requires j < |s.agents| && j < |Next(s, step).agents| && Next(s, step).agents[j] == s.agents[j]
    ensures AgentInEpoch(past, Next(s, step), p, d0, j)
  {
    hide Next, Enabled, Patched, Delivered;
    assert AgentInEpoch(past, s, p, d0, j);
    RowStaysInEpoch(past, s, step, p, d0);
    match s.agents[j].pc
    case PatchWrite(_, d) => PatchedGrows(past, s, step, p, d0, d);
    case Claim(_, d) => PatchedGrows(past, s, step, p, d0, d);
    case _ =>
  }

  lemma ReaderStaysInEpoch(past: set<int>, s: State, i: nat, p: ExecutionId, d0: ExecutionData)
    requires Enabled(s, ReadPatch(i)) && InEpoch(past, s, p, d0)
    ensures IsWaiting(Next(s, ReadPatch(i)), p)
    ensures AgentInEpoch(past, Next(s, ReadPatch(i)), p, d0, i)
  {
    var a, s' := s.agents[i], Next(s, ReadPatch(i));
    assert AgentInEpoch(past, s, p, d0, i);
    if a.target == p && Reports(a) {
      assert SpokenBy(a, p, a.report, a.child.value);
      PatchStaysInEpoch(past, s, p, d0, s.rows[p].data, a.report, a.child.value);
      PatchedGrows(past, s, ReadPatch(i), p, d0, Patch(s.rows[p].data, a.report, a.child.value));
      assert s'.agents[i].pc == PatchWrite(a.pc.attempt, Patch(s.rows[p].data, a.report, a.child.value));
    }
  }

  lemma OwnAgentStaysInEpoch(past: set<int>, s: State, step: Step, p: ExecutionId, d0: ExecutionData)
    requires Enabled(s, step) && InEpoch(past, s, p, d0) && IsWaiting(Next(s, step), p)
    requires !step.SetRow? && !step.StartDirectly?
    ensures step.i < |Next(s, step).agents| && AgentInEpoch(past, Next(s, step), p, d0, step.i)
  {
    if step.ReadPatch? {
      ReaderStaysInEpoch(past, s, step.i, p, d0);
    } else {
      hide Patched, Delivered, Patch, ShouldRestart;
      assert AgentInEpoch(past, s, p, d0, step.i);
      RowStaysInEpoch(past, s, step, p, d0);
      if step.LoadRow? && s.agents[step.i].target == p {
        PatchedGrows(past, s, step, p, d0, s.rows[p].data);
      }
    }
  }

  lemma StepStaysInEpoch(past: set<int>, s: State, step: Step, p: ExecutionId, d0: ExecutionData)
    requires Enabled(s, step) && InEpoch(past, s, p, d0) && IsWaiting(Next(s, step), p)
    ensures InEpoch(past, Next(s, step), p, d0)
  {
    RowStaysInEpoch(past, s, step, p, d0);
    var s' := Next(s, step);
    forall j | 0 <= j < |s'.agents|
      ensures AgentInEpoch(past, s', p, d0, j)
    {
      AgentStaysInEpoch(past, s, step, p, d0, j);
    }
  }

  lemma AgentStaysInEpoch(past: set<int>, s: State, step: Step, p: ExecutionId, d0: ExecutionData, j: nat)
    requires Enabled(s, step) && InEpoch(past, s, p, d0) && IsWaiting(Next(s, step), p)
    requires j < |Next(s, step).agents|
    ensures AgentInEpoch(past, Next(s, step), p, d0, j)
  {
    if j >= |s.agents| {
      if !step.SetRow? && !step.StartDirectly? { NewAgentAwaits(s, step); }
    } else if Owns(step, j) {
      OwnAgentStaysInEpoch(past, s, step, p, d0);
    } else {
      EveryResumeEnds(s, step, j);
      OtherAgentStaysInEpoch(past, s, step, p, d0, j);
    }
  }

  lemma NewAgentAwaits(s: State, step: Step)
    requires Enabled(s, step) && !step.SetRow? && !step.StartDirectly?
    ensures forall j | |s.agents| <= j < |Next(s, step).agents| ::
              Next(s, step).agents[j].pc.AwaitChild? && Next(s, step).agents[j].child.Some?
  {
    AgentsAfter(s, step);
  }

  /** A run from `s` through which `p` waits until a child with something to report claims it. */
  ghost predicate IsReportedWin(s: State, p: ExecutionId, states: seq<State>, steps: seq<Step>) {
    && IsRun(states, steps) && |steps| > 0 && states[0] == s
    && (forall n | 0 <= n < |steps| :: IsWaiting(states[n], p))
    && var last := steps[|steps| - 1];
       && (last.ClaimRow? || last.ClaimRowThenFail?)
       && states[|steps| - 1].agents[last.i].target == p && Reports(states[|steps| - 1].agents[last.i])
  }

  /** The claimed row runs on the data the epoch began with, changed only on the stack head and
      only by reports of completed children, at least one of them. */
  ghost predicate RunsOnAReport(past: set<int>, s: State, p: ExecutionId, d0: ExecutionData) {
    && p in s.rows && s.rows[p].status == Running
    && Patched(past, s, p, d0, s.rows[p].data) && Delivered(past, s, p, s.rows[p].data)
  }

  /** In an epoch, whatever the interleaving of reads, writes, loads, claims and retries, every win
      of a reporting child restarts the parent on a report that is not a past one. */
  lemma WinInEpochDelivers(past: set<int>, s: State, p: ExecutionId, states: seq<State>, steps: seq<Step>)
    requires p in s.rows && InEpoch(past, s, p, s.rows[p].data) && IsReportedWin(s, p, states, steps)
    ensures RunsOnAReport(past, states[|steps|], p, s.rows[p].data)
  {
    var n, d0 := |steps| - 1, s.rows[p].data;
    assert states[..n + 1][n] == states[n];
    StaysInEpoch(past, states[..n + 1], steps[..n], p, d0);
    ClaimEndsEpoch(past, states[n], steps[n], p, d0);
    assert states[n + 1] == Next(states[n], steps[n]);
  }

  /** In a safe epoch the report is of a child that finished since the epoch began. */
  lemma SafeWinDelivers(s: State, p: ExecutionId, states: seq<State>, steps: seq<Step>)
    requires SafeEpoch(s, p) && IsReportedWin(s, p, states, steps)
    ensures RunsOnAReport(PastResumes(s), states[|steps|], p, s.rows[p].data)
  {
    SafeIsInEpoch(s, p);
    WinInEpochDelivers(PastResumes(s), s, p, states, steps);
  }

  /** Main result: an epoch that begins before any child has finished is safe. */
  lemma WinnerDeliversAChild(states: seq<State>, steps: seq<Step>, p: ExecutionId)
    requires |states| > 0 && FreshEpoch(states[0], p) && IsReportedWin(states[0], p, states, steps)
    ensures RunsOnAReport(PastResumes(states[0]), states[|steps|], p, states[0].rows[p].data)
  {
    FreshIsSafe(states[0], p);
    SafeWinDelivers(states[0], p, states, steps);
  }

  lemma FreshIsSafe(s: State, p: ExecutionId)
    requires FreshEpoch(s, p)
    ensures SafeEpoch(s, p)
  {}

  /** And the winner is itself such a child: a past resume never gets to claim. */
  lemma WinnerFinishedSince(s: State, p: ExecutionId, states: seq<State>, steps: seq<Step>)
    requires SafeEpoch(s, p) && IsReportedWin(s, p, states, steps)
    ensures steps[|steps| - 1].i !in PastResumes(s)
  {
    var n := |steps| - 1;
    assert IsRun(states[..n + 1], steps[..n]);
    if steps[n].i in PastResumes(s) {
      assert s.agents[steps[n].i].child == states[n].agents[steps[n].i].child
          && s.agents[steps[n].i].report == states[n].agents[steps[n].i].report
          && s.agents[steps[n].i].target == p by {
        PastStaysSame(s, states[..n + 1], steps[..n], steps[n].i);
      }
      OverStaysOver(states[..n + 1], steps[..n], steps[n].i, p);
    }
  }

  lemma {:induction false} PastStaysSame(s: State, states: seq<State>, steps: seq<Step>, i: nat)
    requires IsRun(states, steps) && states[0] == s && i < |s.agents| && !s.agents[i].pc.AwaitChild?
    ensures i < |states[|steps|].agents| && SameResume(s.agents[i], states[|steps|].agents[i])
  {
    if steps != [] {
      var n := |steps| - 1;
      assert IsRun(states[..n + 1], steps[..n]);
      PastStaysSame(s, states[..n + 1], steps[..n], i);
      assert states[n + 1] == Next(states[n], steps[n]);
      KeepsItsReport(states[n], steps[n], i);
    }
  }

  predicate IsOver(a: Agent) {
    !IsActive(a) && !a.pc.AwaitChild?
  }

  lemma {:induction false} OverStaysOver(states: seq<State>, steps: seq<Step>, i: nat, p: ExecutionId)
    requires IsRun(states, steps) && i < |states[0].agents| && IsOver(states[0].agents[i])
    ensures i < |states[|steps|].agents| && IsOver(states[|steps|].agents[i])
  {
    if steps != [] {
      var n := |steps| - 1;
      assert IsRun(states[..n + 1], steps[..n]);
      OverStaysOver(states[..n + 1], steps[..n], i, p);
      assert states[n + 1] == Next(states[n], steps[n]);
      EveryResumeEnds(states[n], steps[n], i);
      if Owns(steps[n], i) { KeepsItsReport(states[n], steps[n], i); }
    }
  }

  lemma {:induction false} StaysInEpoch(past: set<int>, states: seq<State>, steps: seq<Step>, p: ExecutionId,
                                        d0: ExecutionData)
    requires IsRun(states, steps) && InEpoch(past, states[0], p, d0)
    requires forall n | 0 <= n <= |steps| :: IsWaiting(states[n], p)
    ensures InEpoch(past, states[|steps|], p, d0)
  {
    if steps != [] {
      var n := |steps| - 1;
      assert IsRun(states[..n + 1], steps[..n]);
      StaysInEpoch(past, states[..n + 1], steps[..n], p, d0);
      assert states[n + 1] == Next(states[n], steps[n]);
      StepStaysInEpoch(past, states[n], steps[n], p, d0);
    }
  }

  lemma ClaimEndsEpoch(past: set<int>, s: State, step: Step, p: ExecutionId, d0: ExecutionData)
    requires (step.ClaimRow? || step.ClaimRowThenFail?) && Enabled(s, step) && InEpoch(past, s, p, d0)
    requires s.agents[step.i].target == p && Reports(s.agents[step.i])
    ensures RunsOnAReport(past, Next(s, step), p, d0)
  {
    assert AgentInEpoch(past, s, p, d0, step.i);
    PatchedGrows(past, s, step, p, d0, s.agents[step.i].pc.data);
  }

  /** When every completed child reported an output, the stack head's data is exactly one
      completed child's output and everything else is as the epoch began. */
  lemma WinnerHasOneOutput(past: set<int>, s: State, p: ExecutionId, d0: ExecutionData, d: ExecutionData)
    requires Patched(past, s, p, d0, d) && Delivered(past, s, p, d)
    requires forall r, c :: Spoke(past, s, p, r, c) ==> r.Result?
    ensures exists output, c :: Spoke(past, s, p, Result(output), c)
                             && d == d0.(stack := d0.stack[0 := d0.stack[0].(data := output)])
  {
    var r, c :| Spoke(past, s, p, r, c) && Carries(d.stack[0], r, c);
    assert d.stack == [d.stack[0]] + d.stack[1..] && d0.stack == [d0.stack[0]] + d0.stack[1..];
    assert d == d0.(stack := d0.stack[0 := d0.stack[0].(data := r.output)]);
  }

  /** The same over the run: if every completed child reported an output, the claimed row holds
      the data the epoch began with, except that one child's output is on the stack head. */
  lemma WinnerRestartsOnOneOutput(s: State, p: ExecutionId, states: seq<State>, steps: seq<Step>)
    requires SafeEpoch(s, p) && IsReportedWin(s, p, states, steps)
    requires forall r, c :: Spoke(PastResumes(s), states[|steps|], p, r, c) ==> r.Result?
    ensures p in states[|steps|].rows && states[|steps|].rows[p].status == Running
    ensures var d0 := s.rows[p].data;
            exists output, c :: Spoke(PastResumes(s), states[|steps|], p, Result(output), c)
              && states[|steps|].rows[p].data == d0.(stack := d0.stack[0 := d0.stack[0].(data := output)])
  {
    SafeWinDelivers(s, p, states, steps);
    WinnerHasOneOutput(PastResumes(s), states[|steps|], p, s.rows[p].data, states[|steps|].rows[p].data);
  }

  // ---- Exactly when an epoch is safe -----------------------------------------

  /** Data that a resume is about to write carries the report of its own child. */
  ghost predicate Sane(s: State) {
    forall i :: 0 <= i < |s.agents| ==> WritesItsReport(s.agents[i])
  }

  predicate WritesItsReport(a: Agent) {
    a.pc.PatchWrite? ==>
      Reports(a) && |a.pc.data.stack| > 0 && Carries(a.pc.data.stack[0], a.report, a.child.value)
  }

  lemma StepKeepsSane(s: State, step: Step)
    requires Enabled(s, step) && Sane(s)
    ensures Sane(Next(s, step))
  {
    var s' := Next(s, step);
    forall j | 0 <= j < |s'.agents|
      ensures WritesItsReport(s'.agents[j])
    {
      if j < |s.agents| && !Owns(step, j) {
        EveryResumeEnds(s, step, j);
      } else if j >= |s.agents| && !step.SetRow? && !step.StartDirectly? {
        NewAgentAwaits(s, step);
      } else if j < |s.agents| {
        assert WritesItsReport(s.agents[j]);
      }
    }
  }

  lemma {:induction false} RunIsSane(states: seq<State>, steps: seq<Step>)
    requires IsRun(states, steps) && Sane(states[0])
    ensures Sane(states[|steps|])
  {
    if steps != [] {
      var n := |steps| - 1;
      assert IsRun(states[..n + 1], steps[..n]);
      RunIsSane(states[..n + 1], steps[..n]);
      assert states[n + 1] == Next(states[n], steps[n]);
      StepKeepsSane(states[n], steps[n]);
    }
  }

  /** The same resumes have made the same reports, so the same data is patched and delivered. */
  lemma SameSpeakers(past: set<int>, s: State, s': State, p: ExecutionId, d0: ExecutionData, d: ExecutionData)
    requires |s.agents| == |s'.agents|
    requires forall i | 0 <= i < |s.agents| ::
               SameResume(s.agents[i], s'.agents[i]) && SameResume(s'.agents[i], s.agents[i])
    ensures Patched(past, s', p, d0, d) <==> Patched(past, s, p, d0, d)
    ensures Delivered(past, s', p, d) <==> Delivered(past, s, p, d)
  {
    forall r, c
      ensures Spoke(past, s', p, r, c) <==> Spoke(past, s, p, r, c)
    {
      if i :| 0 <= i < |s.agents| && i !in past && SpokenBy(s.agents[i], p, r, c) {
        assert SpokenBy(s'.agents[i], p, r, c);
      }
      if i :| 0 <= i < |s'.agents| && i !in past && SpokenBy(s'.agents[i], p, r, c) {
        assert SpokenBy(s.agents[i], p, r, c);
      }
    }
  }

  /** A resume that is past its child goes on, alone: everything else of the agents stays. */
  predicate OnlyMoves(s: State, s': State, i: nat) {
    && i < |s.agents| && !s.agents[i].pc.AwaitChild?
    && |s'.agents| == |s.agents| && s'.agents == s.agents[i := s.agents[i].(pc := s'.agents[i].pc)]
    && !s'.agents[i].pc.AwaitChild?
  }

  lemma MovingKeepsSpeakers(past: set<int>, s: State, s': State, i: nat, p: ExecutionId, d0: ExecutionData,
                            d: ExecutionData)
    requires OnlyMoves(s, s', i)
    ensures Patched(past, s', p, d0, d) <==> Patched(past, s, p, d0, d)
    ensures Delivered(past, s', p, d) <==> Delivered(past, s, p, d)
  {
    SameSpeakers(past, s, s', p, d0, d);
  }

  /** In this run resume `i` wins from `s` with `d`, moving alone. */
  ghost predicate IsLoneWin(s: State, p: ExecutionId, i: nat, d: ExecutionData, states: seq<State>, steps: seq<Step>) {
    && IsReportedWin(s, p, states, steps) && OnlyMoves(s, states[|steps|], i)
    && p in states[|steps|].rows && states[|steps|].rows[p].data == d
  }

  ghost predicate WinsWith(s: State, p: ExecutionId, i: nat, d: ExecutionData) {
    exists states, steps :: IsLoneWin(s, p, i, d, states, steps)
  }

  lemma ClaimWins(s: State, p: ExecutionId, i: nat)
    requires IsWaiting(s, p) && i < |s.agents| && s.agents[i].target == p && Reports(s.agents[i])
    requires s.agents[i].pc.Claim?
    ensures WinsWith(s, p, i, s.agents[i].pc.data)
  {
    var s' := Next(s, ClaimRow(i));
    assert IsLoneWin(s, p, i, s.agents[i].pc.data, [s, s'], [ClaimRow(i)]);
  }

  /** A win after one more step of the same resume is a win. */
  lemma StepThenWins(s: State, step: Step, p: ExecutionId, i: nat, d: ExecutionData)
    requires Enabled(s, step) && IsWaiting(s, p) && OnlyMoves(s, Next(s, step), i) && WinsWith(Next(s, step), p, i, d)
    ensures WinsWith(s, p, i, d)
  {
    hide Next, Enabled, Reports;
    var states, steps :| IsLoneWin(Next(s, step), p, i, d, states, steps);
    var states', steps' := [s] + states, [step] + steps;
    forall n | 0 <= n < |steps'|
      ensures Enabled(states'[n], steps'[n]) && states'[n + 1] == Next(states'[n], steps'[n])
      ensures IsWaiting(states'[n], p)
    {
      if n > 0 { assert states'[n] == states[n - 1] && steps'[n] == steps[n - 1] && states'[n + 1] == states[n]; }
    }
    assert states'[|steps'|] == states[|steps|] && states'[|steps'| - 1] == states[|steps| - 1];
    assert steps'[|steps'| - 1] == steps[|steps| - 1];
    assert IsLoneWin(s, p, i, d, states', steps');
  }

  lemma LoadWins(s: State, p: ExecutionId, i: nat)
    requires IsWaiting(s, p) && !s.rows[p].finished
    requires i < |s.agents| && s.agents[i].target == p && Reports(s.agents[i]) && s.agents[i].pc.Load?
    ensures WinsWith(s, p, i, s.rows[p].data)
  {
    ClaimWins(Next(s, LoadRow(i)), p, i);
    StepThenWins(s, LoadRow(i), p, i, s.rows[p].data);
  }

  lemma RetryWins(s: State, p: ExecutionId, i: nat)
    requires IsWaiting(s, p) && !s.rows[p].finished
    requires i < |s.agents| && s.agents[i].target == p && Reports(s.agents[i])
    requires s.agents[i].pc.Claim? || s.agents[i].pc.Started?
    requires HasAttemptsLeft(s.agents[i], s.agents[i].pc.attempt)
    ensures WinsWith(s, p, i, s.rows[p].data)
  {
    LoadWins(Next(s, Fail(i, true)), p, i);
    StepThenWins(s, Fail(i, true), p, i, s.rows[p].data);
  }

  lemma WriteWins(s: State, p: ExecutionId, i: nat)
    requires IsWaiting(s, p) && !s.rows[p].finished
    requires i < |s.agents| && s.agents[i].target == p && Reports(s.agents[i]) && s.agents[i].pc.PatchWrite?
    ensures WinsWith(s, p, i, s.agents[i].pc.data)
  {
    LoadWins(Next(s, WritePatch(i)), p, i);
    StepThenWins(s, WritePatch(i), p, i, s.agents[i].pc.data);
  }

  lemma ReadWins(s: State, p: ExecutionId, i: nat)
    requires IsWaiting(s, p) && !s.rows[p].finished && |s.rows[p].data.stack| > 0
    requires i < |s.agents| && s.agents[i].target == p && Reports(s.agents[i]) && s.agents[i].pc.PatchRead?
    ensures WinsWith(s, p, i, Patch(s.rows[p].data, s.agents[i].report, s.agents[i].child.value))
  {
    hide Patch;
    WriteWins(Next(s, ReadPatch(i)), p, i);
    StepThenWins(s, ReadPatch(i), p, i, Patch(s.rows[p].data, s.agents[i].report, s.agents[i].child.value));
  }

  ghost predicate EveryReportedWinDelivers(s: State, p: ExecutionId)
    requires p in s.rows
  {
    forall states, steps | IsReportedWin(s, p, states, steps) ::
      RunsOnAReport(PastResumes(s), states[|steps|], p, s.rows[p].data)
  }

  /** A win in which no other resume moves delivers no report made since. */
  lemma LoneWinIsBad(s: State, p: ExecutionId, i: nat, d: ExecutionData)
    requires p in s.rows && WinsWith(s, p, i, d)
    ensures !EveryReportedWinDelivers(s, p)
  {
    var states, steps :| IsLoneWin(s, p, i, d, states, steps);
    MovingKeepsSpeakers(PastResumes(s), s, states[|steps|], i, p, s.rows[p].data, d);
    assert !Delivered(PastResumes(s), s, p, d);
    assert !RunsOnAReport(PastResumes(s), states[|steps|], p, s.rows[p].data);
  }

  /** Every active resume with something to report has such a win, of one to four steps. */
  lemma ActiveResumeWins(s: State, p: ExecutionId, i: nat)
    requires IsWaiting(s, p) && !s.rows[p].finished && |s.rows[p].data.stack| > 0
    requires i < |s.agents| && s.agents[i].target == p && Reports(s.agents[i]) && IsActive(s.agents[i])
    ensures exists d :: WinsWith(s, p, i, d)
  {
    hide WinsWith;
    match s.agents[i].pc
    case PatchRead(_) => ReadWins(s, p, i);
    case PatchWrite(_, _) => WriteWins(s, p, i);
    case Load(_) => LoadWins(s, p, i);
    case Claim(_, _) => ClaimWins(s, p, i);
    case Started(_, _) => RetryWins(s, p, i);
  }

  /** Main result, exactly: from any state of a run in which `p` waits, unfinished, with a stack, all
      wins of reporting children, in all continuations, restart it on a report made since, if and
      only if every resume of `p` with something to report is over or cannot try again. */
  lemma EpochIsSafeIff(s: State, p: ExecutionId)
    requires Sane(s) && IsWaiting(s, p) && !s.rows[p].finished && |s.rows[p].data.stack| > 0
    ensures EveryReportedWinDelivers(s, p) <==> SafeEpoch(s, p)
  {
    if SafeEpoch(s, p) {
      forall states, steps | IsReportedWin(s, p, states, steps)
        ensures RunsOnAReport(PastResumes(s), states[|steps|], p, s.rows[p].data)
      {
        SafeWinDelivers(s, p, states, steps);
      }
    } else {
      var i :| 0 <= i < |s.agents| && s.agents[i].target == p
            && if Reports(s.agents[i]) then IsActive(s.agents[i]) else s.agents[i].pc.PatchWrite?;
      assert WritesItsReport(s.agents[i]);
      ActiveResumeWins(s, p, i);
      var d :| WinsWith(s, p, i, d);
      LoneWinIsBad(s, p, i, d);
    }
  }

  // ---- Without a fresh epoch -------------------------------------------------

  /** One parent row and two resumes of it: a child's and a direct one. */
  function Pair(p: ExecutionId, row: Row, agents: seq<Agent>, entered: nat, claims: map<ExecutionId, nat>): State {
    State(map[p := row], agents, map[p := entered], claims, map[])
  }

  function FromChild(p: ExecutionId, child: ExecutionId, output: Output, pc: Pc): Agent {
    Agent(p, Some(child), Result(output), pc)
  }

  function Direct(p: ExecutionId, pc: Pc): Agent {
    Agent(p, None, Nothing, pc)
  }

  /** The child reads and prepares its patch, then the direct resume wins the first epoch. */
  lemma FirstEpochIsLost(p: ExecutionId, child: ExecutionId, first: ExecutionData, output: Output)
    returns (states: seq<State>, steps: seq<Step>)
    requires |first.stack| > 0
    ensures |steps| == 5 && IsRun(states, steps) && FreshEpoch(states[0], p)
    ensures states[0].rows[p].data == first
    ensures var patched := Patch(first, Result(output), child);
            states[5] == Pair(p, Row(Running, false, first),
                              [FromChild(p, child, output, PatchWrite(1, patched)), Direct(p, Started(1, first))],
                              1, map[p := 1])
  {
    var patched := Patch(first, Result(output), child);
    var waiting := Row(Waiting, false, first);
    var writer := FromChild(p, child, output, PatchWrite(1, patched));
    var s0 := Pair(p, waiting, [Agent(p, Some(child), Nothing, AwaitChild)], 1, map[]);
    var s1 := Pair(p, waiting, [FromChild(p, child, output, PatchRead(1))], 1, map[]);
    var s2 := Pair(p, waiting, [writer], 1, map[]);
    var s3 := Pair(p, waiting, [writer, Direct(p, Load(1))], 1, map[]);
    var s4 := Pair(p, waiting, [writer, Direct(p, Claim(1, first))], 1, map[]);
    var s5 := Pair(p, Row(Running, false, first), [writer, Direct(p, Started(1, first))], 1, map[p := 1]);
    steps := [Settle(0, Some(Result(output))), ReadPatch(0), StartDirectly(p), LoadRow(1), ClaimRow(1)];
    assert Next(s0, steps[0]) == s1;
    assert Next(s1, steps[1]) == s2;
    assert Next(s2, steps[2]) == s3;
    assert Next(s3, steps[3]) == s4;
    assert Next(s4, steps[4]) == s5;
    states := [s0, s1, s2, s3, s4, s5];
  }

  /** The parent waits again on other data; the child's stale patch then replaces that data
      and the child wins the claim with it. */
  lemma SecondEpochIsOverwritten(p: ExecutionId, child: ExecutionId, first: ExecutionData, second: ExecutionData,
                                 output: Output)
    returns (states: seq<State>, steps: seq<Step>)
    requires |first.stack| > 0
    ensures |steps| == 4 && IsRun(states, steps)
    ensures var patched := Patch(first, Result(output), child);
            states[0] == Pair(p, Row(Running, false, first),
                              [FromChild(p, child, output, PatchWrite(1, patched)), Direct(p, Started(1, first))],
                              1, map[p := 1])
    ensures IsWaiting(states[1], p) && states[1].rows[p].data == second && !FreshEpoch(states[1], p)
    ensures IsReportedWin(states[1], p, states[1..], steps[1..])
    ensures p in states[4].rows && states[4].rows[p] == Row(Running, false, Patch(first, Result(output), child))
    ensures |states[1].agents| == |states[4].agents| == 2
    ensures !states[1].agents[0].pc.AwaitChild? && !states[1].agents[1].pc.AwaitChild?
  {
    hide Patch, ShouldRestart, AfterFailure;
    var patched := Patch(first, Result(output), child);
    var direct := Direct(p, Started(1, first));
    var writer, loader := FromChild(p, child, output, PatchWrite(1, patched)), FromChild(p, child, output, Load(1));
    var claimer := FromChild(p, child, output, Claim(1, patched));
    var winner := FromChild(p, child, output, Started(1, patched));
    var s0 := Pair(p, Row(Running, false, first), [writer, direct], 1, map[p := 1]);
    var s1 := Pair(p, Row(Waiting, false, second), [writer, direct], 2, map[p := 1]);
    var s2 := Pair(p, Row(Waiting, false, patched), [loader, direct], 2, map[p := 1]);
    var s3 := Pair(p, Row(Waiting, false, patched), [claimer, direct], 2, map[p := 1]);
    var s4 := Pair(p, Row(Running, false, patched), [winner, direct], 2, map[p := 2]);
    steps := [SetRow(p, Row(Waiting, false, second)), WritePatch(0), LoadRow(0), ClaimRow(0)];
    assert Next(s0, steps[0]) == s1;
    assert Next(s1, steps[1]) == s2;
    assert Next(s2, steps[2]) == s3;
    assert Next(s3, steps[3]) == s4;
    states := [s0, s1, s2, s3, s4];
    assert states[1..] == [s1, s2, s3, s4] && steps[1..] == [WritePatch(0), LoadRow(0), ClaimRow(0)];
    assert !FreshEpoch(s1, p) by {
      assert s1.agents[0].target == p && s1.agents[0].pc.PatchWrite?;
    }
  }

  /** Unsafe epochs are reached: the patch is written without looking at the row again, so a child
      that read in one epoch can write in the next and win it, whatever the data of the two. */
  lemma StaleWriteCrossesEpochs(p: ExecutionId, child: ExecutionId, first: ExecutionData, second: ExecutionData,
                                output: Output)
    returns (states: seq<State>, steps: seq<Step>)
    requires |first.stack| > 0
    ensures |steps| == 9 && IsRun(states, steps) && FreshEpoch(states[0], p)
    ensures IsWaiting(states[6], p) && states[6].rows[p].data == second
    ensures IsReportedWin(states[6], p, states[6..], steps[6..])
    ensures p in states[9].rows && states[9].rows[p].data == Patch(first, Result(output), child)
    ensures !RunsOnAReport(PastResumes(states[6]), states[9], p, second)
  {
    hide Next, Enabled, RunsOnAReport, Patch, FreshEpoch;
    var before, earlier := FirstEpochIsLost(p, child, first, output);
    var after, later := SecondEpochIsOverwritten(p, child, first, second, output);
    states, steps := before + after[1..], earlier + later;
    JoinedRun(before, earlier, after, later);
    assert states[6..] == after[1..] && steps[6..] == later[1..] && states[9] == after[4];
    PastChildDeliversNothing(states[6], states[9], p, second);
  }

  lemma JoinedRun(before: seq<State>, earlier: seq<Step>, after: seq<State>, later: seq<Step>)
    requires IsRun(before, earlier) && IsRun(after, later) && after[0] == before[|earlier|]
    ensures IsRun(before + after[1..], earlier + later)
  {
    var states, steps, k := before + after[1..], earlier + later, |earlier|;
    forall n | 0 <= n < |steps|
      ensures Enabled(states[n], steps[n]) && states[n + 1] == Next(states[n], steps[n])
    {
      if n < k {
        assert states[n] == before[n] && states[n + 1] == before[n + 1] && steps[n] == earlier[n];
      } else {
        assert states[n] == after[n - k] && states[n + 1] == after[n - k + 1] && steps[n] == later[n - k];
      }
    }
  }

  /** With all resumes past and no new one, nothing has been reported since. */
  lemma PastChildDeliversNothing(begin: State, end: State, p: ExecutionId, d0: ExecutionData)
    requires |end.agents| == |begin.agents|
    requires forall i | 0 <= i < |begin.agents| :: !begin.agents[i].pc.AwaitChild?
    ensures !RunsOnAReport(PastResumes(begin), end, p, d0)
  {}

  /** The child patches the first epoch, then the direct resume wins it. */
  lemma PatchedEpochIsLost(p: ExecutionId, child: ExecutionId, first: ExecutionData, output: Output)
    returns (states: seq<State>, steps: seq<Step>)
    requires |first.stack| > 0
    ensures |steps| == 6 && IsRun(states, steps) && FreshEpoch(states[0], p) && states[0].rows[p].data == first
    ensures var patched := Patch(first, Result(output), child);
            states[6] == Pair(p, Row(Running, false, patched),
                              [FromChild(p, child, output, Load(1)), Direct(p, Started(1, patched))],
                              1, map[p := 1])
  {
    hide ShouldRestart, AfterFailure;
    var patched := Patch(first, Result(output), child);
    var waiting := Row(Waiting, false, first);
    var loader := FromChild(p, child, output, Load(1));
    var s0 := Pair(p, waiting, [Agent(p, Some(child), Nothing, AwaitChild)], 1, map[]);
    var s1 := Pair(p, waiting, [FromChild(p, child, output, PatchRead(1))], 1, map[]);
    var s2 := Pair(p, waiting, [FromChild(p, child, output, PatchWrite(1, patched))], 1, map[]);
    var s3 := Pair(p, Row(Waiting, false, patched), [loader], 1, map[]);
    var s4 := Pair(p, Row(Waiting, false, patched), [loader, Direct(p, Load(1))], 1, map[]);
    var s5 := Pair(p, Row(Waiting, false, patched), [loader, Direct(p, Claim(1, patched))], 1, map[]);
    var s6 := Pair(p, Row(Running, false, patched), [loader, Direct(p, Started(1, patched))], 1, map[p := 1]);
    steps := [Settle(0, Some(Result(output))), ReadPatch(0), WritePatch(0), StartDirectly(p), LoadRow(1), ClaimRow(1)];
    assert Next(s0, steps[0]) == s1;
    assert Next(s1, steps[1]) == s2;
    assert Next(s2, steps[2]) == s3;
    assert Next(s3, steps[3]) == s4;
    assert Next(s4, steps[4]) == s5;
    assert Next(s5, steps[5]) == s6;
    states := [s0, s1, s2, s3, s4, s5, s6];
  }

  /** The parent waits again; the child loads and wins with the row as it is. */
  lemma SecondEpochIsTaken(p: ExecutionId, child: ExecutionId, patched: ExecutionData, second: ExecutionData,
                           output: Output)
    returns (states: seq<State>, steps: seq<Step>)
    ensures |steps| == 3 && IsRun(states, steps)
    ensures states[0] == Pair(p, Row(Running, false, patched),
                              [FromChild(p, child, output, Load(1)), Direct(p, Started(1, patched))],
                              1, map[p := 1])
    ensures IsWaiting(states[1], p) && states[1].rows[p].data == second
    ensures IsReportedWin(states[1], p, states[1..], steps[1..])
    ensures p in states[3].rows && states[3].rows[p].data == second
    ensures |states[1].agents| == |states[3].agents| == 2
    ensures !states[1].agents[0].pc.AwaitChild? && !states[1].agents[1].pc.AwaitChild?
  {
    hide Patch, ShouldRestart, AfterFailure;
    var direct := Direct(p, Started(1, patched));
    var loader, claimer := FromChild(p, child, output, Load(1)), FromChild(p, child, output, Claim(1, second));
    var winner := FromChild(p, child, output, Started(1, second));
    var s0 := Pair(p, Row(Running, false, patched), [loader, direct], 1, map[p := 1]);
    var s1 := Pair(p, Row(Waiting, false, second), [loader, direct], 2, map[p := 1]);
    var s2 := Pair(p, Row(Waiting, false, second), [claimer, direct], 2, map[p := 1]);
    var s3 := Pair(p, Row(Running, false, second), [winner, direct], 2, map[p := 2]);
    steps := [SetRow(p, Row(Waiting, false, second)), LoadRow(0), ClaimRow(0)];
    assert Next(s0, steps[0]) == s1;
    assert Next(s1, steps[1]) == s2;
    assert Next(s2, steps[2]) == s3;
    states := [s0, s1, s2, s3];
    assert states[1..] == [s1, s2, s3] && steps[1..] == [LoadRow(0), ClaimRow(0)];
  }

  /** The other way in: a child that has patched in one epoch loads in the next. It wins with the
      row unchanged, even when its own output happens to be on the stack head. */
  lemma LateLoadDeliversNothing(p: ExecutionId, child: ExecutionId, first: ExecutionData, second: ExecutionData,
                                output: Output)
    returns (states: seq<State>, steps: seq<Step>)
    requires |first.stack| > 0
    ensures |steps| == 9 && IsRun(states, steps) && FreshEpoch(states[0], p)
    ensures IsWaiting(states[7], p) && states[7].rows[p].data == second
    ensures IsReportedWin(states[7], p, states[7..], steps[7..])
    ensures p in states[9].rows && states[9].rows[p].data == second
    ensures !RunsOnAReport(PastResumes(states[7]), states[9], p, second)
  {
    hide Next, Enabled, RunsOnAReport, Patch, FreshEpoch;
    var before, earlier := PatchedEpochIsLost(p, child, first, output);
    var after, later := SecondEpochIsTaken(p, child, Patch(first, Result(output), child), second, output);
    states, steps := before + after[1..], earlier + later;
    JoinedRun(before, earlier, after, later);
    assert states[7..] == after[1..] && steps[7..] == later[1..] && states[9] == after[3];
    PastChildDeliversNothing(states[7], states[9], p, second);
  }
}
