/** The queue of workflows whose activation is retried with capped exponential backoff. */
module ActivationQueue {
  import opened Common

  type WorkflowId = nat
  type TimerId = nat

  const WORKFLOW_REACTIVATE_INITIAL_TIMEOUT := 1000
  const WORKFLOW_REACTIVATE_MAX_TIMEOUT := 24 * 60 * 60 * 1000

  datatype Entry = Entry(lastTimeout: int, timer: TimerId)
  datatype Attempt = Attempt(workflow: WorkflowId, open: bool)

  /** `armed` holds the timers that will still fire; `attempts` the retries begun so far;
      `failures` counts the non-isolate failures of a workflow since it was queued. */
  datatype Queue = Queue(
    entries: map<WorkflowId, Entry>,
    armed: map<TimerId, WorkflowId>,
    nextTimer: TimerId,
    attempts: seq<Attempt>,
    failures: map<WorkflowId, nat>)

  const EMPTY := Queue(map[], map[], 0, [], map[])

  function RemoveQueued(q: Queue, w: WorkflowId): Queue {
    if w !in q.entries then q
    else q.(armed := q.armed - {q.entries[w].timer}, entries := q.entries - {w})
  }

  function AddQueued(q: Queue, w: WorkflowId): Queue {
    var r := RemoveQueued(q, w);
    r.(entries := r.entries[w := Entry(WORKFLOW_REACTIVATE_INITIAL_TIMEOUT, r.nextTimer)],
       armed := r.armed[r.nextTimer := w],
       nextTimer := r.nextTimer + 1,
       failures := r.failures[w := 0])
  }

  /** The timer fires and `retryFunction` starts its call of `add`. */
  function Fire(q: Queue, t: TimerId): Queue
    requires t in q.armed
  {
    q.(armed := q.armed - {t}, attempts := q.attempts + [Attempt(q.armed[t], true)])
  }

  predicate IsOpen(q: Queue, a: nat) {
    a < |q.attempts| && q.attempts[a].open
  }

  function Close(q: Queue, a: nat): Queue
    requires a < |q.attempts|
  {
    q.(attempts := q.attempts[a := q.attempts[a].(open := false)])
  }

  function NextTimeout(last: int, isolate: bool): int {
    if !isolate && last < WORKFLOW_REACTIVATE_MAX_TIMEOUT
    then (if last * 2 < WORKFLOW_REACTIVATE_MAX_TIMEOUT then last * 2 else WORKFLOW_REACTIVATE_MAX_TIMEOUT)
    else last
  }

  /** The attempt threw: the entry, if there still is one, gets a new timer. */
  function FinishFailed(q: Queue, a: nat, isolate: bool): Queue
    requires a < |q.attempts|
  {
    var w, r := q.attempts[a].workflow, Close(q, a);
    if w !in r.entries then r
    else
      r.(entries := r.entries[w := Entry(NextTimeout(r.entries[w].lastTimeout, isolate), r.nextTimer)],
         armed := r.armed[r.nextTimer := w],
         nextTimer := r.nextTimer + 1,
         failures := if isolate then r.failures
                     else r.failures[w := (if w in r.failures then r.failures[w] else 0) + 1])
  }

  datatype Step =
    | Enqueue(w: WorkflowId)
    | Dequeue(w: WorkflowId)
    | FireTimer(t: TimerId)
    /** `add` returned: it activated the workflow and dequeued it, or skipped it. */
    | Succeed(a: nat, activated: bool)
    | FailAttempt(a: nat, isolate: bool)

  predicate Enabled(q: Queue, step: Step) {
    match step
    case FireTimer(t) => t in q.armed
    case Succeed(a, _) => IsOpen(q, a)
    case FailAttempt(a, _) => IsOpen(q, a)
    case _ => true
  }

  function Next(q: Queue, step: Step): Queue
    requires Enabled(q, step)
  {
    match step
    case Enqueue(w) => AddQueued(q, w)
    case Dequeue(w) => RemoveQueued(q, w)
    case FireTimer(t) => Fire(q, t)
    case Succeed(a, activated) => if activated then RemoveQueued(Close(q, a), q.attempts[a].workflow) else Close(q, a)
    case FailAttempt(a, isolate) => FinishFailed(q, a, isolate)
  }

  ghost predicate IsRun(states: seq<Queue>, steps: seq<Step>) {
    && |states| == |steps| + 1
    && forall n | 0 <= n < |steps| :: Enabled(states[n], steps[n]) && states[n + 1] == Next(states[n], steps[n])
  }

  // ---- Backoff -------------------------------------------------------------

  /** min(1000 * 2^m, one day) */
  function Delay(m: nat): int {
    if 1000 * Pow2(m) < WORKFLOW_REACTIVATE_MAX_TIMEOUT then 1000 * Pow2(m) else WORKFLOW_REACTIVATE_MAX_TIMEOUT
  }

  lemma DelayDoubles(m: nat)
    ensures NextTimeout(Delay(m), false) == Delay(m + 1) && NextTimeout(Delay(m), true) == Delay(m)
    ensures Delay(m) <= Delay(m + 1)
  {
    assert Pow2(m + 1) == 2 * Pow2(m);
  }

  ghost predicate BackedOff(q: Queue) {
    forall w :: w in q.entries ==> w in q.failures && q.entries[w].lastTimeout == Delay(q.failures[w])
  }

  lemma StepKeepsBackoff(q: Queue, step: Step)
    requires Enabled(q, step) && BackedOff(q)
    ensures BackedOff(Next(q, step))
  {
    if step.FailAttempt? && q.attempts[step.a].workflow in q.entries {
      DelayDoubles(q.failures[q.attempts[step.a].workflow]);
    }
    assert Delay(0) == 1000 by { assert Pow2(0) == 1; }
  }

  /** In every run, attempts overlapping as they may: after m non-isolate failures since it
      was queued, a workflow's delay is min(1000 * 2^m, one day). */
  lemma {:induction false} DelayIsCappedDoubling(states: seq<Queue>, steps: seq<Step>)
    requires IsRun(states, steps) && states[0] == EMPTY
    ensures BackedOff(states[|steps|])
  {
    if steps != [] {
      var n := |steps| - 1;
      assert IsRun(states[..n + 1], steps[..n]);
      DelayIsCappedDoubling(states[..n + 1], steps[..n]);
      assert states[n + 1] == Next(states[n], steps[n]);
      StepKeepsBackoff(states[n], steps[n]);
    }
  }

  /** The delay of a workflow that stays queued never shrinks. */
  lemma DelayNeverShrinks(q: Queue, step: Step, w: WorkflowId)
    requires Enabled(q, step) && BackedOff(q) && w in q.entries && w in Next(q, step).entries && step != Enqueue(w)
    ensures Next(q, step).entries[w].lastTimeout >= q.entries[w].lastTimeout
  {
    DelayDoubles(q.failures[w]);
  }

  /** A workflow leaves the queue only by being removed, or by an attempt that activated it. */
  predicate Leaves(q: Queue, step: Step, w: WorkflowId) {
    || step == Step.Dequeue(w)
    || (step.Succeed? && step.activated && step.a < |q.attempts| && q.attempts[step.a].workflow == w)
  }

  lemma LeavesIff(q: Queue, step: Step, w: WorkflowId)
    requires Enabled(q, step)
    ensures w in Next(q, step).entries <==> step == Enqueue(w) || (w in q.entries && !Leaves(q, step, w))
  {}

  ghost predicate StaysSince(states: seq<Queue>, steps: seq<Step>, w: WorkflowId, n: int)
    requires |states| == |steps| + 1 && 0 <= n
  {
    forall m | n < m < |steps| :: !Leaves(states[m], steps[m], w)
  }

  /** In every run a workflow is queued exactly if it was queued and has not left since. */
  lemma {:induction false} QueuedIff(states: seq<Queue>, steps: seq<Step>, w: WorkflowId)
    requires IsRun(states, steps) && states[0] == EMPTY
    ensures w in states[|steps|].entries <==>
      exists n :: 0 <= n < |steps| && steps[n] == Enqueue(w) && StaysSince(states, steps, w, n)
  {
    if steps != [] {
      var n := |steps| - 1;
      assert IsRun(states[..n + 1], steps[..n]);
      QueuedIff(states[..n + 1], steps[..n], w);
      assert states[n + 1] == Next(states[n], steps[n]);
      LeavesIff(states[n], steps[n], w);
      if w in states[n].entries && !Leaves(states[n], steps[n], w) {
        var k :| 0 <= k < n && steps[..n][k] == Enqueue(w) && StaysSince(states[..n + 1], steps[..n], w, k);
        assert steps[k] == Enqueue(w);
        forall m | k < m < |steps|
          ensures !Leaves(states[m], steps[m], w)
        {
          if m < n { assert !Leaves(states[..n + 1][m], steps[..n][m], w); }
        }
      }
      if k :| 0 <= k < |steps| && steps[k] == Enqueue(w) && StaysSince(states, steps, w, k) {
        if k < n {
          assert steps[..n][k] == Enqueue(w);
          forall m | k < m < n
            ensures !Leaves(states[..n + 1][m], steps[..n][m], w)
          {
            assert !Leaves(states[m], steps[m], w);
          }
        }
      }
    }
  }

  // ---- At most one timer ------------------------------------------------------

  /** Every armed timer is the one recorded in its workflow's entry, so no workflow has two. */
  ghost predicate TimersOwned(q: Queue) {
    && (forall t :: t in q.armed ==> t < q.nextTimer && q.armed[t] in q.entries && q.entries[q.armed[t]].timer == t)
    && (forall w :: w in q.entries ==> q.entries[w].timer < q.nextTimer)
  }

  lemma AtMostOneTimer(q: Queue, t: TimerId, u: TimerId)
    requires TimersOwned(q) && t in q.armed && u in q.armed && q.armed[t] == q.armed[u]
    ensures t == u
  {}

  /** The failing attempt overwrites the timer of an entry that was queued again meanwhile. */
  predicate Overwrites(q: Queue, step: Step) {
    && step.FailAttempt? && step.a < |q.attempts|
    && var w := q.attempts[step.a].workflow;
       w in q.entries && q.entries[w].timer in q.armed && q.armed[q.entries[w].timer] == w
  }

  /** Exactly then a second timer is armed for the workflow. */
  lemma TimersOwnedIff(q: Queue, step: Step)
    requires Enabled(q, step) && TimersOwned(q)
    ensures TimersOwned(Next(q, step)) <==> !Overwrites(q, step)
  {
    var next := Next(q, step);
    if Overwrites(q, step) {
      var w := q.attempts[step.a].workflow;
      var t := q.entries[w].timer;
      assert t in next.armed && next.armed[t] == q.armed[t] == w && next.entries[w].timer != t;
    }
  }

  /** Timer ids are not reused, and the timer of an entry, if armed, is armed for it. */
  ghost predicate WellTimed(q: Queue) {
    && (forall t :: t in q.armed ==> t < q.nextTimer)
    && (forall w :: w in q.entries ==> q.entries[w].timer < q.nextTimer)
    && (forall w :: w in q.entries && q.entries[w].timer in q.armed ==> q.armed[q.entries[w].timer] == w)
  }

  /** How a call of `add` in a retry ends: activated, returned without activating (the workflow is
      archived, or no longer active in init and leadershipChange), or threw. */
  datatype Outcome = Activated | Skipped | Threw(isolate: bool)

  /** A retry that runs from timer to outcome without anything in between. */
  function RetryAtomically(q: Queue, t: TimerId, outcome: Outcome): Queue
    requires t in q.armed
  {
    var fired, a := Fire(q, t), |q.attempts|;
    match outcome
    case Activated => Next(fired, Succeed(a, true))
    case Skipped => Next(fired, Succeed(a, false))
    case Threw(isolate) => Next(fired, FailAttempt(a, isolate))
  }

  datatype AtomicStep = Add(w: WorkflowId) | Remove(w: WorkflowId) | Retry(t: TimerId, outcome: Outcome)

  predicate AtomicEnabled(q: Queue, step: AtomicStep) {
    step.Retry? ==> step.t in q.armed
  }

  function AtomicNext(q: Queue, step: AtomicStep): Queue
    requires AtomicEnabled(q, step)
  {
    match step
    case Add(w) => AddQueued(q, w)
    case Remove(w) => RemoveQueued(q, w)
    case Retry(t, outcome) => RetryAtomically(q, t, outcome)
  }

  ghost predicate IsAtomicRun(states: seq<Queue>, steps: seq<AtomicStep>) {
    && |states| == |steps| + 1
    && forall n | 0 <= n < |steps| ::
         AtomicEnabled(states[n], steps[n]) && states[n + 1] == AtomicNext(states[n], steps[n])
  }

  predicate ArmedFor(q: Queue, w: WorkflowId, t: TimerId) {
    t in q.armed && q.armed[t] == w
  }

  /** Since `w` was last queued, its last retry was skipped. */
  ghost predicate LastRetrySkipped(states: seq<Queue>, steps: seq<AtomicStep>, w: WorkflowId)
    requires IsAtomicRun(states, steps)
  {
    if steps == [] then false
    else
      var n := |steps| - 1;
      match steps[n]
      case Retry(t, outcome) =>
        if states[n].armed[t] == w then outcome.Skipped? else LastRetrySkipped(states[..n + 1], steps[..n], w)
      case Add(added) => added != w && LastRetrySkipped(states[..n + 1], steps[..n], w)
      case Remove(_) => LastRetrySkipped(states[..n + 1], steps[..n], w)
  }

  lemma AtomicKeepsOwned(q: Queue, step: AtomicStep)
    requires AtomicEnabled(q, step) && TimersOwned(q) && WellTimed(q)
    ensures TimersOwned(AtomicNext(q, step)) && WellTimed(AtomicNext(q, step))
  {}

  /** What an atomic step does to the timer of a workflow that is queued afterwards. */
  lemma AtomicTimer(q: Queue, step: AtomicStep, w: WorkflowId)
    requires AtomicEnabled(q, step) && TimersOwned(q) && WellTimed(q) && w in AtomicNext(q, step).entries
    ensures var next := AtomicNext(q, step);
            match step
            case Add(added) =>
              if added == w then ArmedFor(next, w, next.entries[w].timer)
              else w in q.entries && next.entries[w] == q.entries[w]
                   && (ArmedFor(next, w, next.entries[w].timer) <==> ArmedFor(q, w, q.entries[w].timer))
            case Remove(_) =>
              && w in q.entries && next.entries[w] == q.entries[w]
              && (ArmedFor(next, w, next.entries[w].timer) <==> ArmedFor(q, w, q.entries[w].timer))
            case Retry(t, outcome) =>
              && w in q.entries
              && if q.armed[t] == w then ArmedFor(next, w, next.entries[w].timer) <==> !outcome.Skipped?
                 else ArmedFor(next, w, next.entries[w].timer) <==> ArmedFor(q, w, q.entries[w].timer)
  {}

  /** When retries are atomic, in every run each armed timer is the one of its workflow's entry, no
      workflow has two, and a queued workflow is without a timer if and only if its last retry was skipped. */
  lemma {:induction false} AtomicTimersIff(states: seq<Queue>, steps: seq<AtomicStep>, w: WorkflowId)
    requires IsAtomicRun(states, steps) && states[0] == EMPTY
    ensures TimersOwned(states[|steps|])
    ensures forall t, u :: ArmedFor(states[|steps|], w, t) && ArmedFor(states[|steps|], w, u) ==> t == u
    ensures w in states[|steps|].entries ==>
              (!HasTimer(states[|steps|], w) <==> LastRetrySkipped(states, steps, w))
  {
    AtomicEntryIff(states, steps, w);
    var q := states[|steps|];
    forall t, u | ArmedFor(q, w, t) && ArmedFor(q, w, u)
      ensures t == u
    {
      AtMostOneTimer(q, t, u);
    }
    if w in q.entries && HasTimer(q, w) {
      var t :| ArmedFor(q, w, t);
      assert t == q.entries[w].timer;
    }
  }

  ghost predicate HasTimer(q: Queue, w: WorkflowId) {
    exists t :: ArmedFor(q, w, t)
  }

  lemma {:induction false} AtomicEntryIff(states: seq<Queue>, steps: seq<AtomicStep>, w: WorkflowId)
    requires IsAtomicRun(states, steps) && states[0] == EMPTY
    ensures var q := states[|steps|];
            && TimersOwned(q) && WellTimed(q)
            && (w in q.entries ==> (ArmedFor(q, w, q.entries[w].timer) <==> !LastRetrySkipped(states, steps, w)))
  {
    if steps != [] {
      var n := |steps| - 1;
      assert IsAtomicRun(states[..n + 1], steps[..n]);
      AtomicEntryIff(states[..n + 1], steps[..n], w);
      assert states[n + 1] == AtomicNext(states[n], steps[n]);
      AtomicKeepsOwned(states[n], steps[n]);
      if w in states[n + 1].entries { AtomicTimer(states[n], steps[n], w); }
    }
  }

  /** Queued, but with no timer and no attempt in flight. */
  ghost predicate Forgotten(q: Queue, w: WorkflowId) {
    && w in q.entries && !HasTimer(q, w)
    && forall a :: 0 <= a < |q.attempts| && q.attempts[a].open ==> q.attempts[a].workflow != w
  }

  /** A skipped retry leaves its workflow queued but forgotten, if it was the only one under way. */
  lemma SkippedIsForgottenIff(q: Queue, a: nat)
    requires IsOpen(q, a) && q.attempts[a].workflow in q.entries
    ensures var w := q.attempts[a].workflow;
            Forgotten(Next(q, Succeed(a, false)), w) <==>
              && !HasTimer(q, w)
              && forall b :: 0 <= b < |q.attempts| && q.attempts[b].open && b != a ==> q.attempts[b].workflow != w
  {
    var w, next := q.attempts[a].workflow, Next(q, Succeed(a, false));
    assert forall t :: ArmedFor(next, w, t) <==> ArmedFor(q, w, t);
    assert forall b :: 0 <= b < |q.attempts| ==> next.attempts[b].open == (q.attempts[b].open && b != a);
    assert forall b :: 0 <= b < |q.attempts| ==> next.attempts[b].workflow == q.attempts[b].workflow;
  }

  /** A forgotten workflow stays queued and is never tried again, through everything but queueing
      or removing that very workflow. */
  lemma {:induction false} ForgottenIsNeverRetried(states: seq<Queue>, steps: seq<Step>, w: WorkflowId)
    requires IsRun(states, steps) && Forgotten(states[0], w)
    requires forall n | 0 <= n < |steps| :: steps[n] != Enqueue(w) && steps[n] != Step.Dequeue(w)
    ensures Forgotten(states[|steps|], w)
  {
    if steps != [] {
      var n := |steps| - 1;
      assert IsRun(states[..n + 1], steps[..n]);
      ForgottenIsNeverRetried(states[..n + 1], steps[..n], w);
      assert states[n + 1] == Next(states[n], steps[n]);
      ForgottenStays(states[n], steps[n], w);
    }
  }

  lemma ForgottenStays(q: Queue, step: Step, w: WorkflowId)
    requires Enabled(q, step) && Forgotten(q, w) && step != Enqueue(w) && step != Step.Dequeue(w)
    ensures Forgotten(Next(q, step), w)
  {
    var next := Next(q, step);
    if step.FireTimer? { assert !ArmedFor(q, w, step.t); }
    forall t
      ensures !ArmedFor(next, w, t)
    {
      assert !ArmedFor(q, w, t);
    }
  }

  /** In every run with overlapping attempts timers stay owned as long as no attempt fails
      after its workflow was queued again. */
  lemma {:induction false} TimersStayOwned(states: seq<Queue>, steps: seq<Step>)
    requires IsRun(states, steps) && states[0] == EMPTY
    requires forall n | 0 <= n < |steps| :: !Overwrites(states[n], steps[n])
    ensures TimersOwned(states[|steps|])
  {
    if steps != [] {
      var n := |steps| - 1;
      assert IsRun(states[..n + 1], steps[..n]);
      TimersStayOwned(states[..n + 1], steps[..n]);
      assert states[n + 1] == Next(states[n], steps[n]);
      TimersOwnedIff(states[n], steps[n]);
    }
  }

  // ---- Removal during an attempt ----------------------------------------------

  ghost predicate Gone(q: Queue, w: WorkflowId) {
    w !in q.entries && forall t :: t in q.armed ==> q.armed[t] != w
  }

  /** From the removal of a workflow on, unless it is queued again, it has no entry and no timer is
      armed for it that was not armed before, whatever attempts were in flight. */
  lemma {:induction false} RemovedIsNeverRearmed(states: seq<Queue>, steps: seq<Step>, w: WorkflowId)
    requires IsRun(states, steps) && |steps| > 0 && steps[0] == Dequeue(w)
    requires forall n | 0 <= n < |steps| :: steps[n] != Enqueue(w)
    ensures w !in states[|steps|].entries
    ensures forall t :: ArmedFor(states[|steps|], w, t) ==> ArmedFor(states[0], w, t)
  {
    var n := |steps| - 1;
    assert states[n + 1] == Next(states[n], steps[n]);
    if n > 0 {
      assert IsRun(states[..n + 1], steps[..n]);
      RemovedIsNeverRearmed(states[..n + 1], steps[..n], w);
    }
  }

  lemma {:induction false} RunIsWellTimed(states: seq<Queue>, steps: seq<Step>)
    requires IsRun(states, steps) && WellTimed(states[0])
    ensures WellTimed(states[|steps|])
  {
    if steps != [] {
      var n := |steps| - 1;
      assert IsRun(states[..n + 1], steps[..n]);
      RunIsWellTimed(states[..n + 1], steps[..n]);
      assert states[n + 1] == Next(states[n], steps[n]);
    }
  }

  /** A timer of `w` other than the one its entry records. */
  predicate Orphan(q: Queue, w: WorkflowId, t: TimerId) {
    ArmedFor(q, w, t) && !(w in q.entries && q.entries[w].timer == t)
  }

  /** The timers armed for a removed workflow are exactly the orphans it had that have not fired. */
  lemma {:induction false} OrphansRemain(states: seq<Queue>, steps: seq<Step>, w: WorkflowId, t: TimerId)
    requires IsRun(states, steps) && WellTimed(states[0]) && |steps| > 0 && steps[0] == Dequeue(w)
    requires forall n | 0 <= n < |steps| :: steps[n] != Enqueue(w)
    ensures WellTimed(states[|steps|]) && w !in states[|steps|].entries
    ensures ArmedFor(states[|steps|], w, t) <==> Orphan(states[0], w, t) && FireTimer(t) !in steps
  {
    var n := |steps| - 1;
    assert states[n + 1] == Next(states[n], steps[n]);
    assert steps == steps[..n] + [steps[n]];
    if n > 0 {
      assert IsRun(states[..n + 1], steps[..n]);
      OrphansRemain(states[..n + 1], steps[..n], w, t);
    }
    StepKeepsOrphans(states[n], steps[n], w, t);
  }

  lemma StepKeepsOrphans(q: Queue, step: Step, w: WorkflowId, t: TimerId)
    requires Enabled(q, step) && WellTimed(q) && step != Enqueue(w) && (w !in q.entries || step == Step.Dequeue(w))
    ensures WellTimed(Next(q, step)) && w !in Next(q, step).entries
    ensures ArmedFor(Next(q, step), w, t) <==> Orphan(q, w, t) && step != FireTimer(t)
  {}

  /** A workflow removed during any attempts is gone for good if and only if every orphaned timer
      it had has fired; until then such a timer will call `add` for it. */
  lemma RemovedIsGoneIff(states: seq<Queue>, steps: seq<Step>, w: WorkflowId)
    requires IsRun(states, steps) && WellTimed(states[0]) && |steps| > 0 && steps[0] == Dequeue(w)
    requires forall n | 0 <= n < |steps| :: steps[n] != Enqueue(w)
    ensures Gone(states[|steps|], w) <==> forall t :: Orphan(states[0], w, t) ==> FireTimer(t) in steps
  {
    var q := states[|steps|];
    forall t
      ensures ArmedFor(q, w, t) <==> Orphan(states[0], w, t) && FireTimer(t) !in steps
    {
      OrphansRemain(states, steps, w, t);
    }
    OrphansRemain(states, steps, w, 0);
    if !Gone(q, w) {
      var t :| t in q.armed && q.armed[t] == w;
      assert ArmedFor(q, w, t);
    } else {
      forall t | Orphan(states[0], w, t)
        ensures FireTimer(t) in steps
      {
        assert !ArmedFor(q, w, t);
      }
    }
  }

  class QueuedActivations {
    var queuedActivations: map<WorkflowId, Entry>
    var armed: map<TimerId, WorkflowId>
    var nextTimer: TimerId
    var attempts: seq<Attempt>
    ghost var failures: map<WorkflowId, nat>

    ghost function Model(): Queue
      reads this
    {
      Queue(queuedActivations, armed, nextTimer, attempts, failures)
    }

    constructor ()
      ensures Model() == EMPTY
    {
      queuedActivations, armed, nextTimer, attempts, failures := map[], map[], 0, [], map[];
    }

    method SetTimeout(w: WorkflowId) returns (t: TimerId)
      modifies this`armed, this`nextTimer
      ensures t == old(nextTimer) && nextTimer == t + 1 && armed == old(armed)[t := w]
    {
      t := nextTimer;
      armed := armed[t := w];
      nextTimer := nextTimer + 1;
    }

    method RemoveQueuedWorkflowActivation(w: WorkflowId)
      modifies this
      ensures Model() == Next(old(Model()), Step.Dequeue(w))
      ensures queuedActivations == old(queuedActivations) - {w}
      ensures armed == if w in old(queuedActivations) then old(armed) - {old(queuedActivations)[w].timer}
                       else old(armed)
    {
      if w in queuedActivations {
        armed := armed - {queuedActivations[w].timer};
        queuedActivations := queuedActivations - {w};
      }
    }

    method AddQueuedWorkflowActivation(w: WorkflowId)
      modifies this
      ensures Model() == Next(old(Model()), Step.Enqueue(w))
      ensures w in queuedActivations && queuedActivations[w].lastTimeout == 1000
      ensures ArmedFor(Model(), w, queuedActivations[w].timer) && queuedActivations[w].timer == old(nextTimer)
      ensures queuedActivations - {w} == old(queuedActivations) - {w}
      ensures w in old(queuedActivations) && old(queuedActivations)[w].timer < old(nextTimer) ==>
                old(queuedActivations)[w].timer !in armed
    {
      RemoveQueuedWorkflowActivation(w);
      var t := SetTimeout(w);
      queuedActivations := queuedActivations[w := Entry(WORKFLOW_REACTIVATE_INITIAL_TIMEOUT, t)];
      failures := failures[w := 0];
    }

    method TimerFires(t: TimerId) returns (a: nat)
      requires t in armed
      modifies this
      ensures Model() == Next(old(Model()), FireTimer(t)) && IsOpen(Model(), a)
      ensures queuedActivations == old(queuedActivations) && armed == old(armed) - {t}
      ensures attempts == old(attempts) + [Attempt(old(armed)[t], true)]
    {
      a := |attempts|;
      attempts := attempts + [Attempt(armed[t], true)];
      armed := armed - {t};
    }

    method AttemptReturns(a: nat, activated: bool)
      requires IsOpen(Model(), a)
      modifies this
      ensures Model() == Next(old(Model()), Succeed(a, activated)) && !IsOpen(Model(), a)
      ensures !activated ==> queuedActivations == old(queuedActivations) && armed == old(armed)
      ensures activated ==> queuedActivations == old(queuedActivations) - {old(attempts[a].workflow)}
      ensures activated && old(attempts[a].workflow) in old(queuedActivations) ==>
                armed == old(armed) - {old(queuedActivations)[old(attempts[a].workflow)].timer}
      ensures activated && old(attempts[a].workflow) !in old(queuedActivations) ==> armed == old(armed)
    {
      attempts := attempts[a := attempts[a].(open := false)];
      if activated {
        RemoveQueuedWorkflowActivation(attempts[a].workflow);
      }
    }

    method AttemptThrows(a: nat, isolate: bool)
      requires IsOpen(Model(), a)
      modifies this
      ensures Model() == Next(old(Model()), FailAttempt(a, isolate)) && !IsOpen(Model(), a)
      ensures old(attempts[a].workflow) !in old(queuedActivations) ==>
                queuedActivations == old(queuedActivations) && armed == old(armed)
      ensures var w := old(attempts[a].workflow);
              w in old(queuedActivations) ==>
                && w in queuedActivations && ArmedFor(Model(), w, queuedActivations[w].timer)
                && queuedActivations[w].timer == old(nextTimer)
                && queuedActivations - {w} == old(queuedActivations) - {w}
                && armed - {old(nextTimer)} == old(armed) - {old(nextTimer)}
                && var was := old(queuedActivations)[w].lastTimeout;
                   queuedActivations[w].lastTimeout ==
                     if isolate || was >= 86400000 then was else if 2 * was < 86400000 then 2 * was else 86400000
    {
      var w := attempts[a].workflow;
      attempts := attempts[a := attempts[a].(open := false)];
      if w !in queuedActivations {
        return;
      }
      var lastTimeout := queuedActivations[w].lastTimeout;
      if !isolate && lastTimeout < WORKFLOW_REACTIVATE_MAX_TIMEOUT {
        lastTimeout := if lastTimeout * 2 < WORKFLOW_REACTIVATE_MAX_TIMEOUT then lastTimeout * 2
                       else WORKFLOW_REACTIVATE_MAX_TIMEOUT;
      }
      var t := SetTimeout(w);
      queuedActivations := queuedActivations[w := Entry(lastTimeout, t)];
      if !isolate {
        failures := failures[w := (if w in failures then failures[w] else 0) + 1];
      }
    }

    /** `keys` is the order in which the engine enumerates the queue. */
    method RemoveAllQueuedWorkflowActivations(keys: seq<WorkflowId>)
      requires forall w :: w in keys <==> w in queuedActivations
      modifies this
      ensures queuedActivations == map[] && attempts == old(attempts)
      ensures old(TimersOwned(Model())) ==> armed == map[]
    {
      for i := 0 to |keys|
        invariant attempts == old(attempts)
        invariant forall w :: w in queuedActivations ==> w in keys[i..]
        invariant old(TimersOwned(Model())) ==> TimersOwned(Model())
      {
        TimersOwnedIffAlways(Model(), Step.Dequeue(keys[i]));
        RemoveQueuedWorkflowActivation(keys[i]);
      }
    }
  }

  lemma TimersOwnedIffAlways(q: Queue, step: Step)
    requires Enabled(q, step)
    ensures TimersOwned(q) && !Overwrites(q, step) ==> TimersOwned(Next(q, step))
  {
    if TimersOwned(q) { TimersOwnedIff(q, step); }
  }
}
