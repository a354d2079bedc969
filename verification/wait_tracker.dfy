/** Timers of waiting executions, and the bounded retry with exponential backoff. */
module WaitTracker {
  import opened Common

  type ExecutionId = nat
  type TimerId = nat

  datatype Timer = Timer(id: ExecutionId, due: int)
  datatype WaitingRow = WaitingRow(id: ExecutionId, waitTill: int)

  /** `entries` is `waitingExecutions`; `armed` holds the timers that will still fire. */
  datatype Tracker = Tracker(entries: map<ExecutionId, TimerId>, armed: map<TimerId, Timer>, nextTimer: TimerId)

  const EMPTY := Tracker(map[], map[], 0)

  function Track(tr: Tracker, row: WaitingRow): Tracker {
    if row.id in tr.entries then tr
    else
      var timer := Timer(row.id, row.waitTill);
      Tracker(tr.entries[row.id := tr.nextTimer], tr.armed[tr.nextTimer := timer], tr.nextTimer + 1)
  }

  /** The loop of `getWaitingExecutions` over the rows the query returned. */
  function Poll(tr: Tracker, rows: seq<WaitingRow>): Tracker {
    if rows == [] then tr else Track(Poll(tr, rows[..|rows| - 1]), rows[|rows| - 1])
  }

  function StopExecution(tr: Tracker, id: ExecutionId): Tracker {
    if id !in tr.entries then tr
    else tr.(armed := tr.armed - {tr.entries[id]}, entries := tr.entries - {id})
  }

  /** Resuming forgets the entry without clearing its timer. */
  function StartExecution(tr: Tracker, id: ExecutionId): Tracker {
    tr.(entries := tr.entries - {id})
  }

  function Fire(tr: Tracker, t: TimerId): Tracker
    requires t in tr.armed
  {
    StartExecution(tr.(armed := tr.armed - {t}), tr.armed[t].id)
  }

  /** Losing leadership clears the timers of all entries but keeps the entries. */
  function StopTracking(tr: Tracker): Tracker {
    tr.(armed := map t | t in tr.armed && t !in tr.entries.Values :: tr.armed[t])
  }

  datatype Step =
    | PollStep(rows: seq<WaitingRow>)
    | StopStep(id: ExecutionId)
    | StartStep(id: ExecutionId)
    | FireStep(t: TimerId)
    | StepDown

  predicate Enabled(tr: Tracker, step: Step) {
    step.FireStep? ==> step.t in tr.armed
  }

  function Next(tr: Tracker, step: Step): Tracker
    requires Enabled(tr, step)
  {
    match step
    case PollStep(rows) => Poll(tr, rows)
    case StopStep(id) => StopExecution(tr, id)
    case StartStep(id) => StartExecution(tr, id)
    case FireStep(t) => Fire(tr, t)
    case StepDown => StopTracking(tr)
  }

  ghost predicate IsRun(states: seq<Tracker>, steps: seq<Step>) {
    && |states| == |steps| + 1
    && forall n | 0 <= n < |steps| :: Enabled(states[n], steps[n]) && states[n + 1] == Next(states[n], steps[n])
  }

  ghost predicate HasTimer(tr: Tracker, id: ExecutionId) {
    exists t :: t in tr.armed && tr.armed[t].id == id
  }

  predicate FreshTimers(tr: Tracker) {
    && (forall t :: t in tr.armed ==> t < tr.nextTimer)
    && (forall id :: id in tr.entries ==> tr.entries[id] < tr.nextTimer)
  }

  lemma {:induction false} PollEffect(tr: Tracker, rows: seq<WaitingRow>, id: ExecutionId)
    requires FreshTimers(tr)
    ensures FreshTimers(Poll(tr, rows))
    ensures HasTimer(Poll(tr, rows), id) <==>
      HasTimer(tr, id) || (id !in tr.entries && exists row :: row in rows && row.id == id)
    ensures id in Poll(tr, rows).entries <==> id in tr.entries || exists row :: row in rows && row.id == id
  {
    if rows != [] {
      var init, row := rows[..|rows| - 1], rows[|rows| - 1];
      PollEffect(tr, init, id);
      assert rows == init + [row];
      var mid := Poll(tr, init);
      if row.id !in mid.entries {
        var after := Track(mid, row);
        assert after.armed[mid.nextTimer].id == row.id;
        forall t | t in mid.armed ensures t in after.armed && after.armed[t] == mid.armed[t] {}
      }
    }
  }

  /** A poll starts tracking every returned execution that is not tracked, with a timer that is due
      when the first row returned for it says; everything tracked or armed before stays. */
  lemma {:induction false} PollTracks(tr: Tracker, rows: seq<WaitingRow>, i: nat)
    requires FreshTimers(tr) && i < |rows| && rows[i].id !in tr.entries
    requires forall j | 0 <= j < i :: rows[j].id != rows[i].id
    ensures var after, id := Poll(tr, rows), rows[i].id;
            && FreshTimers(after) && id in after.entries && after.entries[id] in after.armed
            && after.armed[after.entries[id]] == Timer(id, rows[i].waitTill)
  {
    var n := |rows| - 1;
    PollEffect(tr, rows[..n], rows[i].id);
    if i < n {
      PollTracks(tr, rows[..n], i);
    } else {
      assert rows[..n] == rows[..i];
    }
  }

  lemma {:induction false} PollKeeps(tr: Tracker, rows: seq<WaitingRow>)
    requires FreshTimers(tr)
    ensures FreshTimers(Poll(tr, rows))
    ensures forall id :: id in tr.entries ==>
              id in Poll(tr, rows).entries && Poll(tr, rows).entries[id] == tr.entries[id]
    ensures forall t :: t in tr.armed ==> t in Poll(tr, rows).armed && Poll(tr, rows).armed[t] == tr.armed[t]
  {
    if rows != [] { PollKeeps(tr, rows[..|rows| - 1]); }
  }

  /** After a poll a returned execution has a timer if and only if it was not tracked before
      or its timer was still armed. */
  lemma {:induction false} PollArmsIff(tr: Tracker, rows: seq<WaitingRow>, row: WaitingRow)
    requires FreshTimers(tr) && row in rows
    ensures HasTimer(Poll(tr, rows), row.id) <==> row.id !in tr.entries || HasTimer(tr, row.id)
  {
    PollEffect(tr, rows, row.id);
  }

  ghost predicate EntriesArmed(tr: Tracker) {
    FreshTimers(tr) && forall id :: id in tr.entries ==> tr.entries[id] in tr.armed && tr.armed[tr.entries[id]].id == id
  }

  lemma {:induction false} PollKeepsArmed(tr: Tracker, rows: seq<WaitingRow>)
    requires EntriesArmed(tr)
    ensures EntriesArmed(Poll(tr, rows))
  {
    if rows != [] {
      PollKeepsArmed(tr, rows[..|rows| - 1]);
    }
  }

  /** As long as leadership is never lost, every poll leaves every returned execution with a timer. */
  lemma {:induction false} EveryPollArms(states: seq<Tracker>, steps: seq<Step>, rows: seq<WaitingRow>, row: WaitingRow)
    requires IsRun(states, steps) && states[0] == EMPTY && row in rows
    requires forall n | 0 <= n < |steps| :: !steps[n].StepDown?
    ensures EntriesArmed(states[|steps|]) && HasTimer(Poll(states[|steps|], rows), row.id)
  {
    if steps != [] {
      var n := |steps| - 1;
      assert IsRun(states[..n + 1], steps[..n]);
      EveryPollArms(states[..n + 1], steps[..n], rows, row);
      assert states[n + 1] == Next(states[n], steps[n]);
      if steps[n].PollStep? { PollKeepsArmed(states[n], steps[n].rows); }
    }
    PollArmsIff(states[|steps|], rows, row);
  }

  /** Tracked, but nothing will ever fire for it. */
  ghost predicate Stranded(tr: Tracker, id: ExecutionId) {
    id in tr.entries && !HasTimer(tr, id)
  }

  /** Losing leadership strands exactly the tracked executions without an orphaned timer. */
  lemma StepDownStrands(tr: Tracker, id: ExecutionId)
    requires EntriesArmed(tr) && id in tr.entries
    ensures Stranded(StopTracking(tr), id) <==>
      forall t :: t in tr.armed && tr.armed[t].id == id ==> t == tr.entries[id]
  {
    var after := StopTracking(tr);
    if !Stranded(after, id) {
      var t :| t in after.armed && after.armed[t].id == id;
      assert t != tr.entries[id];
    } else {
      forall t | t in tr.armed && tr.armed[t].id == id
        ensures t == tr.entries[id]
      {
        assert t !in after.armed;
        var other :| other in tr.entries && tr.entries[other] == t;
      }
    }
  }

  /** A stranded execution stays stranded through polls, leadership changes and everything else
      until it is itself stopped or resumed by some other path. */
  lemma StrandedStays(tr: Tracker, step: Step, id: ExecutionId)
    requires FreshTimers(tr) && Stranded(tr, id) && Enabled(tr, step)
    requires step != StopStep(id) && step != StartStep(id)
    ensures FreshTimers(Next(tr, step)) && Stranded(Next(tr, step), id)
  {
    if step.PollStep? { PollEffect(tr, step.rows, id); }
  }

  /** A step-down followed by any run of polls, leadership changes, and stops and starts of other
      executions: the tracked execution may be due, and no timer will ever start it. */
  lemma {:induction false} StrandedThroughRuns(tr: Tracker, id: ExecutionId, states: seq<Tracker>, steps: seq<Step>)
    requires EntriesArmed(tr) && id in tr.entries
    requires forall t :: t in tr.armed && tr.armed[t].id == id ==> t == tr.entries[id]
    requires IsRun(states, steps) && states[0] == StopTracking(tr)
    requires forall n | 0 <= n < |steps| :: steps[n] != StopStep(id) && steps[n] != StartStep(id)
    ensures FreshTimers(states[|steps|]) && Stranded(states[|steps|], id)
  {
    if steps == [] {
      StepDownStrands(tr, id);
    } else {
      var n := |steps| - 1;
      assert IsRun(states[..n + 1], steps[..n]);
      StrandedThroughRuns(tr, id, states[..n + 1], steps[..n]);
      assert states[n + 1] == Next(states[n], steps[n]);
      StrandedStays(states[n], steps[n], id);
    }
  }

  class WaitingExecutions {
    var waitingExecutions: map<ExecutionId, TimerId>
    var armed: map<TimerId, Timer>
    var nextTimer: TimerId

    ghost function Model(): Tracker
      reads this
    {
      Tracker(waitingExecutions, armed, nextTimer)
    }

    constructor ()
      ensures Model() == EMPTY
    {
      waitingExecutions, armed, nextTimer := map[], map[], 0;
    }

    method GetWaitingExecutions(rows: seq<WaitingRow>)
      modifies this
      ensures Model() == Next(old(Model()), PollStep(rows))
    {
      ghost var before := Model();
      for i := 0 to |rows|
        invariant Model() == Poll(before, rows[..i])
      {
        assert rows[..i + 1][..i] == rows[..i];
        if rows[i].id !in waitingExecutions {
          armed := armed[nextTimer := Timer(rows[i].id, rows[i].waitTill)];
          waitingExecutions := waitingExecutions[rows[i].id := nextTimer];
          nextTimer := nextTimer + 1;
        }
      }
      assert rows[..|rows|] == rows;
    }

    method Stop(id: ExecutionId)
      modifies this
      ensures Model() == Next(old(Model()), StopStep(id))
      ensures id !in waitingExecutions && waitingExecutions == old(waitingExecutions) - {id}
      ensures id in old(waitingExecutions) ==> armed == old(armed) - {old(waitingExecutions)[id]}
      ensures id !in old(waitingExecutions) ==> armed == old(armed)
    {
      if id in waitingExecutions {
        armed := armed - {waitingExecutions[id]};
        waitingExecutions := waitingExecutions - {id};
      }
    }

    method TimerFires(t: TimerId) returns (started: ExecutionId)
      requires t in armed
      modifies this
      ensures Model() == Next(old(Model()), FireStep(t)) && started == old(armed[t].id)
      ensures armed == old(armed) - {t} && waitingExecutions == old(waitingExecutions) - {started}
    {
      started := armed[t].id;
      armed := armed - {t};
      Start(started);
    }

    method Start(id: ExecutionId)
      modifies this`waitingExecutions
      ensures Model() == Next(old(Model()), StartStep(id)) && waitingExecutions == old(waitingExecutions) - {id}
    {
      waitingExecutions := waitingExecutions - {id};
    }

    /** `keys` is the order in which the engine enumerates the entries. */
    method StopAllTimers(keys: seq<ExecutionId>)
      requires forall id :: id in keys <==> id in waitingExecutions
      modifies this`armed
      ensures Model() == Next(old(Model()), StepDown)
      ensures forall t :: t in armed <==> t in old(armed) && t !in waitingExecutions.Values
    {
      for i := 0 to |keys|
        invariant forall t :: t in armed <==>
                    t in old(armed) && forall j | 0 <= j < i :: waitingExecutions[keys[j]] != t
        invariant forall t :: t in armed ==> armed[t] == old(armed)[t]
      {
        armed := armed - {waitingExecutions[keys[i]]};
      }
      forall t ensures t in armed <==> t in old(armed) && t !in waitingExecutions.Values {
        if t in old(armed) && t !in armed {
          var j :| 0 <= j < |keys| && waitingExecutions[keys[j]] == t;
          assert keys[j] in waitingExecutions;
        }
        if t in waitingExecutions.Values {
          var id :| id in waitingExecutions && waitingExecutions[id] == t;
          var j :| 0 <= j < |keys| && keys[j] == id;
        }
      }
    }
  }

  // ---- Retrying ------------------------------------------------------------

  datatype Error = UserError | UnexpectedError | OperationalError | OtherError
  datatype Outcome = Success | Thrown(error: Error)

  /** `isRetryableResumeError` */
  predicate IsRetryable(error: Error) {
    !(error.UserError? || error.UnexpectedError?)
  }

  /** The attempt after which the operation is not tried again. */
  predicate IsLast(outcome: nat -> Outcome, maxAttempts: int, shouldRetry: Error -> bool, attempt: nat) {
    outcome(attempt).Success? || attempt >= maxAttempts || !shouldRetry(outcome(attempt).error)
  }

  /** For every sequence of outcomes: the calls made are the attempts up to the first that
      succeeds, may not be retried or is the last allowed; the error rethrown is that of the
      last call; and k calls have slept 100 * (2^(k-1) - 1) milliseconds. */
  method WithRetry(outcome: nat -> Outcome, maxAttempts: int, shouldRetry: Error -> bool)
    returns (calls: nat, slept: nat, thrown: Option<Error>)
    ensures calls >= 1 && IsLast(outcome, maxAttempts, shouldRetry, calls)
    ensures forall k | 1 <= k < calls :: !IsLast(outcome, maxAttempts, shouldRetry, k)
    ensures outcome(calls) != Success ==> calls >= maxAttempts || !shouldRetry(outcome(calls).error)
    ensures forall k | 1 <= k < calls :: k < maxAttempts && outcome(k) != Success && shouldRetry(outcome(k).error)
    ensures calls <= (if maxAttempts > 1 then maxAttempts else 1)
    ensures thrown == if outcome(calls).Success? then None else Some(outcome(calls).error)
    ensures slept == 100 * (Pow2(calls - 1) - 1)
  {
    var attempt := 1;
    slept := 0;
    while true
      invariant attempt >= 1 && attempt <= (if maxAttempts > 1 then maxAttempts else 1)
      invariant forall k | 1 <= k < attempt :: !IsLast(outcome, maxAttempts, shouldRetry, k)
      invariant forall k | 1 <= k < attempt ::
                  k < maxAttempts && outcome(k) != Success && shouldRetry(outcome(k).error)
      invariant slept == 100 * (Pow2(attempt - 1) - 1)
      decreases maxAttempts - attempt
    {
      var result := outcome(attempt);
      if result.Success? {
        return attempt, slept, None;
      }
      if attempt >= maxAttempts || !shouldRetry(result.error) {
        return attempt, slept, Some(result.error);
      }
      slept := slept + 100 * Pow2(attempt - 1);
      attempt := attempt + 1;
    }
  }

  /** Each step of a parent resume: a retryable error is given up on only after three calls,
      any other at once. */
  method RetryResumeStep(outcome: nat -> Outcome) returns (calls: nat, slept: nat, thrown: Option<Error>)
    ensures 1 <= calls <= 3 && slept <= 300
    ensures thrown == if outcome(calls).Success? then None else Some(outcome(calls).error)
    ensures thrown.Some? && thrown.value !in {UserError, UnexpectedError} ==> calls == 3 && slept == 300
    ensures forall k | 1 <= k < calls :: outcome(k).Thrown? && outcome(k).error !in {UserError, UnexpectedError}
  {
    calls, slept, thrown := WithRetry(outcome, 3, IsRetryable);
    assert Pow2(0) == 1 && Pow2(1) == 2 && Pow2(2) == 4;
    forall k | 1 <= k < calls
      ensures outcome(k).Thrown? && IsRetryable(outcome(k).error)
    {
      assert !IsLast(outcome, 3, IsRetryable, k);
    }
  }
}
