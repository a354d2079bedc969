/** The queue that throttles executions to a capacity limit. */
module ConcurrencyQueues {
  type ExecutionId = nat

  /** `waiting` is the queue; `admitted` logs the executions let through, `released` counts
      those that have given their capacity back. */
  datatype Queue = Queue(capacity: int, waiting: seq<ExecutionId>, admitted: seq<ExecutionId>, released: nat)

  function Fresh(limit: nat): Queue {
    Queue(limit, [], [], 0)
  }

  function InUse(q: Queue): int {
    |q.admitted| - q.released
  }

  function AdmitNext(q: Queue): Queue {
    if q.waiting == [] then q
    else q.(waiting := q.waiting[1..], admitted := q.admitted + [q.waiting[0]])
  }

  function Enqueue(q: Queue, id: ExecutionId): Queue {
    if q.capacity - 1 < 0 then q.(capacity := q.capacity - 1, waiting := q.waiting + [id])
    else q.(capacity := q.capacity - 1, admitted := q.admitted + [id])
  }

  function Dequeue(q: Queue): Queue {
    AdmitNext(q.(capacity := q.capacity + 1, released := q.released + 1))
  }

  function IndexOf(ids: seq<ExecutionId>, id: ExecutionId): (i: nat)
    ensures i <= |ids| && (id in ids <==> i < |ids|)
    ensures i < |ids| ==> ids[i] == id && id !in ids[..i]
  {
    if ids == [] then 0
    else if ids[0] == id then 0
    else IndexOf(ids[1..], id) + 1
  }

  lemma {:induction false} FirstIndex(before: seq<ExecutionId>, id: ExecutionId, after: seq<ExecutionId>)
    requires id !in before
    ensures IndexOf(before + [id] + after, id) == |before|
  {
    var ids := before + [id] + after;
    if before != [] {
      FirstIndex(before[1..], id, after);
      assert ids[0] == before[0] && ids[1..] == before[1..] + [id] + after;
    }
  }

  /** Removing a queued execution gives its capacity back and resolves the next one. */
  function Remove(q: Queue, id: ExecutionId): Queue {
    var i := IndexOf(q.waiting, id);
    if i == |q.waiting| then q
    else AdmitNext(q.(capacity := q.capacity + 1, waiting := q.waiting[..i] + q.waiting[i + 1..]))
  }

  datatype Step = Throttle(id: ExecutionId) | Release | Cancel(id: ExecutionId)

  /** Only an execution that was let through releases capacity. */
  predicate Enabled(q: Queue, step: Step) {
    step.Release? ==> InUse(q) > 0
  }

  function Next(q: Queue, step: Step): Queue {
    match step
    case Throttle(id) => Enqueue(q, id)
    case Release => Dequeue(q)
    case Cancel(id) => Remove(q, id)
  }

  ghost predicate IsRun(limit: nat, states: seq<Queue>, steps: seq<Step>) {
    && |states| == |steps| + 1 && states[0] == Fresh(limit)
    && forall n | 0 <= n < |steps| :: Enabled(states[n], steps[n]) && states[n + 1] == Next(states[n], steps[n])
  }

  /** Capacity accounts for every execution that runs or waits, and nobody waits while there
      is room. */
  predicate Sound(limit: nat, q: Queue) {
    && q.capacity == limit - InUse(q) - |q.waiting| && InUse(q) >= 0
    && (|q.waiting| > 0 ==> InUse(q) >= limit)
  }

  lemma StepKeepsSound(limit: nat, q: Queue, step: Step)
    requires Sound(limit, q) && Enabled(q, step)
    ensures Sound(limit, Next(q, step))
  {}

  lemma {:induction false} RunIsSound(limit: nat, states: seq<Queue>, steps: seq<Step>, n: nat)
    requires IsRun(limit, states, steps) && n <= |steps|
    ensures Sound(limit, states[n])
  {
    if n > 0 {
      RunIsSound(limit, states, steps, n - 1);
      assert states[n] == Next(states[n - 1], steps[n - 1]);
      StepKeepsSound(limit, states[n - 1], steps[n - 1]);
    }
  }

  /** Cancelling an execution that waits together with others. */
  predicate CancelsAmongOthers(q: Queue, step: Step) {
    step.Cancel? && step.id in q.waiting && |q.waiting| >= 2
  }

  lemma StepExceedsIff(limit: nat, q: Queue, step: Step)
    requires Sound(limit, q) && Enabled(q, step) && InUse(q) <= limit
    ensures InUse(Next(q, step)) > limit <==> CancelsAmongOthers(q, step)
  {}

  /** The limit holds throughout a run if and only if no execution is ever cancelled while
      others wait with it: the cancelled one held no slot, yet the next is let through. */
  lemma LimitHoldsIff(limit: nat, states: seq<Queue>, steps: seq<Step>)
    requires IsRun(limit, states, steps)
    ensures (forall n | 0 <= n <= |steps| :: InUse(states[n]) <= limit)
       <==> (forall n | 0 <= n < |steps| :: !CancelsAmongOthers(states[n], steps[n]))
  {
    if forall n | 0 <= n <= |steps| :: InUse(states[n]) <= limit {
      forall n | 0 <= n < |steps|
        ensures !CancelsAmongOthers(states[n], steps[n])
      {
        RunIsSound(limit, states, steps, n);
        StepExceedsIff(limit, states[n], steps[n]);
        assert InUse(states[n + 1]) <= limit;
      }
    }
    if forall n | 0 <= n < |steps| :: !CancelsAmongOthers(states[n], steps[n]) {
      forall n | 0 <= n <= |steps|
        ensures InUse(states[n]) <= limit
      {
        LimitHoldsUpTo(limit, states, steps, n);
      }
    }
  }

  lemma {:induction false} LimitHoldsUpTo(limit: nat, states: seq<Queue>, steps: seq<Step>, n: nat)
    requires IsRun(limit, states, steps) && n <= |steps|
    requires forall m | 0 <= m < |steps| :: !CancelsAmongOthers(states[m], steps[m])
    ensures InUse(states[n]) <= limit
  {
    hide Next, Sound, CancelsAmongOthers;
    if n > 0 {
      LimitHoldsUpTo(limit, states, steps, n - 1);
      RunIsSound(limit, states, steps, n - 1);
      assert states[n] == Next(states[n - 1], steps[n - 1]);
      StepExceedsIff(limit, states[n - 1], steps[n - 1]);
    }
  }

  function Arrivals(steps: seq<Step>): seq<ExecutionId> {
    if steps == [] then []
    else
      var before, last := Arrivals(steps[..|steps| - 1]), steps[|steps| - 1];
      if last.Throttle? then before + [last.id] else before
  }

  /** Without cancellations executions are let through in the order in which they arrived. */
  lemma {:induction false} FirstInFirstOut(limit: nat, states: seq<Queue>, steps: seq<Step>)
    requires IsRun(limit, states, steps) && forall n | 0 <= n < |steps| :: !steps[n].Cancel?
    ensures states[|steps|].admitted + states[|steps|].waiting == Arrivals(steps)
  {
    if steps != [] {
      var n := |steps| - 1;
      assert IsRun(limit, states[..n + 1], steps[..n]);
      FirstInFirstOut(limit, states[..n + 1], steps[..n]);
      RunIsSound(limit, states, steps, n);
      assert states[n + 1] == Next(states[n], steps[n]);
      var q := states[n];
      if steps[n].Throttle? {
        assert q.capacity - 1 >= 0 ==> q.waiting == [];
      } else if q.waiting != [] {
        assert q.waiting == [q.waiting[0]] + q.waiting[1..];
      }
    }
  }

  class ConcurrencyQueue {
    var capacity: int
    var queue: seq<ExecutionId>
    var admitted: seq<ExecutionId>
    ghost var released: nat

    ghost function Model(): Queue
      reads this
    {
      Queue(capacity, queue, admitted, released)
    }

    constructor (limit: nat)
      ensures Model() == Fresh(limit)
    {
      capacity, queue, admitted, released := limit, [], [], 0;
    }

    method Enqueue(id: ExecutionId)
      modifies this
      ensures Model() == Next(old(Model()), Throttle(id)) && capacity == old(capacity) - 1
      ensures if capacity < 0 then queue == old(queue) + [id] && admitted == old(admitted)
              else queue == old(queue) && admitted == old(admitted) + [id]
    {
      capacity := capacity - 1;
      if capacity < 0 {
        queue := queue + [id];
      } else {
        admitted := admitted + [id];
      }
    }

    method Dequeue()
      modifies this
      ensures Model() == Next(old(Model()), Step.Release) && capacity == old(capacity) + 1
      ensures old(queue) == [] ==> queue == [] && admitted == old(admitted)
      ensures old(queue) != [] ==> [old(queue)[0]] + queue == old(queue) && admitted == old(admitted) + [old(queue)[0]]
    {
      capacity := capacity + 1;
      released := released + 1;
      ResolveNext();
    }

    method Remove(id: ExecutionId)
      modifies this
      ensures Model() == Next(old(Model()), Cancel(id))
      ensures id !in old(queue) ==> queue == old(queue) && capacity == old(capacity) && admitted == old(admitted)
      ensures id in old(queue) ==> capacity == old(capacity) + 1
      ensures forall before, after | old(queue) == before + [id] + after && id !in before ::
                if before + after == [] then queue == [] && admitted == old(admitted)
                else [(before + after)[0]] + queue == before + after
                     && admitted == old(admitted) + [(before + after)[0]]
    {
      var index := IndexOf(queue, id);
      ghost var was := queue;
      forall before, after | was == before + [id] + after && id !in before
        ensures index == |before| && was[..index] + was[index + 1..] == before + after
      {
        FirstIndex(before, id, after);
      }
      if index < |queue| {
        queue := queue[..index] + queue[index + 1..];
        capacity := capacity + 1;
        ResolveNext();
      }
    }

    method ResolveNext()
      modifies this`queue, this`admitted
      ensures Model() == AdmitNext(old(Model()))
    {
      if |queue| > 0 {
        admitted := admitted + [queue[0]];
        queue := queue[1..];
      }
    }
  }
}
