/** Execution deadlines: a workflow's own deadline, its inheritance through nested
    sub-workflow calls, and the soft and hard timeouts of a main run. Times are
    milliseconds, timeouts are seconds. */
module Deadlines {
  import opened Common

  datatype Config = Config(timeout: int, maxTimeout: int)

  function Min(a: int, b: int): int { if a < b then a else b }
  function Max(a: int, b: int): int { if a < b then b else a }

  /** `Math.min(timeout, effectiveMaxTimeout)`: no maximum unless it is positive. */
  function Clamp(timeout: int, config: Config): int {
    if config.maxTimeout > 0 then Min(timeout, config.maxTimeout) else timeout
  }

  /** `determineWorkflowDeadline` */
  function OwnDeadline(start: int, setting: Option<int>, config: Config): Option<int> {
    if setting.Some? then
      if setting.value <= 0 then None else Some(start + Clamp(setting.value, config) * 1000)
    else if config.timeout > 0 then Some(start + Clamp(config.timeout, config) * 1000)
    else None
  }

  /** `resolveSubworkflowDeadline` */
  function SubworkflowDeadline(own: Option<int>, parent: Option<int>, doNotWaitToFinish: bool): Option<int> {
    if doNotWaitToFinish then own
    else if parent.Some? && own.Some? then Some(Min(parent.value, own.value))
    else if parent.Some? then parent
    else own
  }

  /** A workflow's own setting counts before the configured default, and switches the deadline off when
      it is not positive; a positive maximum caps either. */
  lemma OwnDeadlineMeaning(start: int, setting: Option<int>, config: Config)
    ensures var chosen := if setting == None then config.timeout else setting.value;
            && (OwnDeadline(start, setting, config) == None <==> chosen <= 0)
            && (chosen > 0 ==>
                  exists seconds :: OwnDeadline(start, setting, config) == Some(start + seconds * 1000)
                    && seconds <= chosen && (config.maxTimeout > 0 ==> seconds <= config.maxTimeout)
                    && (seconds == chosen || (config.maxTimeout > 0 && seconds == config.maxTimeout)))
  {
    var chosen := if setting == None then config.timeout else setting.value;
    assert chosen > 0 ==> OwnDeadline(start, setting, config) == Some(start + Clamp(chosen, config) * 1000);
  }

  // ---- Nested calls --------------------------------------------------------

  datatype Call = Call(start: int, setting: Option<int>, doNotWaitToFinish: bool)

  /** The timestamp handed down a path of nested calls, outermost first, from `root`. */
  function PathDeadline(root: Option<int>, calls: seq<Call>, config: Config): Option<int> {
    if calls == [] then root
    else
      var call := calls[|calls| - 1];
      SubworkflowDeadline(OwnDeadline(call.start, call.setting, config),
                          PathDeadline(root, calls[..|calls| - 1], config), call.doNotWaitToFinish)
  }

  /** No call after position `i` is detached. */
  predicate WaitedSince(calls: seq<Call>, i: int) {
    forall j | 0 <= j < |calls| && j > i :: !calls[j].doNotWaitToFinish
  }

  /** `d` is the root deadline or an own deadline on the path since the last detached call. */
  ghost predicate OnPath(root: Option<int>, calls: seq<Call>, config: Config, d: int) {
    || (root == Some(d) && WaitedSince(calls, -1))
    || exists i :: 0 <= i < |calls| && WaitedSince(calls, i)
                && OwnDeadline(calls[i].start, calls[i].setting, config) == Some(d)
  }

  lemma OnPathStep(root: Option<int>, calls: seq<Call>, config: Config, d: int)
    requires calls != []
    ensures var init, last := calls[..|calls| - 1], calls[|calls| - 1];
            OnPath(root, calls, config, d) <==>
              || OwnDeadline(last.start, last.setting, config) == Some(d)
              || (!last.doNotWaitToFinish && OnPath(root, init, config, d))
  {
    var init, last, n := calls[..|calls| - 1], calls[|calls| - 1], |calls| - 1;
    assert calls == init + [last];
    assert forall i | -1 <= i < n :: WaitedSince(calls, i) <==> !last.doNotWaitToFinish && WaitedSince(init, i);
    assert WaitedSince(calls, n);
    if OnPath(root, calls, config, d) && OwnDeadline(last.start, last.setting, config) != Some(d) {
      if !(root == Some(d) && WaitedSince(calls, -1)) {
        var i :| 0 <= i < |calls| && WaitedSince(calls, i)
              && OwnDeadline(calls[i].start, calls[i].setting, config) == Some(d);
        assert init[i] == calls[i] && WaitedSince(init, i);
      }
    }
    if !last.doNotWaitToFinish && OnPath(root, init, config, d) && !(root == Some(d) && WaitedSince(init, -1)) {
      var i :| 0 <= i < |init| && WaitedSince(init, i)
            && OwnDeadline(init[i].start, init[i].setting, config) == Some(d);
      assert calls[i] == init[i] && WaitedSince(calls, i);
    }
  }

  /** For any nesting: the deadline is the least of all deadlines on the path since the last
      detached call, and undefined exactly when there is none. */
  lemma {:induction false} DeadlineIsLeastOnPath(root: Option<int>, calls: seq<Call>, config: Config)
    ensures var deadline := PathDeadline(root, calls, config);
            && (deadline.Some? ==> OnPath(root, calls, config, deadline.value))
            && forall d :: OnPath(root, calls, config, d) ==> deadline.Some? && deadline.value <= d
  {
    if calls != [] {
      var init := calls[..|calls| - 1];
      DeadlineIsLeastOnPath(root, init, config);
      forall d
        ensures OnPath(root, calls, config, d) ==>
                  PathDeadline(root, calls, config).Some? && PathDeadline(root, calls, config).value <= d
      {
        OnPathStep(root, calls, config, d);
      }
      if PathDeadline(root, calls, config).Some? {
        OnPathStep(root, calls, config, PathDeadline(root, calls, config).value);
      }
    }
  }

  /** A waited-for sub-workflow never has more time than its parent; a detached one starts over. */
  lemma {:induction false} WaitedCallEndsWithItsParent(root: Option<int>, calls: seq<Call>, config: Config, call: Call)
    ensures var parent, deadline := PathDeadline(root, calls, config), PathDeadline(root, calls + [call], config);
            && (!call.doNotWaitToFinish && parent.Some? ==> deadline.Some? && deadline.value <= parent.value)
            && (call.doNotWaitToFinish ==> deadline == OwnDeadline(call.start, call.setting, config))
  {
    assert (calls + [call])[..|calls|] == calls;
  }

  // ---- The main run ----------------------------------------------------------

  function Chosen(setting: Option<int>, config: Config): int {
    if setting.Some? then setting.value else config.timeout
  }

  /** `workflowTimeout` in `runMainProcess`; here the maximum applies even when it is not positive. */
  function MainTimeout(setting: Option<int>, config: Config): int {
    var t := Chosen(setting, config);
    if t > 0 then Min(t, config.maxTimeout) else t
  }

  function SoftDeadline(now: int, setting: Option<int>, config: Config): Option<int> {
    var t := MainTimeout(setting, config);
    if t <= 0 then None else Some(now + t * 1000)
  }

  /** When the run is stopped for good: at once, or by a timer. */
  function HardStop(now: int, startedAt: Option<int>, setting: Option<int>, config: Config): Option<int> {
    var t := MainTimeout(setting, config);
    if t <= 0 then None
    else if startedAt.Some? then Some(Max(now, startedAt.value + t * 1000))
    else Some(now + t * 1000)
  }

  /** The two computations of a workflow's deadline agree if and only if the maximum is positive
      or no timeout applies: with a maximum of zero or less the main run has no deadline at all. */
  lemma DeadlinesAgreeIff(start: int, setting: Option<int>, config: Config)
    ensures SoftDeadline(start, setting, config) == OwnDeadline(start, setting, config)
       <==> config.maxTimeout > 0 || Chosen(setting, config) <= 0
  {}

  datatype Timer = NoTimer | StopNow | StopIn(ms: int)

  /** The timeout of a main run in milliseconds, not positive if there is none. */
  function Timeout(setting: Option<int>, config: Config): int {
    var seconds := match setting case Some(own) => own case None => config.timeout;
    1000 * (if 0 < seconds && config.maxTimeout < seconds then config.maxTimeout else seconds)
  }

  /** A resumed execution has been started at least its timeout ago. */
  predicate IsUsedUp(now: int, startedAt: Option<int>, setting: Option<int>, config: Config) {
    startedAt.Some? && now - startedAt.value >= Timeout(setting, config)
  }

  /** The timeout computation of `runMainProcess`: `soft` is handed to the engine, `timer` is the
      hard stop. The clock is read once for each. */
  method RunMainProcess(setting: Option<int>, config: Config, startedAt: Option<int>, nowSoft: int, nowHard: int)
    returns (soft: Option<int>, timer: Timer)
    ensures soft == SoftDeadline(nowSoft, setting, config)
    ensures timer.NoTimer? <==> HardStop(nowHard, startedAt, setting, config).None?
    ensures timer.StopNow? ==> HardStop(nowHard, startedAt, setting, config) == Some(nowHard)
    ensures timer.StopIn? ==> timer.ms != 0 && HardStop(nowHard, startedAt, setting, config) == Some(nowHard + timer.ms)
    ensures timer.NoTimer? <==> Timeout(setting, config) <= 0
    ensures soft == if Timeout(setting, config) <= 0 then None else Some(nowSoft + Timeout(setting, config))
    ensures timer.StopNow? <==> Timeout(setting, config) > 0 && IsUsedUp(nowHard, startedAt, setting, config)
    ensures timer.StopIn? ==> timer.ms > 0
    ensures timer.StopIn? ==>
              nowHard + timer.ms == (if startedAt.Some? then startedAt.value else nowHard) + Timeout(setting, config)
  {
    var workflowTimeout := Chosen(setting, config);
    if workflowTimeout > 0 {
      workflowTimeout := Min(workflowTimeout, config.maxTimeout);
    }
    soft := if workflowTimeout <= 0 then None else Some(nowSoft + workflowTimeout * 1000);
    timer := NoTimer;
    if workflowTimeout > 0 {
      var timeout := Min(workflowTimeout, config.maxTimeout) * 1000;
      if startedAt.Some? {
        timeout := Max(timeout - (nowHard - startedAt.value), 0);
      }
      timer := if timeout == 0 then StopNow else StopIn(timeout);
    }
  }

  /** However often an execution waits and resumes with the same start time, no resume gets past
      the first hard stop: it is stopped right then, or at once exactly if the time is used up. */
  lemma ResumesNeverExtend(startedAt: int, nows: seq<int>, setting: Option<int>, config: Config)
    requires MainTimeout(setting, config) > 0 && forall k | 0 <= k < |nows| :: startedAt <= nows[k]
    ensures HardStop(startedAt, None, setting, config) == Some(startedAt + Timeout(setting, config))
    ensures forall k | 0 <= k < |nows| ::
              HardStop(nows[k], Some(startedAt), setting, config) ==
                if IsUsedUp(nows[k], Some(startedAt), setting, config) then Some(nows[k])
                else HardStop(startedAt, None, setting, config)
  {}

  /** The hard stop is no later than the soft deadline if and only if at most the timeout passes
      between the two clock readings. */
  lemma HardStopWithinSoft(startedAt: Option<int>, nowSoft: int, nowHard: int, setting: Option<int>, config: Config)
    requires MainTimeout(setting, config) > 0 && nowSoft <= nowHard
    requires startedAt.Some? && startedAt.value <= nowSoft
    ensures HardStop(nowHard, startedAt, setting, config).value <= SoftDeadline(nowSoft, setting, config).value
       <==> nowHard <= nowSoft + MainTimeout(setting, config) * 1000
  {}
}
