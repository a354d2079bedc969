/** What a finished child execution hands to its waiting parent, and how the parent's
    stored data is patched with it. */
module ChildResults {
  import opened Common

  type ExecutionId = nat

  datatype Output = Produced(items: int) | Pinned(pinned: seq<int>)
  datatype TaskData = TaskData(data: Option<Output>, source: int)
  datatype ErrorInfo = ErrorInfo(code: int)

  datatype RunResult = RunResult(
    runData: map<string, seq<TaskData>>,
    lastNodeExecuted: Option<string>,
    pinData: map<string, seq<int>>,
    manual: bool,
    error: Option<ErrorInfo>)

  /** `getLastExecutedNodeData`: the last run of the last node, pinned data in manual mode.
      A last node that has an entry in the run data has at least one run. */
  function LastExecutedNodeData(r: RunResult): Option<TaskData>
    requires forall n :: n in r.runData ==> |r.runData[n]| > 0
  {
    if r.lastNodeExecuted.None? then None
    else
      var last := r.lastNodeExecuted.value;
      if last !in r.runData then None
      else
        var run := r.runData[last][|r.runData[last]| - 1];
        if last in r.pinData && r.manual then Some(TaskData(Some(Pinned(r.pinData[last])), run.source))
        else Some(run)
  }

  /** What of a child's result reaches the parent. */
  datatype Report = Nothing | Result(output: Output) | Failure(error: ErrorInfo)

  function ReportOf(r: RunResult): Report
    requires forall n :: n in r.runData ==> |r.runData[n]| > 0
  {
    var last := LastExecutedNodeData(r);
    if r.error.Some? then Failure(r.error.value)
    else if last.Some? && last.value.data.Some? then Result(last.value.data.value)
    else Nothing
  }

  /** `o` is the output of the last run of the last node, or in manual mode its pinned data. */
  predicate IsFinalOutput(r: RunResult, o: Output) {
    && r.lastNodeExecuted.Some? && r.lastNodeExecuted.value in r.runData
    && var last := r.lastNodeExecuted.value;
       && |r.runData[last]| > 0
       && if r.manual && last in r.pinData then o == Pinned(r.pinData[last])
          else r.runData[last][|r.runData[last]| - 1].data == Some(o)
  }

  /** A child reports its error if it has one, else its final output if there is one, else nothing. */
  lemma ReportMeaning(r: RunResult)
    requires forall n :: n in r.runData ==> |r.runData[n]| > 0
    ensures forall e :: ReportOf(r) == Failure(e) <==> r.error == Some(e)
    ensures forall o :: ReportOf(r) == Result(o) <==> r.error.None? && IsFinalOutput(r, o)
    ensures ReportOf(r) == Nothing <==> r.error.None? && forall o :: !IsFinalOutput(r, o)
    ensures LastExecutedNodeData(r).Some? <==> r.lastNodeExecuted.Some? && r.lastNodeExecuted.value in r.runData
    ensures LastExecutedNodeData(r).Some? ==>
              var runs := r.runData[r.lastNodeExecuted.value];
              LastExecutedNodeData(r).value.source == runs[|runs| - 1].source
  {
    var last := LastExecutedNodeData(r);
    if last.Some? && last.value.data.Some? {
      assert IsFinalOutput(r, last.value.data.value);
    }
  }

  datatype Related = Related(executionId: ExecutionId, shouldResume: Option<bool>)

  /** `shouldRestartParentExecution`: an absent flag means yes. */
  predicate ShouldRestart(parent: Option<Related>) {
    parent.Some? && (parent.value.shouldResume.None? || parent.value.shouldResume.value)
  }

  datatype ResumeError = ResumeError(error: ErrorInfo, child: ExecutionId)

  /** An entry of `nodeExecutionStack`; `rest` is everything a patch does not write. */
  datatype StackEntry = StackEntry(data: Output, resumeError: Option<ResumeError>, rest: int)
  datatype ExecutionData = ExecutionData(stack: seq<StackEntry>, parent: Option<Related>, rest: int)

  /** `updateParentExecutionWithChildResults` on the parent's data: only the stack head changes. */
  function Patch(data: ExecutionData, report: Report, child: ExecutionId): ExecutionData
    requires |data.stack| > 0
  {
    var head := data.stack[0];
    match report
    case Nothing => data
    case Result(output) => data.(stack := data.stack[0 := head.(data := output)])
    case Failure(error) => data.(stack := data.stack[0 := head.(resumeError := Some(ResumeError(error, child)))])
  }
}
