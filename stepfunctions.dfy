/**
  `StepFunctions.execute`: start an execution and, if asked, wait for it with the shared monitor
  loop; report error and cause of an unsuccessful run and log a console link. The legacy
  `stepfunctions_.py` holds the same code.
 */
module StepFunctions {
  import opened Common
  import Arn
  import M = ExecutionMonitor

  /** The part of a `describe_execution` response the helper reads. */
  datatype ExecutionDescription = ExecutionDescription(status: string, error: Option<string>, cause: Option<string>)

  /** One poll: the clock read before the describe, and the execution it described. */
  datatype ExecutionPoll = ExecutionPoll(now: int, execution: ExecutionDescription)

  function StatusPolls(polls: seq<ExecutionPoll>): (ps: seq<M.Poll>)
    ensures |ps| == |polls|
    ensures forall i :: 0 <= i < |polls| ==> ps[i] == M.Poll(polls[i].now, polls[i].execution.status)
  {
    seq(|polls|, i requires 0 <= i < |polls| => M.Poll(polls[i].now, polls[i].execution.status))
  }

  const SubmittedLine: string := "State submitted, now waiting until completed."

  /** Prefix of the line logged for each status change. */
  const StatusPrefix: string := "Status: "

  /** The execution's page in the console: the host is the console of the ARN's region, the
      query names that region again, and the fragment ends with the execution ARN. */
  function ConsoleUrl(region: string, executionArn: string): (url: string)
    ensures var host := "https://" + region + ".console.aws.amazon.com/";
      |host| <= |url| && url[..|host|] == host
    ensures var tail := "?region=" + region + "#/v2/executions/details/" + executionArn;
      |tail| <= |url| && url[|url| - |tail|..] == tail
  {
    var host := "https://" + region + ".console.aws.amazon.com/";
    var tail := "?region=" + region + "#/v2/executions/details/" + executionArn;
    assert (host + "states/home" + tail)[..|host|] == host;
    assert (host + "states/home" + tail)[|host| + 11..] == tail;
    host + "states/home" + tail
  }

  /** The error and cause lines written after the loop. */
  function FailureLines(lastStatus: string, execution: ExecutionDescription): (lines: seq<string>)
    ensures lastStatus == "SUCCEEDED" ==> lines == []
    ensures |lines| == (if lastStatus == "SUCCEEDED" then 0
                        else (if execution.error.Some? then 1 else 0) + (if execution.cause.Some? then 1 else 0))
    ensures lastStatus != "SUCCEEDED" && execution.error.Some? ==> lines[0] == "Error: " + execution.error.value
    ensures lastStatus != "SUCCEEDED" && execution.cause.Some? ==> lines[|lines| - 1] == "Cause: " + execution.cause.value
  {
    if lastStatus == "SUCCEEDED" then []
    else
      (if execution.error.Some? then ["Error: " + execution.error.value] else [])
      + (if execution.cause.Some? then ["Cause: " + execution.cause.value] else [])
  }

  /** The region lookup on the execution ARN and the console line; a non-matching ARN makes
      `.group` fail. */
  function Finish(executionArn: string): (r: (Result<string>, seq<string>))
    ensures r.0.Ok? <==> Arn.RegionOf(Arn.StatesPrefix, executionArn).Some?
    ensures r.0.Err? ==> r == (Err(NoRegexMatch(executionArn)), [])
    ensures r.0.Ok? ==>
      && r.0.value == executionArn
      && r.1 == ["Execution details in AWS console: " + ConsoleUrl(Arn.RegionOf(Arn.StatesPrefix, executionArn).value, executionArn)]
  {
    match Arn.RegionOf(Arn.StatesPrefix, executionArn)
    case None => (Err(NoRegexMatch(executionArn)), [])
    case Some(region) => (Ok(executionArn), ["Execution details in AWS console: " + ConsoleUrl(region, executionArn)])
  }

  /** `execute` after `start_execution` returned `executionArn`. `polls` is what the clock and
      `describe_execution` report on each round of the loop. */
  method Execute(executionArn: string, timeoutMinutes: int, waitUntilCompleted: bool, entry: int, polls: seq<ExecutionPoll>)
    returns (r: Result<string>, described: nat, log: seq<string>)
    requires waitUntilCompleted ==> M.Settles(M.StateMachineExecution, StatusPolls(polls), WindowEnd(entry, timeoutMinutes))
    ensures !waitUntilCompleted ==> r == Ok(executionArn) && described == 0 && log == []
    ensures r.Ok? ==> r.value == executionArn
    ensures waitUntilCompleted ==>
      var run := M.Wait(M.StateMachineExecution, entry, timeoutMinutes, StatusPolls(polls));
      && described == run.described
      && (run.outcome.Err? ==>
            r == Err(BuilderError(TimeoutMessage))
            && log == [SubmittedLine] + M.StatusLines(StatusPrefix, run.statusLog))
      && (run.outcome.Ok? ==>
            var final := polls[run.outcome.value].execution;
            && final.status != "RUNNING"
            && r == Finish(executionArn).0
            && log == [SubmittedLine] + M.StatusLines(StatusPrefix, run.statusLog)
                      + FailureLines(final.status, final) + Finish(executionArn).1)
  {
    if !waitUntilCompleted {
      return Ok(executionArn), 0, [];
    }
    log := [SubmittedLine];
    var outcome, statusLog;
    outcome, described, statusLog := M.WaitForTerminalStatus(M.StateMachineExecution, entry, timeoutMinutes, StatusPolls(polls));
    log := log + M.StatusLines(StatusPrefix, statusLog);
    if outcome.Err? {
      return Err(outcome.error), described, log;
    }
    var execution := polls[outcome.value].execution;
    // The last status logged is the final one: the final poll's status either differed from
    // the previous one and was logged, or equalled it.
    var lastStatus := execution.status;
    log := log + FailureLines(lastStatus, execution);
    var finished := Finish(executionArn);
    r := finished.0;
    log := log + finished.1;
  }

  /** The status the source compares with "SUCCEEDED" after the loop (`last_status`) is the
      final poll's status: the last line of the change-only log is always the final status. */
  lemma LastLoggedIsFinal(entry: int, timeoutMinutes: int, polls: seq<ExecutionPoll>)
    requires M.Settles(M.StateMachineExecution, StatusPolls(polls), WindowEnd(entry, timeoutMinutes))
    ensures var run := M.Wait(M.StateMachineExecution, entry, timeoutMinutes, StatusPolls(polls));
      run.outcome.Ok? ==> |run.statusLog| > 0 && run.statusLog[|run.statusLog| - 1] == polls[run.outcome.value].execution.status
  {
    var ps := StatusPolls(polls);
    var end := WindowEnd(entry, timeoutMinutes);
    LastLoggedIsFinalFrom(ps, end, 0, None);
  }

  lemma {:induction false} LastLoggedIsFinalFrom(ps: seq<M.Poll>, end: int, i: nat, last: Option<string>)
    requires i < |ps| && M.Settles(M.StateMachineExecution, ps, end)
    ensures var run := M.WaitFrom(M.StateMachineExecution, ps, end, i, last);
      run.outcome.Ok? ==>
        if |run.statusLog| > 0 then run.statusLog[|run.statusLog| - 1] == ps[run.outcome.value].status
        else last == Some(ps[run.outcome.value].status)
    decreases |ps| - i
  {
    if ps[i].now <= end && !M.IsTerminal(M.StateMachineExecution, ps[i].status) {
      LastLoggedIsFinalFrom(ps, end, i + 1, Some(ps[i].status));
    }
  }

  /** A failed execution is not raised: it returns the ARN and logs error and cause. */
  lemma FailedExecutionIsNotRaised(region: string, tail: string, error: string, cause: string)
    requires ':' !in region && '\n' !in region
    ensures var arn := Arn.StatesPrefix + region + ":" + tail;
      && Finish(arn).0 == Ok(arn)
      && FailureLines("FAILED", ExecutionDescription("FAILED", Some(error), Some(cause)))
         == ["Error: " + error, "Cause: " + cause]
  {
    Arn.RegionOfBuiltArn(Arn.StatesPrefix, region, tail);
  }
}
