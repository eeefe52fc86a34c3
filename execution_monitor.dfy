/**
  The polling loop shared by `Batch.submit_job` and `StepFunctions.execute` (and their legacy
  copies): a wait window fixed on entry, a deadline checked before every describe, a status line
  logged only when the status changes, and a family-specific rule for when the loop ends.
 */
module ExecutionMonitor {
  import opened Common

  /** Which kind of execution is being watched; the two differ only in their terminal rule. */
  datatype Family = BatchJob | StateMachineExecution

  /** One poll: the clock read before the describe, and the status that describe reported. */
  datatype Poll = Poll(now: int, status: string)

  /** How a wait ended: the index of the poll whose status ended the loop (or the timeout), how
      many describes were issued, and the statuses written to the log, in order. */
  datatype WaitRun = WaitRun(outcome: Result<nat>, described: nat, statusLog: seq<string>)

  /** Whether `status` ends the loop: Batch stops only on SUCCEEDED or FAILED and keeps polling
      on any other status, an unrecognised one included; Step Functions stops on every status
      but RUNNING. */
  predicate IsTerminal(family: Family, status: string)
    ensures family == BatchJob ==> (IsTerminal(family, status) <==> status == "SUCCEEDED" || status == "FAILED")
    ensures family == StateMachineExecution ==> (IsTerminal(family, status) <==> status != "RUNNING")
  {
    match family
    case BatchJob => status in ["SUCCEEDED", "FAILED"]
    case StateMachineExecution => status !in ["RUNNING"]
  }

  /** A poll at which the loop stops: past the deadline, or reporting a terminal status. */
  predicate Stops(family: Family, p: Poll, end: int)
  {
    p.now > end || IsTerminal(family, p.status)
  }

  /** The scripted provider eventually stops the loop: its last poll is a stopping one. A
      real clock always passes the deadline; a finite script has to say where. */
  predicate Settles(family: Family, polls: seq<Poll>, end: int)
  {
    |polls| > 0 && Stops(family, polls[|polls| - 1], end)
  }

  /** The statuses that the change-only logging writes for `statuses`, given the last status
      logged before them. */
  function Collapse(statuses: seq<string>, last: Option<string>): (logged: seq<string>)
    ensures |logged| <= |statuses|
    ensures forall s :: s in logged ==> s in statuses
    ensures forall s :: s in statuses && Some(s) != last ==> s in logged
  {
    if statuses == [] then []
    else if Some(statuses[0]) != last then [statuses[0]] + Collapse(statuses[1..], Some(statuses[0]))
    else Collapse(statuses[1..], last)
  }

  /** The line written for each logged status: the family's `prefix`, then the status. */
  function StatusLines(prefix: string, statuses: seq<string>): (lines: seq<string>)
    ensures |lines| == |statuses|
    ensures forall i :: 0 <= i < |statuses| ==> lines[i] == prefix + statuses[i]
  {
    seq(|statuses|, i requires 0 <= i < |statuses| => prefix + statuses[i])
  }

  /** The statuses of `polls`, in order. */
  function Statuses(polls: seq<Poll>): (ss: seq<string>)
    ensures |ss| == |polls| && forall i :: 0 <= i < |polls| ==> ss[i] == polls[i].status
  {
    seq(|polls|, i requires 0 <= i < |polls| => polls[i].status)
  }

  /** The loop from poll `i` on, with `last` the status logged most recently. */
  function WaitFrom(family: Family, polls: seq<Poll>, end: int, i: nat, last: Option<string>): (run: WaitRun)
    requires i < |polls| && Settles(family, polls, end)
    ensures i <= run.described <= |polls|
    ensures run.outcome.Ok? ==> run.described == run.outcome.value + 1 && IsTerminal(family, polls[run.outcome.value].status)
    ensures run.outcome.Err? ==> run.outcome.error == BuilderError(TimeoutMessage) && run.described < |polls| && polls[run.described].now > end
    decreases |polls| - i
  {
    if polls[i].now > end then
      WaitRun(Err(BuilderError(TimeoutMessage)), i, [])
    else
      var s := polls[i].status;
      var logged := if Some(s) != last then [s] else [];
      if IsTerminal(family, s) then
        WaitRun(Ok(i), i + 1, logged)
      else
        var rest := WaitFrom(family, polls, end, i + 1, Some(s));
        WaitRun(rest.outcome, rest.described, logged + rest.statusLog)
  }

  /** The whole wait for a window opened at `entry` with a timeout of `timeoutMinutes`: the
      window opens 30 seconds before entry, so every describe is issued no later than
      `entry - 30 + 60 * timeoutMinutes`, and the timeout is raised at the first poll after it. */
  function Wait(family: Family, entry: int, timeoutMinutes: int, polls: seq<Poll>): (run: WaitRun)
    requires Settles(family, polls, WindowEnd(entry, timeoutMinutes))
    ensures run.described <= |polls|
    ensures forall j :: 0 <= j < run.described ==> polls[j].now <= entry - 30 + 60 * timeoutMinutes
    ensures run.outcome.Err? ==> run.described < |polls| && polls[run.described].now > entry - 30 + 60 * timeoutMinutes
  {
    DescribesBeforeDeadline(family, polls, WindowEnd(entry, timeoutMinutes), 0, None);
    WaitFrom(family, polls, WindowEnd(entry, timeoutMinutes), 0, None)
  }

  /** Every describe of the loop from poll `i` on is issued with the clock not past the deadline. */
  lemma {:induction false} DescribesBeforeDeadline(family: Family, polls: seq<Poll>, end: int, i: nat, last: Option<string>)
    requires i < |polls| && Settles(family, polls, end)
    ensures var run := WaitFrom(family, polls, end, i, last);
      forall j :: i <= j < run.described ==> polls[j].now <= end
    decreases |polls| - i
  {
    if polls[i].now <= end && !IsTerminal(family, polls[i].status) {
      DescribesBeforeDeadline(family, polls, end, i + 1, Some(polls[i].status));
    }
  }

  /** The `while True` loop of the monitors. */
  method WaitForTerminalStatus(family: Family, entry: int, timeoutMinutes: int, polls: seq<Poll>)
    returns (outcome: Result<nat>, described: nat, statusLog: seq<string>)
    requires Settles(family, polls, WindowEnd(entry, timeoutMinutes))
    ensures WaitRun(outcome, described, statusLog) == Wait(family, entry, timeoutMinutes, polls)
  {
    var end := WindowEnd(entry, timeoutMinutes);
    var last: Option<string> := None;
    var i := 0;
    statusLog := [];
    while true
      invariant i < |polls|
      invariant var rest := WaitFrom(family, polls, end, i, last);
        Wait(family, entry, timeoutMinutes, polls) == WaitRun(rest.outcome, rest.described, statusLog + rest.statusLog)
      decreases |polls| - i
    {
      if polls[i].now > end {
        return Err(BuilderError(TimeoutMessage)), i, statusLog;
      }
      var status := polls[i].status;
      if Some(status) != last {
        last := Some(status);
        statusLog := statusLog + [status];
      }
      if IsTerminal(family, status) {
        return Ok(i), i + 1, statusLog;
      }
      i := i + 1;
    }
  }

  /** The loop ends at the first stopping poll `k`: on a timeout if its clock is past the
      deadline (with exactly `k` describes, none after the deadline check), otherwise with `k`
      as the final poll. Every status before `k` kept the loop going. */
  lemma {:induction false} WaitEndsAtFirstStop(family: Family, polls: seq<Poll>, end: int, i: nat, last: Option<string>, k: nat)
    requires i <= k < |polls| && Settles(family, polls, end)
    requires forall j :: i <= j < k ==> !Stops(family, polls[j], end)
    requires Stops(family, polls[k], end)
    ensures var run := WaitFrom(family, polls, end, i, last);
      && (polls[k].now > end ==> run.outcome == Err(BuilderError(TimeoutMessage)) && run.described == k)
      && (polls[k].now <= end ==> run.outcome == Ok(k) && run.described == k + 1)
    decreases k - i
  {
    if i < k {
      assert !Stops(family, polls[i], end);
      WaitEndsAtFirstStop(family, polls, end, i + 1, Some(polls[i].status), k);
    }
  }

  /** The log holds exactly the change-only collapse of the statuses that were described. */
  lemma {:induction false} StatusLogIsCollapse(family: Family, polls: seq<Poll>, end: int, i: nat, last: Option<string>)
    requires i < |polls| && Settles(family, polls, end)
    ensures var run := WaitFrom(family, polls, end, i, last);
      run.statusLog == Collapse(Statuses(polls[i..run.described]), last)
    decreases |polls| - i
  {
    var run := WaitFrom(family, polls, end, i, last);
    var s := polls[i].status;
    if polls[i].now > end {
      assert polls[i..run.described] == [];
    } else if IsTerminal(family, s) {
      assert Statuses(polls[i..run.described]) == [s];
    } else {
      StatusLogIsCollapse(family, polls, end, i + 1, Some(s));
      var rest := WaitFrom(family, polls, end, i + 1, Some(s));
      var ss := Statuses(polls[i..run.described]);
      assert ss[0] == s;
      assert ss[1..] == Statuses(polls[i + 1..rest.described]);
      var logged := if Some(s) != last then [s] else [];
      assert run.statusLog == logged + rest.statusLog;
      assert Collapse(ss, last) == logged + Collapse(ss[1..], Some(s));
    }
  }

  /** Change-only logging never writes the same status twice in a row, and its first line
      differs from the status logged before. */
  lemma {:induction false} CollapseHasNoRepeats(statuses: seq<string>, last: Option<string>)
    ensures var logged := Collapse(statuses, last);
      && (|logged| > 0 ==> Some(logged[0]) != last)
      && forall j :: 0 <= j < |logged| - 1 ==> logged[j] != logged[j + 1]
  {
    if statuses != [] {
      if Some(statuses[0]) != last {
        CollapseHasNoRepeats(statuses[1..], Some(statuses[0]));
      } else {
        CollapseHasNoRepeats(statuses[1..], last);
      }
    }
  }

  /** The first describe is always logged: with a window still open, the log starts with the
      first status polled. */
  lemma FirstPollIsLogged(family: Family, entry: int, timeoutMinutes: int, polls: seq<Poll>)
    requires Settles(family, polls, WindowEnd(entry, timeoutMinutes))
    requires polls[0].now <= WindowEnd(entry, timeoutMinutes)
    ensures var run := Wait(family, entry, timeoutMinutes, polls);
      |run.statusLog| > 0 && run.statusLog[0] == polls[0].status
  {
  }
}
