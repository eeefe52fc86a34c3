/**
  `_wait_until_completed`: a window fixed on entry, the deadline checked before every describe,
  the stack's events tailed on every poll before its status is acted on, and the status classified
  into done, keep polling, failed or unknown.
 */
module StackWait {
  import opened Common
  import opened StackModel
  import opened StackEvents

  /** One round of the loop: the clock read before the describe, what `describe_stacks`
      answered, and what `describe_stack_events` listed. */
  datatype Poll = Poll(now: int, describe: DescribeResponse, events: seq<Event>)

  /** The clock read on entry and the rounds that follow. */
  datatype WaitScript = WaitScript(entry: int, polls: seq<Poll>)

  /** How a wait (or an operation that contains waits) went: its result, the provider calls it
      issued and the events it printed, each in order. */
  datatype Run<+T> = Run(result: Result<T>, calls: seq<Call>, printed: seq<Event>)

  /** Whether the loop goes on after this round's describe: only a described stack whose status
      is in progress keeps it going. */
  predicate KeepsPolling(p: Poll)
  {
    p.describe.Described? && Classify(p.describe.stack.stackStatus) == InProgress
  }

  /** A round at which the loop stops: past the deadline, or anything but an in-progress stack. */
  predicate Stops(p: Poll, end: int)
  {
    p.now > end || !KeepsPolling(p)
  }

  /** The scripted provider eventually stops the loop: its last round is a stopping one. */
  predicate Settles(w: WaitScript, timeoutMinutes: int)
  {
    |w.polls| > 0 && Stops(w.polls[|w.polls| - 1], WindowEnd(w.entry, timeoutMinutes))
  }

  /** How the loop leaves on a stack that is no longer in progress. */
  function Verdict(stack: StackDescription): (r: Result<Stack>)
    requires Classify(stack.stackStatus) != InProgress
    ensures r.Ok? <==> Classify(stack.stackStatus) == Completed
    ensures r.Ok? ==> r.value == StackOutputsToStack(stack)
    ensures Classify(stack.stackStatus) == Failed ==> r == Err(BuilderError("Stack " + stack.stackName + " failed: " + stack.stackStatus))
    ensures Classify(stack.stackStatus) == Unknown ==>
      r == Err(BuilderError("Stack " + stack.stackName + " entered unknown state: " + stack.stackStatus))
  {
    match Classify(stack.stackStatus)
    case Completed => Ok(StackOutputsToStack(stack))
    case Failed => Err(BuilderError("Stack " + stack.stackName + " failed: " + stack.stackStatus))
    case Unknown => Err(BuilderError("Stack " + stack.stackName + " entered unknown state: " + stack.stackStatus))
  }

  /** The error of subscripting the `None` that `_describe_stack` returns for a stack that has
      gone. */
  const NoneSubscript: Error := TypeError("'NoneType' object is not subscriptable")

  /** The loop from round `i` on, with `processed` the ids printed so far. */
  function WaitFrom(stackId: string, polls: seq<Poll>, start: int, end: int, i: nat, processed: set<string>): (run: Run<Stack>)
    requires i < |polls| && Stops(polls[|polls| - 1], end)
    ensures forall c :: c in run.calls ==> c == DescribeStacks(stackId) || c == DescribeStackEvents(stackId)
    decreases |polls| - i
  {
    var p := polls[i];
    if p.now > end then
      Run(Err(BuilderError(TimeoutMessage)), [], [])
    else
      match DescribeStack(p.describe)
      case Err(e) => Run(Err(e), [DescribeStacks(stackId)], [])
      case Ok(None) => Run(Err(NoneSubscript), [DescribeStacks(stackId)], [])
      case Ok(Some(stack)) =>
        var printed := NewEvents(start, processed, p.events);
        var calls := [DescribeStacks(stackId), DescribeStackEvents(stackId)];
        if Classify(stack.stackStatus) == InProgress then
          var rest := WaitFrom(stackId, polls, start, end, i + 1, processed + Ids(printed));
          Run(rest.result, calls + rest.calls, printed + rest.printed)
        else
          Run(Verdict(stack), calls, printed)
  }

  /** The whole wait for `stackId`, with the timeout of the helper in minutes. The window opens
      30 seconds before entry: no event stamped earlier is printed, and a first round whose
      clock is already past `entry - 30 + 60 * timeoutMinutes` times out before any call. */
  function Wait(stackId: string, timeoutMinutes: int, w: WaitScript): (run: Run<Stack>)
    requires Settles(w, timeoutMinutes)
    ensures forall e :: e in run.printed ==> e.timestamp >= w.entry - 30
    ensures w.polls[0].now > w.entry - 30 + 60 * timeoutMinutes ==> run == Run(Err(BuilderError(TimeoutMessage)), [], [])
  {
    PrintedInWindow(stackId, w.polls, WindowStart(w.entry), WindowEnd(w.entry, timeoutMinutes), 0, {});
    WaitFrom(stackId, w.polls, WindowStart(w.entry), WindowEnd(w.entry, timeoutMinutes), 0, {})
  }

  /** No event stamped before the window's start is printed. */
  lemma {:induction false} PrintedInWindow(stackId: string, polls: seq<Poll>, start: int, end: int, i: nat, processed: set<string>)
    requires i < |polls| && Stops(polls[|polls| - 1], end)
    ensures forall e :: e in WaitFrom(stackId, polls, start, end, i, processed).printed ==> e.timestamp >= start
    decreases |polls| - i
  {
    var p := polls[i];
    if p.now <= end && p.describe.Described? && Classify(p.describe.stack.stackStatus) == InProgress {
      var printed := NewEvents(start, processed, p.events);
      PrintedInWindow(stackId, polls, start, end, i + 1, processed + Ids(printed));
    }
  }

  /** The `while True` loop of `_wait_until_completed`. */
  method WaitUntilCompleted(stackId: string, timeoutMinutes: int, w: WaitScript)
    returns (result: Result<Stack>, calls: seq<Call>, printed: seq<Event>)
    requires Settles(w, timeoutMinutes)
    ensures Run(result, calls, printed) == Wait(stackId, timeoutMinutes, w)
  {
    var start := WindowStart(w.entry);
    var end := WindowEnd(w.entry, timeoutMinutes);
    var processed: set<string> := {};
    var polls := w.polls;
    ghost var total := Wait(stackId, timeoutMinutes, w);
    calls, printed := [], [];
    var i := 0;
    while true
      invariant i < |polls|
      invariant var rest := WaitFrom(stackId, polls, start, end, i, processed);
        total == Run(rest.result, calls + rest.calls, printed + rest.printed)
      decreases |polls| - i
    {
      ghost var rest := WaitFrom(stackId, polls, start, end, i, processed);
      if polls[i].now > end {
        assert rest == Run(Err(BuilderError(TimeoutMessage)), [], []);
        assert calls + [] == calls && printed + [] == printed;
        return Err(BuilderError(TimeoutMessage)), calls, printed;
      }
      var described := DescribeStack(polls[i].describe);
      if described.Err? {
        assert rest == Run(Err(described.error), [DescribeStacks(stackId)], []);
        assert printed + [] == printed;
        return Err(described.error), calls + [DescribeStacks(stackId)], printed;
      }
      if described.value.None? {
        assert rest == Run(Err(NoneSubscript), [DescribeStacks(stackId)], []);
        assert printed + [] == printed;
        return Err(NoneSubscript), calls + [DescribeStacks(stackId)], printed;
      }
      var stack := described.value.value;
      ghost var before := processed;
      var newlyPrinted;
      processed, newlyPrinted := PrintEvents(start, processed, polls[i].events);
      var round := [DescribeStacks(stackId), DescribeStackEvents(stackId)];
      if Classify(stack.stackStatus) != InProgress {
        assert rest == Run(Verdict(stack), round, newlyPrinted);
        return Verdict(stack), calls + round, printed + newlyPrinted;
      }
      ghost var next := WaitFrom(stackId, polls, start, end, i + 1, processed);
      assert rest == Run(next.result, round + next.calls, newlyPrinted + next.printed);
      assert calls + (round + next.calls) == (calls + round) + next.calls;
      assert printed + (newlyPrinted + next.printed) == (printed + newlyPrinted) + next.printed;
      calls := calls + round;
      printed := printed + newlyPrinted;
      i := i + 1;
    }
  }

  /** The round at which the loop stops, on its own. */
  lemma StopRound(stackId: string, polls: seq<Poll>, start: int, end: int, k: nat, processed: set<string>)
    requires k < |polls| && Stops(polls[|polls| - 1], end) && Stops(polls[k], end)
    ensures var run := WaitFrom(stackId, polls, start, end, k, processed);
      && (polls[k].now > end ==> run.result == Err(BuilderError(TimeoutMessage)) && |run.calls| == 0)
      && (polls[k].now <= end && polls[k].describe.Described? ==>
            run.result == Verdict(polls[k].describe.stack) && |run.calls| == 2)
      && (polls[k].now <= end && polls[k].describe.DescribeError? ==>
            |run.calls| == 1
            && run.result == (if polls[k].describe.cause.httpStatus == 400 then Err(NoneSubscript)
                              else Err(ProviderError(polls[k].describe.cause))))
  {
  }

  /** The loop ends at the first stopping round `k`: on the deadline there with no describe
      after it, otherwise with that round's verdict. Every round before `k` issued exactly one
      describe and one event listing. */
  lemma {:induction false} WaitEndsAtFirstStop(stackId: string, polls: seq<Poll>, start: int, end: int, i: nat, processed: set<string>, k: nat)
    requires i <= k < |polls| && Stops(polls[|polls| - 1], end)
    requires forall j :: i <= j < k ==> !Stops(polls[j], end)
    requires Stops(polls[k], end)
    ensures var run := WaitFrom(stackId, polls, start, end, i, processed);
      && (polls[k].now > end ==> run.result == Err(BuilderError(TimeoutMessage)) && |run.calls| == 2 * (k - i))
      && (polls[k].now <= end && polls[k].describe.Described? ==>
            run.result == Verdict(polls[k].describe.stack) && |run.calls| == 2 * (k - i) + 2)
      && (polls[k].now <= end && polls[k].describe.DescribeError? ==>
            |run.calls| == 2 * (k - i) + 1
            && run.result == (if polls[k].describe.cause.httpStatus == 400 then Err(NoneSubscript)
                              else Err(ProviderError(polls[k].describe.cause))))
    decreases k - i
  {
    if i < k {
      assert !Stops(polls[i], end);
      var stack := polls[i].describe.stack;
      assert DescribeStack(polls[i].describe) == Ok(Some(stack));
      var printed := NewEvents(start, processed, polls[i].events);
      WaitEndsAtFirstStop(stackId, polls, start, end, i + 1, processed + Ids(printed), k);
      var rest := WaitFrom(stackId, polls, start, end, i + 1, processed + Ids(printed));
      var run := WaitFrom(stackId, polls, start, end, i, processed);
      assert run.result == rest.result;
      assert |run.calls| == 2 + |rest.calls|;
    } else {
      StopRound(stackId, polls, start, end, k, processed);
    }
  }

  /** The events are tailed before the status is acted on: a failing round's new events are
      printed, and are the last ones printed, before the failure is raised. */
  lemma FailingRoundPrintsItsEvents(stackId: string, polls: seq<Poll>, start: int, end: int, i: nat, processed: set<string>)
    requires i < |polls| && Stops(polls[|polls| - 1], end)
    requires polls[i].now <= end && polls[i].describe.Described?
    requires Classify(polls[i].describe.stack.stackStatus) == Failed
    ensures var run := WaitFrom(stackId, polls, start, end, i, processed);
      && run.result.Err?
      && run.printed == NewEvents(start, processed, polls[i].events)
      && run.calls == [DescribeStacks(stackId), DescribeStackEvents(stackId)]
  {
  }

  /** Across the whole wait no id is printed twice, none that was processed before, and none
      stamped before the window opened, provided each listing has distinct ids. */
  lemma {:induction false} PrintedOnce(stackId: string, polls: seq<Poll>, start: int, end: int, i: nat, processed: set<string>)
    requires i < |polls| && Stops(polls[|polls| - 1], end)
    requires forall j :: i <= j < |polls| ==> DistinctIds(polls[j].events)
    ensures var run := WaitFrom(stackId, polls, start, end, i, processed);
      && DistinctIds(run.printed)
      && forall e :: e in run.printed ==> e.eventId !in processed && e.timestamp >= start
    decreases |polls| - i
  {
    var p := polls[i];
    var run := WaitFrom(stackId, polls, start, end, i, processed);
    if p.now <= end && p.describe.Described? {
      var printed := NewEvents(start, processed, p.events);
      NewEventsShape(start, processed, p.events);
      if Classify(p.describe.stack.stackStatus) == InProgress {
        var after := processed + Ids(printed);
        PrintedOnce(stackId, polls, start, end, i + 1, after);
        var rest := WaitFrom(stackId, polls, start, end, i + 1, after);
        assert run.printed == printed + rest.printed;
        forall a, b | 0 <= a < b < |run.printed| ensures run.printed[a].eventId != run.printed[b].eventId {
          if b >= |printed| {
            assert run.printed[b] == rest.printed[b - |printed|];
            assert run.printed[b] in rest.printed;
            if a < |printed| {
              assert run.printed[a].eventId in Ids(printed);
            } else {
              assert run.printed[a] == rest.printed[a - |printed|];
            }
          }
        }
        forall e | e in run.printed ensures e.eventId !in processed && e.timestamp >= start {
          if e !in printed {
            assert e in rest.printed;
          }
        }
      }
    }
  }
}
