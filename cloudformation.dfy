/**
  The operations of the CloudFormation helper: `delete_stack` with its optional purge,
  `_create_stack`, `_update_stack` (where "No updates are to be performed." counts as success) and
  `create_or_update_stack`, which picks one of them from a describe of the stack.
 */
module CloudFormation {
  import opened Common
  import opened StackModel
  import opened StackEvents
  import opened StackWait
  import opened StackPurge

  /** The settings of a helper object: the wait timeout in minutes and the optional role ARN. */
  datatype Helper = Helper(waitTimeout: int, roleArn: Option<string>)

  const CapabilityIam: string := "CAPABILITY_IAM"
  const CapabilityNamedIam: string := "CAPABILITY_NAMED_IAM"
  const CapabilityAutoExpand: string := "CAPABILITY_AUTO_EXPAND"

  /** The position of a capability in the order the flags are tested. */
  function CapabilityRank(c: string): int
  {
    if c == CapabilityIam then 0 else if c == CapabilityNamedIam then 1 else 2
  }

  /** The capability list: one entry per flag that is set, in the order IAM, named IAM, auto
      expand. */
  function Capabilities(iam: bool, namedIam: bool, autoExpand: bool): (caps: seq<string>)
    ensures CapabilityIam in caps <==> iam
    ensures CapabilityNamedIam in caps <==> namedIam
    ensures CapabilityAutoExpand in caps <==> autoExpand
    ensures |caps| == (if iam then 1 else 0) + (if namedIam then 1 else 0) + (if autoExpand then 1 else 0)
    ensures forall i, j :: 0 <= i < j < |caps| ==> CapabilityRank(caps[i]) < CapabilityRank(caps[j])
  {
    (if iam then [CapabilityIam] else [])
    + (if namedIam then [CapabilityNamedIam] else [])
    + (if autoExpand then [CapabilityAutoExpand] else [])
  }

  /** The `append`s of `create_or_update_stack` that build the capability list. */
  method BuildCapabilities(iam: bool, namedIam: bool, autoExpand: bool) returns (caps: seq<string>)
    ensures caps == Capabilities(iam, namedIam, autoExpand)
  {
    caps := [];
    if iam {
      caps := caps + [CapabilityIam];
    }
    if namedIam {
      caps := caps + [CapabilityNamedIam];
    }
    if autoExpand {
      caps := caps + [CapabilityAutoExpand];
    }
  }

  /** The parameter list built from the keyword parameters, in their order. */
  function Parameters(parameters: seq<(string, string)>): (ps: seq<Parameter>)
    ensures |ps| == |parameters|
    ensures forall i :: 0 <= i < |ps| ==> ps[i] == Parameter(parameters[i].0, parameters[i].1)
  {
    seq(|parameters|, i requires 0 <= i < |parameters| => Parameter(parameters[i].0, parameters[i].1))
  }

  /** The tag list built from the tags, in their order; no tags give an empty list. */
  function Tags(tags: Option<seq<(string, string)>>): (ts: seq<Tag>)
    ensures tags.None? ==> ts == []
    ensures tags.Some? ==> |ts| == |tags.value| && forall i :: 0 <= i < |ts| ==> ts[i] == Tag(tags.value[i].0, tags.value[i].1)
  {
    if tags.None? then []
    else seq(|tags.value|, i requires 0 <= i < |tags.value| => Tag(tags.value[i].0, tags.value[i].1))
  }

  /** What the provider answers during `delete_stack`: the describe, the resources with their
      content (read only when content is deleted) and the wait that follows the delete call. */
  datatype DeleteScript = DeleteScript(lookup: DescribeResponse, resources: seq<ScriptedResource>, wait: WaitScript)

  /** The calls that belong to the purge. */
  predicate IsPurgeCall(c: Call)
  {
    c.ListStackResources? || c.ListImages? || c.BatchDeleteImage? || c.ListObjectVersions? || c.DeleteObjects?
  }

  /** Whether `delete_stack` reaches its delete call and the wait after it. */
  predicate DeleteReachesWait(deleteContent: bool, script: DeleteScript)
  {
    && script.lookup.Described?
    && (deleteContent ==> Purge(script.resources).0.Ok?)
  }

  /** `delete_stack`: describe, purge when asked for, delete (with the role ARN when there is
      one), then wait. */
  function DeleteStackRun(helper: Helper, stackName: string, deleteContent: bool, script: DeleteScript): (run: Run<()>)
    requires DeleteReachesWait(deleteContent, script) ==> Settles(script.wait, helper.waitTimeout)
    ensures |run.calls| > 0 && run.calls[0] == DescribeStacks(stackName)
  {
    var described := [DescribeStacks(stackName)];
    match DescribeStack(script.lookup)
    case Err(e) => Run(Err(e), described, [])
    case Ok(None) => Run(Err(BuilderError("Stack " + stackName + " does not exist")), described, [])
    case Ok(Some(stack)) =>
      var purged := Purge(script.resources);
      var purgeCalls := if deleteContent then [ListStackResources(stackName)] + purged.1 else [];
      if deleteContent && purged.0.Err? then
        Run(Err(purged.0.error), described + purgeCalls, [])
      else
        var w := Wait(stack.stackId, helper.waitTimeout, script.wait);
        Run(if w.result.Ok? then Ok(()) else Err(w.result.error),
            described + purgeCalls + [DeleteStack(stackName, helper.roleArn)] + w.calls, w.printed)
  }

  /** A call sequence `head + [d] + tail` in which `d` is the only delete and no purge call
      follows it. */
  lemma DeleteLayout(head: seq<Call>, d: Call, tail: seq<Call>)
    requires d.DeleteStack?
    requires forall c :: c in head ==> !c.DeleteStack?
    requires forall c :: c in tail ==> !c.DeleteStack? && !IsPurgeCall(c)
    ensures var cs := head + [d] + tail;
      && d in cs
      && (forall c :: c in cs && c.DeleteStack? ==> c == d)
      && (forall j, l :: 0 <= j < l < |cs| && cs[j].DeleteStack? ==> !IsPurgeCall(cs[l]))
  {
  }

  /** The calls of `delete_stack` when the stack exists: the describe, the purge when asked
      for, and, unless the purge failed, the delete call and the wait. */
  lemma DeleteStackCalls(helper: Helper, stackName: string, deleteContent: bool, script: DeleteScript)
    requires DeleteReachesWait(deleteContent, script) ==> Settles(script.wait, helper.waitTimeout)
    requires script.lookup.Described?
    ensures var run := DeleteStackRun(helper, stackName, deleteContent, script);
      var purgeCalls := if deleteContent then [ListStackResources(stackName)] + Purge(script.resources).1 else [];
      && (forall c :: c in purgeCalls ==> IsPurgeCall(c))
      && (DeleteReachesWait(deleteContent, script) ==>
            run.calls == [DescribeStacks(stackName)] + purgeCalls + [DeleteStack(stackName, helper.roleArn)]
                         + Wait(script.lookup.stack.stackId, helper.waitTimeout, script.wait).calls)
      && (!DeleteReachesWait(deleteContent, script) ==> run.calls == [DescribeStacks(stackName)] + purgeCalls)
  {
  }

  /** The order of `delete_stack`. A missing stack is an error before any other call. The
      delete call is issued exactly when the stack exists and the purge, if asked for,
      succeeded; it is the only delete call and carries the role ARN. Without `delete_content`
      there is no purge call at all, and no purge call ever follows the delete call. */
  lemma DeleteStackOrder(helper: Helper, stackName: string, deleteContent: bool, script: DeleteScript)
    requires DeleteReachesWait(deleteContent, script) ==> Settles(script.wait, helper.waitTimeout)
    ensures var run := DeleteStackRun(helper, stackName, deleteContent, script);
      && (DescribeStack(script.lookup) == Ok(None) ==>
            run == Run(Err(BuilderError("Stack " + stackName + " does not exist")), [DescribeStacks(stackName)], []))
      && (DeleteStack(stackName, helper.roleArn) in run.calls <==> DeleteReachesWait(deleteContent, script))
      && (forall c :: c in run.calls && c.DeleteStack? ==> c == DeleteStack(stackName, helper.roleArn))
      && (!deleteContent ==> forall c :: c in run.calls ==> !IsPurgeCall(c))
      && (forall j, l :: 0 <= j < l < |run.calls| && run.calls[j].DeleteStack? ==> !IsPurgeCall(run.calls[l]))
  {
    var run := DeleteStackRun(helper, stackName, deleteContent, script);
    if script.lookup.Described? {
      DeleteStackCalls(helper, stackName, deleteContent, script);
      var purgeCalls := if deleteContent then [ListStackResources(stackName)] + Purge(script.resources).1 else [];
      var head := [DescribeStacks(stackName)] + purgeCalls;
      assert forall c :: c in head ==> !c.DeleteStack? && (c in purgeCalls || c == DescribeStacks(stackName));
      if DeleteReachesWait(deleteContent, script) {
        var tail := Wait(script.lookup.stack.stackId, helper.waitTimeout, script.wait).calls;
        DeleteLayout(head, DeleteStack(stackName, helper.roleArn), tail);
        assert run.calls == head + [DeleteStack(stackName, helper.roleArn)] + tail;
        if !deleteContent {
          assert forall c :: c in run.calls ==> c in head || c == DeleteStack(stackName, helper.roleArn) || c in tail;
        }
      } else {
        assert run.calls == head;
      }
    }
  }

  /** `delete_stack` fails unless it reaches its delete call, and it never creates or updates. */
  lemma DeleteStackScope(helper: Helper, stackName: string, deleteContent: bool, script: DeleteScript)
    requires DeleteReachesWait(deleteContent, script) ==> Settles(script.wait, helper.waitTimeout)
    ensures var run := DeleteStackRun(helper, stackName, deleteContent, script);
      && (!DeleteReachesWait(deleteContent, script) ==> run.result.Err?)
      && (forall c :: c in run.calls ==> !c.CreateStack? && !c.UpdateStack?)
  {
  }

  /** `_create_stack`: submit, then wait for the new stack; a rejected submit propagates. */
  function CreateStackRun(helper: Helper, request: StackRequest, submit: SubmitResponse, wait: WaitScript): (run: Run<Stack>)
    requires submit.Submitted? ==> Settles(wait, helper.waitTimeout)
    ensures |run.calls| > 0 && run.calls[0] == CreateStack(request)
    ensures submit.SubmitError? ==> run == Run(Err(ProviderError(submit.cause)), [CreateStack(request)], [])
    ensures submit.Submitted? ==> var w := Wait(submit.stackId, helper.waitTimeout, wait);
      run.result == w.result && run.calls[1..] == w.calls && run.printed == w.printed
  {
    match submit
    case SubmitError(e) => Run(Err(ProviderError(e)), [CreateStack(request)], [])
    case Submitted(stackId) =>
      var w := Wait(stackId, helper.waitTimeout, wait);
      Run(w.result, [CreateStack(request)] + w.calls, w.printed)
  }

  const NoUpdatesMessage: string := "No updates are to be performed."

  /** Whether an error is the `ClientError` that says there was nothing to update. */
  predicate IsNoUpdates(e: Error)
  {
    e.ProviderError? && e.cause.message == NoUpdatesMessage
  }

  /** `_update_stack`: submit and wait inside one `try`; a `ClientError` from either whose message
      is "No updates are to be performed." gives the stack as described before the update; any
      other error propagates. */
  function UpdateStackRun(helper: Helper, stack: StackDescription, request: StackRequest, submit: SubmitResponse, wait: WaitScript): (run: Run<Stack>)
    requires submit.Submitted? ==> Settles(wait, helper.waitTimeout)
    ensures |run.calls| > 0 && run.calls[0] == UpdateStack(request)
    ensures submit.SubmitError? ==> run.calls == [UpdateStack(request)] && run.printed == []
    ensures submit.SubmitError? && submit.cause.message == NoUpdatesMessage ==> run.result == Ok(StackOutputsToStack(stack))
    ensures submit.SubmitError? && submit.cause.message != NoUpdatesMessage ==> run.result == Err(ProviderError(submit.cause))
    ensures submit.Submitted? ==> var w := Wait(submit.stackId, helper.waitTimeout, wait);
      && run.calls[1..] == w.calls && run.printed == w.printed
      && run.result == (if w.result.Err? && IsNoUpdates(w.result.error) then Ok(StackOutputsToStack(stack)) else w.result)
  {
    match submit
    case SubmitError(e) =>
      var r := if e.message == NoUpdatesMessage then Ok(StackOutputsToStack(stack)) else Err(ProviderError(e));
      Run(r, [UpdateStack(request)], [])
    case Submitted(stackId) =>
      var w := Wait(stackId, helper.waitTimeout, wait);
      var r := if w.result.Err? && IsNoUpdates(w.result.error) then Ok(StackOutputsToStack(stack)) else w.result;
      Run(r, [UpdateStack(request)] + w.calls, w.printed)
  }

  /** The branch `create_or_update_stack` takes after describing the stack. */
  datatype Plan = LookupFailed(error: Error) | Create | Recreate | Update(stack: StackDescription)

  /** A missing stack is created, a `DELETE_COMPLETE` one deleted and created again, any other
      updated; a describe error other than HTTP 400 propagates. */
  function Decide(lookup: DescribeResponse): (plan: Plan)
    ensures plan.LookupFailed? <==> lookup.DescribeError? && lookup.cause.httpStatus != 400
    ensures plan.LookupFailed? ==> plan.error == ProviderError(lookup.cause)
    ensures plan.Create? <==> lookup.DescribeError? && lookup.cause.httpStatus == 400
    ensures plan.Recreate? <==> lookup.Described? && lookup.stack.stackStatus == "DELETE_COMPLETE"
    ensures plan.Update? <==> lookup.Described? && lookup.stack.stackStatus != "DELETE_COMPLETE"
    ensures plan.Update? ==> plan.stack == lookup.stack
  {
    match DescribeStack(lookup)
    case Err(e) => LookupFailed(e)
    case Ok(None) => Create
    case Ok(Some(stack)) => if stack.stackStatus == "DELETE_COMPLETE" then Recreate else Update(stack)
  }

  /** What the provider answers during `create_or_update_stack`: the first describe, the
      `delete_stack` of a recreate, the create or update call and the wait after it. */
  datatype ReconcileScript = ReconcileScript(lookup: DescribeResponse, recreate: DeleteScript, submit: SubmitResponse, wait: WaitScript)

  /** The arguments of `create_or_update_stack` other than the template file, whose text is
      `templateBody`; parameters and tags are in their dictionaries' order. */
  datatype ReconcileArgs = ReconcileArgs(
    stackName: string, templateBody: string, tags: Option<seq<(string, string)>>,
    capabilityIam: bool, capabilityNamedIam: bool, capabilityAutoExpand: bool,
    parameters: seq<(string, string)>)

  /** The scripted provider stops every wait the run reaches. */
  predicate ReconcileSettles(helper: Helper, script: ReconcileScript)
  {
    && (script.submit.Submitted? ==> Settles(script.wait, helper.waitTimeout))
    && (DeleteReachesWait(false, script.recreate) ==> Settles(script.recreate.wait, helper.waitTimeout))
  }

  /** The request `_create_stack` and `_update_stack` send for `create_or_update_stack`, under
      `name`: the template text, one parameter entry per keyword parameter and one tag entry per
      tag (none when no tags were given), each in order, the capabilities of the flags, and the
      role ARN of the helper. */
  function ReconcileRequest(helper: Helper, args: ReconcileArgs, name: string): (req: StackRequest)
    ensures req.stackName == name && req.templateBody == args.templateBody && req.roleArn == helper.roleArn
    ensures |req.parameters| == |args.parameters|
    ensures forall i :: 0 <= i < |args.parameters| ==>
      req.parameters[i].parameterKey == args.parameters[i].0 && req.parameters[i].parameterValue == args.parameters[i].1
    ensures args.tags.None? ==> req.tags == []
    ensures args.tags.Some? ==> |req.tags| == |args.tags.value|
    ensures args.tags.Some? ==> forall i :: 0 <= i < |args.tags.value| ==>
      req.tags[i].key == args.tags.value[i].0 && req.tags[i].value == args.tags.value[i].1
    ensures CapabilityIam in req.capabilities <==> args.capabilityIam
    ensures CapabilityNamedIam in req.capabilities <==> args.capabilityNamedIam
    ensures CapabilityAutoExpand in req.capabilities <==> args.capabilityAutoExpand
    ensures req.capabilities == Capabilities(args.capabilityIam, args.capabilityNamedIam, args.capabilityAutoExpand)
  {
    StackRequest(name, args.templateBody, Parameters(args.parameters), Tags(args.tags),
                 Capabilities(args.capabilityIam, args.capabilityNamedIam, args.capabilityAutoExpand), helper.roleArn)
  }

  /** `create_or_update_stack`. */
  function CreateOrUpdateStackRun(helper: Helper, args: ReconcileArgs, script: ReconcileScript): (run: Run<Stack>)
    requires ReconcileSettles(helper, script)
    ensures |run.calls| > 0 && run.calls[0] == DescribeStacks(args.stackName)
  {
    var described := [DescribeStacks(args.stackName)];
    match Decide(script.lookup)
    case LookupFailed(e) => Run(Err(e), described, [])
    case Create =>
      var created := CreateStackRun(helper, ReconcileRequest(helper, args, args.stackName), script.submit, script.wait);
      Run(created.result, described + created.calls, created.printed)
    case Recreate =>
      var deleted := DeleteStackRun(helper, args.stackName, false, script.recreate);
      if deleted.result.Err? then
        Run(Err(deleted.result.error), described + deleted.calls, deleted.printed)
      else
        var created := CreateStackRun(helper, ReconcileRequest(helper, args, args.stackName), script.submit, script.wait);
        Run(created.result, described + deleted.calls + created.calls, deleted.printed + created.printed)
    case Update(stack) =>
      var updated := UpdateStackRun(helper, stack, ReconcileRequest(helper, args, stack.stackName), script.submit, script.wait);
      Run(updated.result, described + updated.calls, updated.printed)
  }

  /** The decision table: after the describe, a missing stack goes straight to `_create_stack`;
      a `DELETE_COMPLETE` stack goes through `delete_stack` (which describes it again) and is
      created only after its delete call, and only when the delete succeeded; any other stack
      goes to `_update_stack` under the described name; a failing describe ends the run. Each
      branch's result, calls and printed events are those of the operations it runs, after the
      one describe. */
  lemma DecisionTable(helper: Helper, args: ReconcileArgs, script: ReconcileScript)
    requires ReconcileSettles(helper, script)
    ensures var run := CreateOrUpdateStackRun(helper, args, script);
      var described := [DescribeStacks(args.stackName)];
      var created := CreateStackRun(helper, ReconcileRequest(helper, args, args.stackName), script.submit, script.wait);
      && (Decide(script.lookup).LookupFailed? ==>
            run == Run(Err(ProviderError(script.lookup.cause)), described, []))
      && (Decide(script.lookup).Create? ==>
            && run == Run(created.result, described + created.calls, created.printed)
            && run.calls[1] == CreateStack(ReconcileRequest(helper, args, args.stackName)))
      && (Decide(script.lookup).Recreate? ==>
            var deleted := DeleteStackRun(helper, args.stackName, false, script.recreate);
            && (deleted.result.Err? ==> run == Run(Err(deleted.result.error), described + deleted.calls, deleted.printed))
            && (deleted.result.Ok? ==>
                  run == Run(created.result, described + deleted.calls + created.calls, deleted.printed + created.printed))
            && |run.calls| > 1 && run.calls[1] == DescribeStacks(args.stackName)
            && forall l :: 1 <= l < |run.calls| && run.calls[l].CreateStack? ==>
                 exists j :: 1 <= j < l && run.calls[j] == DeleteStack(args.stackName, helper.roleArn))
      && (Decide(script.lookup).Update? ==>
            var updated := UpdateStackRun(helper, script.lookup.stack, ReconcileRequest(helper, args, script.lookup.stack.stackName),
                                          script.submit, script.wait);
            && run == Run(updated.result, described + updated.calls, updated.printed)
            && run.calls[1] == UpdateStack(ReconcileRequest(helper, args, script.lookup.stack.stackName)))
  {
    if Decide(script.lookup).Recreate? {
      RecreateDeletesFirst(helper, args, script);
    }
  }

  /** A recreate describes the stack again in `delete_stack`, and a create call comes only
      after the delete call. */
  lemma RecreateDeletesFirst(helper: Helper, args: ReconcileArgs, script: ReconcileScript)
    requires ReconcileSettles(helper, script) && Decide(script.lookup).Recreate?
    ensures var run := CreateOrUpdateStackRun(helper, args, script);
      && |run.calls| > 1 && run.calls[1] == DescribeStacks(args.stackName)
      && forall l :: 1 <= l < |run.calls| && run.calls[l].CreateStack? ==>
           exists j :: 1 <= j < l && run.calls[j] == DeleteStack(args.stackName, helper.roleArn)
  {
    var run := CreateOrUpdateStackRun(helper, args, script);
    var deleted := DeleteStackRun(helper, args.stackName, false, script.recreate);
    DeleteStackOrder(helper, args.stackName, false, script.recreate);
    DeleteStackScope(helper, args.stackName, false, script.recreate);
    var delete := DeleteStack(args.stackName, helper.roleArn);
    if deleted.result.Ok? {
      var created := CreateStackRun(helper, ReconcileRequest(helper, args, args.stackName), script.submit, script.wait);
      assert run.calls == [DescribeStacks(args.stackName)] + deleted.calls + created.calls;
      var k :| 0 <= k < |deleted.calls| && deleted.calls[k] == delete;
      forall l | 1 <= l < |run.calls| && run.calls[l].CreateStack?
        ensures exists j :: 1 <= j < l && run.calls[j] == delete
      {
        assert run.calls[k + 1] == deleted.calls[k];
      }
    } else {
      assert run.calls == [DescribeStacks(args.stackName)] + deleted.calls;
      forall l | 1 <= l < |run.calls| ensures !run.calls[l].CreateStack? {
        assert run.calls[l] == deleted.calls[l - 1];
      }
    }
  }

  /** A create whose wait reaches, within the window and before any other stopping round, a
      round `k` that describes a completed stack returns that snapshot's outputs, after the
      describe, the create call and two calls per round. */
  lemma CreateReturnsFinalSnapshot(helper: Helper, args: ReconcileArgs, script: ReconcileScript, k: nat)
    requires ReconcileSettles(helper, script)
    requires Decide(script.lookup).Create? && script.submit.Submitted?
    requires k < |script.wait.polls|
    requires forall j :: 0 <= j < k ==> !Stops(script.wait.polls[j], WindowEnd(script.wait.entry, helper.waitTimeout))
    requires script.wait.polls[k].now <= WindowEnd(script.wait.entry, helper.waitTimeout)
    requires script.wait.polls[k].describe.Described?
    requires Classify(script.wait.polls[k].describe.stack.stackStatus) == Completed
    ensures var run := CreateOrUpdateStackRun(helper, args, script);
      && run.result == Ok(StackOutputsToStack(script.wait.polls[k].describe.stack))
      && |run.calls| == 2 * k + 4
  {
    var w := script.wait;
    var start, end := WindowStart(w.entry), WindowEnd(w.entry, helper.waitTimeout);
    assert Stops(w.polls[k], end);
    WaitEndsAtFirstStop(script.submit.stackId, w.polls, start, end, 0, {}, k);
  }

  /** An update the provider rejects with "No updates are to be performed." returns the outputs
      of the stack as first described, with no wait: the run issued the describe and the update
      call only. Any other rejection propagates after the same two calls. */
  lemma NoUpdatesIsSuccess(helper: Helper, args: ReconcileArgs, script: ReconcileScript)
    requires ReconcileSettles(helper, script)
    requires Decide(script.lookup).Update? && script.submit.SubmitError?
    ensures var run := CreateOrUpdateStackRun(helper, args, script);
      && run.calls == [DescribeStacks(args.stackName), UpdateStack(ReconcileRequest(helper, args, script.lookup.stack.stackName))]
      && run.printed == []
      && (script.submit.cause.message == NoUpdatesMessage ==> run.result == Ok(StackOutputsToStack(script.lookup.stack)))
      && (script.submit.cause.message != NoUpdatesMessage ==> run.result == Err(ProviderError(script.submit.cause)))
  {
  }
}
