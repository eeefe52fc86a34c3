/**
  The values the CloudFormation helper works with: the stack status tables and their classifier,
  a described stack and the `Stack` it is turned into, the provider's answers, and the calls the
  helper issues.
 */
module StackModel {
  import opened Common

  const CompletedStates: seq<string> := ["CREATE_COMPLETE", "DELETE_COMPLETE", "UPDATE_COMPLETE"]

  const InProgressStates: seq<string> :=
    ["CREATE_IN_PROGRESS", "DELETE_IN_PROGRESS", "REVIEW_IN_PROGRESS", "ROLLBACK_IN_PROGRESS",
     "UPDATE_COMPLETE_CLEANUP_IN_PROGRESS", "UPDATE_IN_PROGRESS",
     "UPDATE_ROLLBACK_COMPLETE_CLEANUP_IN_PROGRESS", "UPDATE_ROLLBACK_IN_PROGRESS"]

  const FailedStates: seq<string> :=
    ["ROLLBACK_COMPLETE", "UPDATE_ROLLBACK_COMPLETE", "CREATE_FAILED", "DELETE_FAILED",
     "ROLLBACK_FAILED", "UPDATE_ROLLBACK_FAILED"]

  /** What the wait loop does with a stack status. */
  datatype StatusClass = Completed | InProgress | Failed | Unknown

  /** The `if`/`elif` chain of the wait loop: the tables are tried in the order completed,
      in progress, failed; a status in none of them is unknown. */
  function Classify(status: string): StatusClass
  {
    if status in CompletedStates then Completed
    else if status in InProgressStates then InProgress
    else if status in FailedStates then Failed
    else Unknown
  }

  /** No status is in two tables, so every status has exactly one class and the order of the
      tests does not matter: each class is membership of its own table. */
  lemma ClassifyByTable(status: string)
    ensures Classify(status) == Completed <==> status in CompletedStates
    ensures Classify(status) == InProgress <==> status in InProgressStates
    ensures Classify(status) == Failed <==> status in FailedStates
    ensures Classify(status) == Unknown <==> status !in CompletedStates + InProgressStates + FailedStates
  {
  }

  /** The three tables share no status. */
  lemma StatusTablesDisjoint()
    ensures forall s :: s in CompletedStates ==> s !in InProgressStates && s !in FailedStates
    ensures forall s :: s in InProgressStates ==> s !in FailedStates
  {
  }

  /** One entry of a stack's `Outputs`. */
  datatype Output = Output(outputKey: string, outputValue: string)

  /** The part of a `describe_stacks` entry the helper reads; `outputs` is `None` when the
      response has no `Outputs` key. */
  datatype StackDescription = StackDescription(stackId: string, stackName: string, stackStatus: string, outputs: Option<seq<Output>>)

  /** The `Stack` dataclass handed back to callers. */
  datatype Stack = Stack(name: string, output: map<string, string>)

  /** The keys of `outputs`, as a set. */
  function OutputKeys(outputs: seq<Output>): set<string>
  {
    set j | 0 <= j < |outputs| :: outputs[j].outputKey
  }

  /** The dict comprehension over `Outputs`, one entry after another: its keys are exactly the
      listed output keys. */
  function OutputMap(outputs: seq<Output>): (m: map<string, string>)
    ensures m.Keys == OutputKeys(outputs)
    decreases |outputs|
  {
    if outputs == [] then map[]
    else
      var last := outputs[|outputs| - 1];
      OutputKeysSnoc(outputs);
      OutputMap(outputs[..|outputs| - 1])[last.outputKey := last.outputValue]
  }

  /** The keys of a non-empty list are those of all but its last entry, plus the last one's. */
  lemma OutputKeysSnoc(outputs: seq<Output>)
    requires outputs != []
    ensures OutputKeys(outputs) == OutputKeys(outputs[..|outputs| - 1]) + {outputs[|outputs| - 1].outputKey}
  {
    var n := |outputs| - 1;
    var front := outputs[..n];
    forall k | k in OutputKeys(outputs) ensures k in OutputKeys(front) + {outputs[n].outputKey} {
      var j :| 0 <= j < |outputs| && outputs[j].outputKey == k;
      if j < n {
        assert front[j].outputKey == k;
      }
    }
    forall k | k in OutputKeys(front) ensures k in OutputKeys(outputs) {
      var j :| 0 <= j < n && front[j].outputKey == k;
      assert outputs[j].outputKey == k;
    }
  }

  /** Each key maps to the value of its last entry: a later duplicate overwrites an earlier
      one. */
  lemma {:induction false} OutputMapLastWins(outputs: seq<Output>)
    ensures forall j :: 0 <= j < |outputs| && (forall l :: j < l < |outputs| ==> outputs[l].outputKey != outputs[j].outputKey)
              ==> OutputMap(outputs)[outputs[j].outputKey] == outputs[j].outputValue
    decreases |outputs|
  {
    if outputs != [] {
      var n := |outputs| - 1;
      var front := outputs[..n];
      OutputMapLastWins(front);
      assert forall j :: 0 <= j < n ==> front[j] == outputs[j];
    }
  }

  /** `_stack_outputs_to_stack`: the name from `StackName`, and the outputs as a mapping (empty
      when there are none). */
  function StackOutputsToStack(stack: StackDescription): (r: Stack)
    ensures r.name == stack.stackName
    ensures stack.outputs.None? ==> r.output == map[]
    ensures stack.outputs.Some? ==> r.output == OutputMap(stack.outputs.value)
  {
    Stack(stack.stackName, if stack.outputs.Some? then OutputMap(stack.outputs.value) else map[])
  }

  /** What the provider answers to one `describe_stacks` call. */
  datatype DescribeResponse = Described(stack: StackDescription) | DescribeError(cause: ClientError)

  /** `_describe_stack`: HTTP 400 means the stack does not exist; any other error propagates. */
  function DescribeStack(response: DescribeResponse): (r: Result<Option<StackDescription>>)
    ensures r == Ok(None) <==> response.DescribeError? && response.cause.httpStatus == 400
    ensures r.Err? <==> response.DescribeError? && response.cause.httpStatus != 400
    ensures r.Err? ==> r.error == ProviderError(response.cause)
    ensures response.Described? ==> r == Ok(Some(response.stack))
  {
    match response
    case Described(stack) => Ok(Some(stack))
    case DescribeError(cause) => if cause.httpStatus == 400 then Ok(None) else Err(ProviderError(cause))
  }

  /** `describe_stack`: the described stack as a `Stack`, None when it does not exist; other
      errors propagate. */
  function DescribeToStack(response: DescribeResponse): (r: Result<Option<Stack>>)
    ensures r == Ok(None) <==> response.DescribeError? && response.cause.httpStatus == 400
    ensures r.Err? <==> response.DescribeError? && response.cause.httpStatus != 400
    ensures r.Err? ==> r.error == ProviderError(response.cause)
    ensures response.Described? ==> r == Ok(Some(StackOutputsToStack(response.stack)))
  {
    match DescribeStack(response)
    case Err(e) => Err(e)
    case Ok(None) => Ok(None)
    case Ok(Some(stack)) => Ok(Some(StackOutputsToStack(stack)))
  }

  /** A parameter or tag entry of a request. */
  datatype Parameter = Parameter(parameterKey: string, parameterValue: string)
  datatype Tag = Tag(key: string, value: string)

  /** The keyword arguments of `create_stack` / `update_stack`. */
  datatype StackRequest = StackRequest(
    stackName: string, templateBody: string, parameters: seq<Parameter>, tags: seq<Tag>,
    capabilities: seq<string>, roleArn: Option<string>)

  /** A listed object version of a bucket. */
  datatype ObjectVersion = ObjectVersion(key: string, versionId: string)

  /** The provider calls the helper issues, in the order it issues them. */
  datatype Call =
    | DescribeStacks(stackName: string)
    | DescribeStackEvents(stackName: string)
    | CreateStack(request: StackRequest)
    | UpdateStack(request: StackRequest)
    | DeleteStack(stackName: string, roleArn: Option<string>)
    | ListStackResources(stackName: string)
    | ListImages(repositoryName: string)
    | BatchDeleteImage(repositoryName: string, imageDigests: seq<string>)
    | ListObjectVersions(bucket: string)
    | DeleteObjects(bucket: string, objects: seq<ObjectVersion>)

  /** What the provider answers to `create_stack` / `update_stack`. */
  datatype SubmitResponse = Submitted(stackId: string) | SubmitError(cause: ClientError)
}
