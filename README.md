# infrastructure-builder: polling, reconciliation and the task registry

This project models the logic of the `infrastructure_builder` helpers that does more than issue
one cloud call:

- the CloudFormation helper, with its three stack-status tables, the deadline-bounded wait loop
  that tails stack events on every poll, the create / recreate / update decision of
  `create_or_update_stack` (where "No updates are to be performed." counts as success), the
  request it builds, the output-list-to-mapping conversion, and `delete_stack` with its optional
  purge of ECR repositories and S3 buckets;
- the execution monitors of `Batch.submit_job` and `StepFunctions.execute`, which share one
  polling loop with change-only status logging, plus the region lookup on an ARN with an anchored
  lazy pattern and the console link built from it;
- `LambdaFunction.delete_old_versions`, which keeps the newest versions and deletes the rest, and
  `update_function_code`, which points an alias at the new version and waits for it to converge;
- the task registry: registration, case-insensitive lookup, the help table and the command-line
  dispatch loop.

Three legacy copies exist. `infrastructure_builder/aws/batch.py` and
`src/infrastructure_builder/aws/stepfunctions_.py` have the same monitor logic as
`src/infrastructure_builder/aws/batch.py` and `stepfunctions.py`. They differ in the import path
of `BuilderError`, type hints, docstrings and the logger: the legacy Batch copy logs through the
root logger, and so do both Step Functions copies. `infrastructure_builder/task_registry.py` has
the registration, the lookup and the help table, but no `execute_from_command_line` and no
`argparse`. One module serves each pair of copies, and the table below cites whichever copy a
row states most directly.

The cloud provider is a scripted, immutable input. Each poll brings the clock reading taken
before the describe and what the provider answers. Each operation returns the calls it issued
and the lines it logged (or the events it printed) as sequences, so contracts can talk about
order and about what is never called. Loops are Dafny methods, each proved equal to a recursive
specification function, and the properties of the source are lemmas about those functions.

Modules: `Common` (results and errors, the wait window), `Arn`, `ExecutionMonitor`, `Batch`,
`StepFunctions`, `StackModel` (status tables, descriptions, calls), `StackEvents` (the event
tailer), `StackWait`, `StackPurge`, `CloudFormation`, `LambdaFunction`, `TaskRegistry`.

Behaviour of the code worth knowing:

- Event ties: the tailer prints the filtered events in reverse listing order. Events that share
  a timestamp therefore come out in the reverse of the provider's order, not in the provider's
  relative order.
- Purge pages: the purge reads only the first page of `list_images`, `list_object_versions` and
  `list_stack_resources`. It does not follow every page.
- Logging: the monitors log a status when the raw status string changes, not when its class
  changes. The CloudFormation wait logs no statuses at all, only events.
- Unknown statuses: Batch keeps polling on a status it does not recognise. Only the
  CloudFormation wait raises on an unknown status.
- Alias convergence: convergence has four cases (the alias points at the new version, there is
  no `RoutingConfig`, there are no `AdditionalVersionWeights`, or the weights are empty), and
  the loop has no timeout.
- Errors: a failed stack, a timeout and a missing stack raise `BuilderError` with a message, not
  separate error kinds.

## Model

| member | source | states |
|---|---|---|
| Arn.RegionOf | src/infrastructure_builder/aws/batch.py:72 | `re.match(prefix + "(.*?):.*", arn).group(1)`: the result is a region the pattern captures, and None exactly when no region can be captured |
| Arn.CaptureEndsAtFirstColon | src/infrastructure_builder/aws/stepfunctions.py:74 | a captured region is the text after the prefix up to the first colon (the group is lazy) |
| Arn.NoCaptureBeyondFirstColon | src/infrastructure_builder/aws/stepfunctions.py:74 | when no colon follows the prefix, or a newline comes before it, the pattern matches nothing |
| Arn.CaptureIsUnique | infrastructure_builder/aws/batch.py:61 | the pattern captures at most one region from an ARN |
| Arn.RegionOfBuiltArn | src/infrastructure_builder/aws/stepfunctions_.py:63 | round trip: prefix + region + ":" + tail gives back that region, for a region without colon or newline |
| ExecutionMonitor.IsTerminal | src/infrastructure_builder/aws/batch.py:64 | Batch stops exactly on SUCCEEDED or FAILED and keeps polling on any other status; Step Functions (stepfunctions.py lines 62-63) stops on everything but RUNNING |
| ExecutionMonitor.Wait | src/infrastructure_builder/aws/batch.py:53-57 | no more describes than polls; every describe happens at a clock reading no later than entry - 30 s + 60 s * timeout, and a timeout is raised at a poll whose reading is past that deadline |
| ExecutionMonitor.DescribesBeforeDeadline | src/infrastructure_builder/aws/stepfunctions.py:51-57 | from any poll on, every describe the loop makes is at a clock reading no later than the deadline |
| ExecutionMonitor.Collapse | src/infrastructure_builder/aws/batch.py:61-63 | change-only logging writes no more lines than polls, only polled statuses, and every status that differs from the one logged before |
| ExecutionMonitor.WaitFrom | src/infrastructure_builder/aws/batch.py:55-67 | the loop ends either on a terminal status, after exactly one describe per poll up to and including that one, or with "Timeout" at a poll whose clock is past the deadline |
| ExecutionMonitor.WaitForTerminalStatus | src/infrastructure_builder/aws/stepfunctions.py:53-65 | the `while True` loop returns the outcome, describe count and status log of the specification `Wait` |
| ExecutionMonitor.WaitEndsAtFirstStop | src/infrastructure_builder/aws/batch.py:55-57 | the loop stops at the first poll that is past the deadline or terminal: a timeout there issues no further describe, and a terminal status there ends the wait with that poll |
| ExecutionMonitor.StatusLogIsCollapse | src/infrastructure_builder/aws/stepfunctions_.py:48-50 | the status log is exactly the change-only collapse of the described statuses |
| ExecutionMonitor.CollapseHasNoRepeats | infrastructure_builder/aws/batch.py:50-52 | two consecutive log lines never carry the same status, and the first differs from the status logged before |
| ExecutionMonitor.FirstPollIsLogged | src/infrastructure_builder/aws/stepfunctions.py:50-61 | with `last_status` starting at None, the first status described is always logged |
| Batch.Finish | src/infrastructure_builder/aws/batch.py:69-76 | after the loop: a missing status reason is a `KeyError` with nothing logged; a queue ARN that yields no region fails at `.group` after the "Job status reason: R" line; otherwise the job id is returned after that line and "Job details in AWS console: " with the console link of the queue's region and the job id |
| Batch.ConsoleUrl | src/infrastructure_builder/aws/batch.py:73 | the link starts with `https://<region>.console.aws.amazon.com/` and ends with `?region=<region>#jobs/detail/<job id>` |
| Batch.SubmitJob | src/infrastructure_builder/aws/batch.py:46-76 | without waiting, the job id is returned with no describe and no log; with waiting, the describes and the log are those of the shared loop, a timeout raises "Timeout", and otherwise the final status is SUCCEEDED or FAILED and the result is that of `Finish` |
| Batch.FailedJobIsNotRaised | infrastructure_builder/aws/batch.py:58-65 | a FAILED job with a status reason and a well-formed queue ARN returns the job id and logs the console link with the queue's region |
| StepFunctions.FailureLines | src/infrastructure_builder/aws/stepfunctions.py:67-71 | nothing after SUCCEEDED; otherwise an "Error" line when `error` is present, then a "Cause" line when `cause` is present |
| StepFunctions.Finish | src/infrastructure_builder/aws/stepfunctions.py:74-78 | an ARN that yields no region fails at `.group` with nothing logged; otherwise the ARN is returned after one line "Execution details in AWS console: " with the console link of the ARN's region and the ARN |
| StepFunctions.ConsoleUrl | src/infrastructure_builder/aws/stepfunctions.py:75 | the link starts with `https://<region>.console.aws.amazon.com/` and ends with `?region=<region>#/v2/executions/details/<execution ARN>` |
| StepFunctions.Execute | src/infrastructure_builder/aws/stepfunctions.py:44-78 | without waiting, the ARN is returned at once; with waiting, a timeout raises "Timeout", and otherwise the final status is not RUNNING, the failure lines of that status follow the status log, and the ARN is returned whatever the status |
| StepFunctions.LastLoggedIsFinal | src/infrastructure_builder/aws/stepfunctions_.py:56 | the `last_status` tested after the loop is the final poll's status: the last logged line is always the final status |
| StepFunctions.LastLoggedIsFinalFrom | src/infrastructure_builder/aws/stepfunctions.py:59-63 | from any poll on, the last status logged (or carried in) is the one that ended the loop |
| StepFunctions.FailedExecutionIsNotRaised | src/infrastructure_builder/aws/stepfunctions.py:67-78 | a FAILED execution returns its ARN and logs its error and its cause |
| StackModel.ClassifyByTable | src/infrastructure_builder/aws/cloudformation.py:33-55 | each class of the `if`/`elif` chain (lines 202-210) is exactly membership of its own table, and unknown is membership of none |
| StackModel.StatusTablesDisjoint | src/infrastructure_builder/aws/cloudformation.py:33-55 | the completed, in-progress and failed tables share no status |
| StackModel.OutputMap | src/infrastructure_builder/aws/cloudformation.py:176 | the keys of the mapping are exactly the listed `OutputKey`s |
| StackModel.OutputKeysSnoc | src/infrastructure_builder/aws/cloudformation.py:176 | adding one output to the list adds exactly its key to the keys |
| StackModel.OutputMapLastWins | src/infrastructure_builder/aws/cloudformation.py:176 | each key maps to the value of its last entry in the list |
| StackModel.StackOutputsToStack | src/infrastructure_builder/aws/cloudformation.py:173-177 | the name comes from `StackName`; no `Outputs` gives an empty mapping, otherwise the outputs' mapping |
| StackModel.DescribeStack | src/infrastructure_builder/aws/cloudformation.py:82-90 | HTTP 400 means "no such stack" (None) and is the only error absorbed; any other error propagates unchanged |
| StackModel.DescribeToStack | src/infrastructure_builder/aws/cloudformation.py:92-103 | `describe_stack`: None exactly on HTTP 400, other errors propagate, and a described stack comes back converted |
| StackEvents.Unprocessed | src/infrastructure_builder/aws/cloudformation.py:185-186 | the filter keeps exactly the listed events stamped no earlier than the start and whose id is not yet processed |
| StackEvents.Reverse | src/infrastructure_builder/aws/cloudformation.py:187 | `reversed` puts element i at position n-1-i |
| StackEvents.PrintEvents | src/infrastructure_builder/aws/cloudformation.py:184-190 | the loop prints exactly the reversed filtered events and leaves the processed set grown by exactly their ids |
| StackEvents.NewEvents | src/infrastructure_builder/aws/cloudformation.py:185-187 | an event is printed if and only if it is listed, stamped no earlier than the window's start and not processed before; no more events are printed than listed |
| StackEvents.UnprocessedKeepsDistinct | src/infrastructure_builder/aws/cloudformation.py:185-186 | filtering a listing with distinct ids keeps them distinct |
| StackEvents.UnprocessedKeepsOrder | src/infrastructure_builder/aws/cloudformation.py:185-186 | filtering a newest-first listing keeps it newest first |
| StackEvents.NewEventsShape | src/infrastructure_builder/aws/cloudformation.py:187-190 | one call prints no id twice, and prints oldest first when the provider lists newest first |
| StackEvents.RepeatedCallsDoNotRepeat | src/infrastructure_builder/aws/cloudformation.py:182-190 | after a call, a later call on the grown set never prints an id that was printed or processed before, whatever it is listed |
| StackEvents.TailExample | src/infrastructure_builder/aws/cloudformation.py:184-190 | two fresh events listed newest first print oldest first and both ids are remembered; a second call on the same listing prints nothing |
| StackWait.Verdict | src/infrastructure_builder/aws/cloudformation.py:202-214 | a stack that is no longer in progress is a success exactly when its status is completed, returning its converted outputs; failed raises "Stack N failed: S", unknown raises "Stack N entered unknown state: S" |
| StackWait.WaitFrom | src/infrastructure_builder/aws/cloudformation.py:192-212 | the wait issues only `describe_stacks` and `describe_stack_events` calls on the stack id |
| StackWait.Wait | src/infrastructure_builder/aws/cloudformation.py:180-196 | no event stamped before entry - 30 s is printed, and a first round whose clock is already past entry - 30 s + 60 s * timeout raises "Timeout" with no call and nothing printed |
| StackWait.PrintedInWindow | src/infrastructure_builder/aws/cloudformation.py:185-186 | from any round on, every printed event is stamped no earlier than the window's start |
| StackWait.WaitUntilCompleted | src/infrastructure_builder/aws/cloudformation.py:179-214 | the `while True` loop returns the result, calls and printed events of the specification `Wait` |
| StackWait.StopRound | src/infrastructure_builder/aws/cloudformation.py:193-210 | at a stopping round: past the deadline gives "Timeout" with no call; a described stack gives its verdict after two calls; a describe error gives, after one call, the propagated error or, for HTTP 400, the `TypeError` of subscripting None |
| StackWait.WaitEndsAtFirstStop | src/infrastructure_builder/aws/cloudformation.py:192-212 | the wait ends at the first round that is past the deadline or not in progress, after exactly two calls per earlier round; a timeout makes no describe after the deadline check |
| StackWait.FailingRoundPrintsItsEvents | src/infrastructure_builder/aws/cloudformation.py:199-208 | a failing round prints its new events before the failure is raised, and they are the last events printed |
| StackWait.PrintedOnce | src/infrastructure_builder/aws/cloudformation.py:182-200 | across the whole wait no event id is printed twice, none processed before, none stamped before the window opened |
| StackPurge.EmptyEcrRepository | src/infrastructure_builder/aws/cloudformation.py:115-129 | an empty listing issues only the listing call; the purge fails exactly when images were listed and the delete reported failures, naming the repository and the failures |
| StackPurge.EmptyS3Bucket | src/infrastructure_builder/aws/cloudformation.py:131-148 | the same for a bucket's object versions and the `Errors` of `delete_objects` |
| StackPurge.PurgeResource | src/infrastructure_builder/aws/cloudformation.py:110-113 | an ECR repository is listed and, when it has images, its digests are deleted; an S3 bucket is listed and, when it has versions, they are deleted; any other resource type costs no call; the step fails exactly when a delete reported failures |
| StackPurge.Purge | src/infrastructure_builder/aws/cloudformation.py:107-113 | the purge fails exactly when some resource reports failures, and every call it makes lists or deletes the content of one of the stack's ECR repositories or S3 buckets |
| StackPurge.DeleteResourceContent | src/infrastructure_builder/aws/cloudformation.py:105-113 | the loop lists the stack's resources and then makes exactly the purge's calls with the purge's result |
| StackPurge.FirstFailure | src/infrastructure_builder/aws/cloudformation.py:107-113 | the first resource whose emptying fails, or the number of resources: none before it fails |
| StackPurge.PurgeStopsAtFirstFailure | src/infrastructure_builder/aws/cloudformation.py:107-113 | with k the first failing resource, the purge returns that resource's error after the calls of resources 0..k and none after; with no failure it succeeds after the calls of every resource |
| StackPurge.ContentCallsContain | src/infrastructure_builder/aws/cloudformation.py:107-113 | every call of emptying one resource is among the calls of emptying all of them in order |
| StackPurge.EmptiedUpToFailure | src/infrastructure_builder/aws/cloudformation.py:110-113 | every ECR repository or S3 bucket up to and including the first failing one is listed, and deleted from when it has content |
| CloudFormation.Capabilities | src/infrastructure_builder/aws/cloudformation.py:281-287 | each capability is present exactly when its flag is set, there is one entry per flag set, in the order IAM, named IAM, auto expand |
| CloudFormation.BuildCapabilities | src/infrastructure_builder/aws/cloudformation.py:281-287 | the `append`s build exactly that list |
| CloudFormation.DeleteStackRun | src/infrastructure_builder/aws/cloudformation.py:150-171 | `delete_stack` always starts with the describe |
| CloudFormation.DeleteStackCalls | src/infrastructure_builder/aws/cloudformation.py:159-171 | for an existing stack the calls are the describe, the purge's calls when asked for, and then, unless the purge failed, the delete call and the wait's calls |
| CloudFormation.DeleteStackOrder | src/infrastructure_builder/aws/cloudformation.py:159-171 | a missing stack raises "Stack X does not exist" after the describe alone; the delete call is made exactly when the stack exists and any purge succeeded; it is the only delete call and carries the role ARN; there is no purge call without `delete_content` and none after the delete call |
| CloudFormation.DeleteStackScope | src/infrastructure_builder/aws/cloudformation.py:159-171 | `delete_stack` fails whenever it does not reach its delete call, and never creates or updates a stack |
| CloudFormation.DeleteLayout | src/infrastructure_builder/aws/cloudformation.py:163-171 | in a call sequence with one delete call and no purge call after it, that call is the only delete and no purge call follows it |
| CloudFormation.ReconcileRequest | src/infrastructure_builder/aws/cloudformation.py:274-287 | the request carries the name, the template text and the helper's role ARN, one `ParameterKey`/`ParameterValue` per keyword parameter and one `Key`/`Value` per tag in order (none for no tags), and each capability exactly when its flag is set (as `_create_stack` and `_update_stack` send it, lines 218-226 and 235-243) |
| CloudFormation.CreateStackRun | src/infrastructure_builder/aws/cloudformation.py:216-231 | the create call comes first; a rejected create propagates with no wait; otherwise the result, calls and events are those of the wait on the new stack id |
| CloudFormation.UpdateStackRun | src/infrastructure_builder/aws/cloudformation.py:233-252 | the update call comes first; "No updates are to be performed.", whether from the call or from inside the wait, returns the stack as first described, and any other error propagates |
| CloudFormation.Decide | src/infrastructure_builder/aws/cloudformation.py:289-296 | create exactly when the describe says HTTP 400, recreate exactly on DELETE_COMPLETE, update exactly on any other described status (with that description), and any other describe error propagates |
| CloudFormation.CreateOrUpdateStackRun | src/infrastructure_builder/aws/cloudformation.py:254-296 | `create_or_update_stack` always starts with the describe under the given name (DecisionTable states each branch) |
| CloudFormation.DecisionTable | src/infrastructure_builder/aws/cloudformation.py:289-296 | a describe error ends the run after the describe; a missing stack runs `_create_stack` right after the describe, with its result, calls and events; a DELETE_COMPLETE stack runs `delete_stack` and, only when that succeeded, `_create_stack`, so every create call comes after the delete call; any other stack runs `_update_stack` under the described name |
| CloudFormation.RecreateDeletesFirst | src/infrastructure_builder/aws/cloudformation.py:292-294 | a recreate describes the stack again in `delete_stack`, and every create call comes after the delete call |
| CloudFormation.CreateReturnsFinalSnapshot | src/infrastructure_builder/aws/cloudformation.py:216-231 | a create whose wait first stops, inside the window, on a completed stack returns that snapshot's name and outputs, after the describe, the create call and two calls per round |
| CloudFormation.NoUpdatesIsSuccess | src/infrastructure_builder/aws/cloudformation.py:245-252 | an update rejected with "No updates are to be performed." returns the first description's outputs after only the describe and the update call; any other rejection propagates after the same two calls |
| LambdaFunction.StrLeReflexive | src/infrastructure_builder/aws/lambda_function.py:78 | Python's string order on `LastModified` is reflexive |
| LambdaFunction.StrLeTotal | src/infrastructure_builder/aws/lambda_function.py:78 | any two `LastModified` strings are comparable |
| LambdaFunction.StrLeTransitive | src/infrastructure_builder/aws/lambda_function.py:78 | the order is transitive |
| LambdaFunction.StrLeAntisymmetric | src/infrastructure_builder/aws/lambda_function.py:78 | two strings ordered both ways are equal |
| LambdaFunction.Published | src/infrastructure_builder/aws/lambda_function.py:76-77 | a page's versions are kept exactly when they are not `$LATEST` |
| LambdaFunction.Candidates | src/infrastructure_builder/aws/lambda_function.py:74-77 | the candidates are exactly the versions of all pages other than `$LATEST` |
| LambdaFunction.Insert | src/infrastructure_builder/aws/lambda_function.py:78 | one insertion step adds exactly the one version |
| LambdaFunction.SortNewestFirst | src/infrastructure_builder/aws/lambda_function.py:78 | the sort is a permutation of its input |
| LambdaFunction.SortIsNewestFirst | src/infrastructure_builder/aws/lambda_function.py:78 | the sorted versions are newest first by `LastModified` |
| LambdaFunction.InsertKeepsOrder | src/infrastructure_builder/aws/lambda_function.py:78 | inserting into a newest-first list keeps it newest first |
| LambdaFunction.HeadIsNewest | src/infrastructure_builder/aws/lambda_function.py:78 | the head of a newest-first list is at least as new as every entry |
| LambdaFunction.ConsNewestFirst | src/infrastructure_builder/aws/lambda_function.py:78 | prepending a version no older than all others keeps a list newest first |
| LambdaFunction.SortIsStable | src/infrastructure_builder/aws/lambda_function.py:78 | stability: the versions that share a `LastModified` keep their listing order |
| LambdaFunction.InsertIsStable | src/infrastructure_builder/aws/lambda_function.py:78 | an inserted version goes ahead of the later-listed versions with its timestamp |
| LambdaFunction.DeleteOldVersions | src/infrastructure_builder/aws/lambda_function.py:61-85 | `keep_latest_versions < 1` raises `ValueError` before any call; otherwise the returned list is the qualifiers of the outdated versions, and it is exactly the sequence of qualifiers handed to `delete_function`, one call each in order, after one listing call per page |
| LambdaFunction.OutdatedCount | src/infrastructure_builder/aws/lambda_function.py:74-83 | exactly max(0, n - keep) of the n candidates are deleted, each of them a candidate and so never `$LATEST` |
| LambdaFunction.OutdatedSplitsCandidates | src/infrastructure_builder/aws/lambda_function.py:78-81 | the kept and deleted versions split the newest-first list and are together the candidates, each once |
| LambdaFunction.OutdatedAreOldest | src/infrastructure_builder/aws/lambda_function.py:78-81 | every kept version is at least as new as every deleted one, so the deleted versions are the oldest |
| LambdaFunction.SplitIsOrdered | src/infrastructure_builder/aws/lambda_function.py:81 | the slice after `keep` holds nothing newer than the part before it |
| LambdaFunction.FirstConverged | src/infrastructure_builder/aws/lambda_function.py:51-57 | the loop ends at the first alias configuration that has converged |
| LambdaFunction.AliasCalls | src/infrastructure_builder/aws/lambda_function.py:42-49 | `update_alias` comes first; `create_alias` is called exactly when the alias was not found; provisioned concurrency is configured, last, exactly when a truthy provision was given and the alias was set; no more than three calls and no `get_alias` |
| LambdaFunction.UpdateCode | src/infrastructure_builder/aws/lambda_function.py:38-59 | the code update comes first; without an alias (None or empty) nothing more is called; with one, `update_alias` comes first, `create_alias` only when the alias was not found, provisioning only for a truthy `provision` and only when the alias step succeeded, and then `get_alias` until the alias converges, with one "Waiting" line per poll that has not |
| LambdaFunction.WaitForAlias | src/infrastructure_builder/aws/lambda_function.py:51-59 | the loop polls `get_alias` exactly up to and including the first converged configuration, logging one wait per unconverged poll |
| LambdaFunction.FirstConvergedIsLeast | src/infrastructure_builder/aws/lambda_function.py:51-57 | a converged poll preceded only by unconverged ones is the one the loop ends at |
| TaskRegistry.IndexOf | src/infrastructure_builder/task_registry.py:33 | the position of the key in the dictionary, or its size when absent |
| TaskRegistry.Put | src/infrastructure_builder/task_registry.py:33 | the dictionary assignment keeps the names unique, contains the new task, keeps every task of another name, overwrites an existing key in place and appends a new key last |
| TaskRegistry.FirstMatch | src/infrastructure_builder/task_registry.py:46-48 | the first task in insertion order whose lower-cased name (ASCII `lower()`, one character for one) equals the lower-cased query, and None exactly when there is none |
| TaskRegistry.MaxNameLength | src/infrastructure_builder/task_registry.py:60 | the length of the longest name: no name is longer, and some name has it |
| TaskRegistry.Line | src/infrastructure_builder/task_registry.py:61 | each line is the name, spaces up to the longest name's length plus two, and the description starting at column width + 2 |
| TaskRegistry.JoinLines | src/infrastructure_builder/task_registry.py:62 | the joined text is as long as the lines plus one newline between each two, and empty for no lines |
| TaskRegistry.FormatTable | infrastructure_builder/task_registry.py:53-56 | the table fails with the `max()` `ValueError` exactly when there are no tasks |
| TaskRegistry.JoinLinesShape | src/infrastructure_builder/task_registry.py:62 | the joined text is the first line, then each later line after a single newline, with no newline at the end |
| TaskRegistry.Registry.constructor | src/infrastructure_builder/task_registry.py:22 | the registry starts empty |
| TaskRegistry.Registry.Register | src/infrastructure_builder/task_registry.py:32-34 | the decorator stores the task under its exact name, overwriting in place, and returns the function unchanged |
| TaskRegistry.Registry.GetTask | src/infrastructure_builder/task_registry.py:46-48 | the first task in insertion order whose name equals the query ignoring case, and None exactly when no name does |
| TaskRegistry.Registry.FormatTaskDescriptions | src/infrastructure_builder/task_registry.py:59-62 | an empty registry raises the `max()` error; otherwise the lines of all tasks in insertion order, padded to the longest name, joined by newlines |
| TaskRegistry.Registry.ExecuteFromCommandLine | src/infrastructure_builder/task_registry.py:70-84 | an empty registry raises before anything runs; no argument shows the help; otherwise tasks run in argument order, each the lookup of its argument, and at the first unknown name two error lines are logged and that task and all later ones do not run |
| TaskRegistry.FirstUnknown | src/infrastructure_builder/task_registry.py:77-82 | the index of the first argument that names no task, at most the number of arguments |
| TaskRegistry.FirstUnknownIs | src/infrastructure_builder/task_registry.py:77-82 | an index whose earlier arguments all name tasks and whose own argument does not is the first unknown one |
| TaskRegistry.LookupAfterRegister | infrastructure_builder/task_registry.py:26-42 | after registering a task, looking up its name finds a task of that name ignoring case, and finds the task itself unless an older key differs from it only in case |
| TaskRegistry.SampleTasksInOrder | tests/test_task_registry.py:6-18 | the test's three decorators leave the three tasks in declaration order |
| TaskRegistry.SampleLines | tests/test_task_registry.py:40 | the three lines of the sample table, character for character, with names padded to 11 characters |
| TaskRegistry.SampleTable | tests/test_task_registry.py:40-41 | the formatted table is exactly the string the test expects |
| TaskRegistry.SampleShortLookup | tests/test_task_registry.py:30-34 | a query shorter than every sample name, a prefix such as "compile" included, finds nothing |
| TaskRegistry.SampleLookups | tests/test_task_registry.py:25-28 | "sampleTask" and "sampletask" both find the task "sampleTask" of the registry of lines 6-18 |
| TaskRegistry.SampleMisses | tests/test_task_registry.py:30-37 | "xxx" finds nothing, and neither do "compile" and "compilet", which the test expects to match |

## Left out

- The boto3 sessions and clients, and every single-call helper outside the modelled modules (SSM, ECR login, CodeArtifact, STS, Cognito, Route 53, subprocess execution, packaging). These are calls into services with no branching state of their own.
- The real clock, `sleep` and logging. The clock is an integer reading supplied with each poll, and log lines are returned as sequences. The text of an event's log line is left out because it formats a `datetime`. So are the lines "Stack X created" and "Deleting all images/files in X" and the help text of the dispatcher.
- `argparse` and `sys.argv`. The dispatch loop receives the positional task names. No arguments are modelled as argparse printing the help and exiting.
- Reading the template file. The template text is a parameter.
- The response records hold only the fields the helpers read. A missing `StackId`, `StackName`, `StackStatus` or `Version` key, and `stacks[0]` on an empty list, are not modelled.
- CloudFormation.ReconcileRequest: `str(value)` of the keyword parameters and tags is not modelled; the values arrive as strings.
- TaskRegistry.Lower: only ASCII letters are lowered. Python's `str.lower` covers all of Unicode.
- A task's decorated callable is an opaque number, and running a task has no modelled effect beyond appearing in the list of tasks run.
- TaskRegistry.Registry.FormatTaskDescriptions: the `ValueError` text of `max()` on an empty collection depends on the Python version. A fixed message is used.
- The weights of `AdditionalVersionWeights` are reals. Only whether the mapping is empty matters.
- Pagination: `list_versions_by_function` is modelled page by page. The purge, as in the code, reads one page of each listing.
- Errors of the listing and delete calls are not modelled. This covers `list_stack_resources`, `list_images`, `batch_delete_image`, `list_object_versions`, `delete_objects`, `delete_stack`, `describe_stack_events`, `list_versions_by_function` and `delete_function`, and of `describe_jobs`, `describe_execution` and `get_alias` inside the loops. Only the errors the code branches on, or that change what is called next, are modelled: describe, create, update, alias and provisioning errors.
- The `BuilderError` of the purge carries the repository or bucket and the failures as structured data, not as the `repr` of the failure list.
- StackWait.WaitUntilCompleted, ExecutionMonitor.WaitForTerminalStatus and LambdaFunction.WaitForAlias: the scripted provider must eventually stop the loop. Its last poll is past the deadline, terminal, or converged. A real clock always passes the deadline. The alias loop, like the code, has no deadline, so a script that never converges is not modelled.
- TaskRegistry.SampleMisses and TaskRegistry.SampleShortLookup: the test expects the prefixes "compile" and "compilet" to find "compileTest". The lookup compares whole lower-cased names, so they find nothing, and the model follows the code.
- The legacy copies differ from their `src` counterparts in the import path of `BuilderError`, type hints, docstrings and which logger they use. Logging is not modelled, so one module serves each pair. The legacy `infrastructure_builder/task_registry.py` has no dispatch loop, and `TaskRegistry.Registry.ExecuteFromCommandLine` models only the `src` copy.
