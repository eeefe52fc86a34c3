/**
  `Batch.submit_job`: submit a job and, if asked, wait for it with the shared monitor loop; log
  the status reason and a console link afterwards. The same code appears in the legacy
  `infrastructure_builder/aws/batch.py`.
 */
module Batch {
  import opened Common
  import Arn
  import M = ExecutionMonitor

  /** The part of a `describe_jobs` entry the helper reads. */
  datatype JobDescription = JobDescription(status: string, statusReason: Option<string>, jobQueue: string)

  /** One poll: the clock read before the describe, and the job it described. */
  datatype JobPoll = JobPoll(now: int, job: JobDescription)

  function StatusPolls(polls: seq<JobPoll>): (ps: seq<M.Poll>)
    ensures |ps| == |polls|
    ensures forall i :: 0 <= i < |polls| ==> ps[i] == M.Poll(polls[i].now, polls[i].job.status)
  {
    seq(|polls|, i requires 0 <= i < |polls| => M.Poll(polls[i].now, polls[i].job.status))
  }

  function SubmittedLine(jobId: string): string
  {
    "Job " + jobId + " submitted, now waiting until completed."
  }

  /** Prefix of the line logged for each status change. */
  const StatusPrefix: string := "Job status: "

  /** The job's page in the console: the host is the console of the job queue's region, the
      query names that region again, and the fragment ends with the job id. */
  function ConsoleUrl(region: string, jobId: string): (url: string)
    ensures var host := "https://" + region + ".console.aws.amazon.com/";
      |host| <= |url| && url[..|host|] == host
    ensures var tail := "?region=" + region + "#jobs/detail/" + jobId;
      |tail| <= |url| && url[|url| - |tail|..] == tail
  {
    var host := "https://" + region + ".console.aws.amazon.com/";
    var tail := "?region=" + region + "#jobs/detail/" + jobId;
    assert (host + "batch/v2/home" + tail)[..|host|] == host;
    assert (host + "batch/v2/home" + tail)[|host| + 13..] == tail;
    host + "batch/v2/home" + tail
  }

  /** What happens after the loop, given the final description: log the status reason (a
      missing one is a `KeyError`), look up the region of the job queue (no match makes
      `.group` fail) and log the console link. */
  function Finish(jobId: string, job: JobDescription): (r: (Result<string>, seq<string>))
    ensures r.0.Ok? <==> job.statusReason.Some? && Arn.RegionOf(Arn.BatchPrefix, job.jobQueue).Some?
    ensures job.statusReason.None? ==> r == (Err(KeyError("statusReason")), [])
    ensures job.statusReason.Some? && Arn.RegionOf(Arn.BatchPrefix, job.jobQueue).None? ==>
      r == (Err(NoRegexMatch(job.jobQueue)), ["Job status reason: " + job.statusReason.value])
    ensures r.0.Ok? ==>
      && r.0.value == jobId
      && r.1 == ["Job status reason: " + job.statusReason.value,
                 "Job details in AWS console: " + ConsoleUrl(Arn.RegionOf(Arn.BatchPrefix, job.jobQueue).value, jobId)]
  {
    if job.statusReason.None? then
      (Err(KeyError("statusReason")), [])
    else
      var reasonLine := "Job status reason: " + job.statusReason.value;
      match Arn.RegionOf(Arn.BatchPrefix, job.jobQueue)
      case None => (Err(NoRegexMatch(job.jobQueue)), [reasonLine])
      case Some(region) => (Ok(jobId), [reasonLine, "Job details in AWS console: " + ConsoleUrl(region, jobId)])
  }

  /** `submit_job` after the `submit_job` call returned `jobId`. `polls` is what the clock
      and `describe_jobs` report on each round of the loop. */
  method SubmitJob(jobId: string, timeoutMinutes: int, waitUntilCompleted: bool, entry: int, polls: seq<JobPoll>)
    returns (r: Result<string>, described: nat, log: seq<string>)
    requires waitUntilCompleted ==> M.Settles(M.BatchJob, StatusPolls(polls), WindowEnd(entry, timeoutMinutes))
    ensures !waitUntilCompleted ==> r == Ok(jobId) && described == 0 && log == []
    ensures r.Ok? ==> r.value == jobId
    ensures waitUntilCompleted ==>
      var run := M.Wait(M.BatchJob, entry, timeoutMinutes, StatusPolls(polls));
      && described == run.described
      && (run.outcome.Err? ==>
            r == Err(BuilderError(TimeoutMessage))
            && log == [SubmittedLine(jobId)] + M.StatusLines(StatusPrefix, run.statusLog))
      && (run.outcome.Ok? ==>
            var final := polls[run.outcome.value].job;
            && final.status in ["SUCCEEDED", "FAILED"]
            && (r, log) == (Finish(jobId, final).0, [SubmittedLine(jobId)] + M.StatusLines(StatusPrefix, run.statusLog) + Finish(jobId, final).1))
  {
    if !waitUntilCompleted {
      return Ok(jobId), 0, [];
    }
    log := [SubmittedLine(jobId)];
    var outcome, statusLog;
    outcome, described, statusLog := M.WaitForTerminalStatus(M.BatchJob, entry, timeoutMinutes, StatusPolls(polls));
    log := log + M.StatusLines(StatusPrefix, statusLog);
    if outcome.Err? {
      return Err(outcome.error), described, log;
    }
    var job := polls[outcome.value].job;
    var finished := Finish(jobId, job);
    r := finished.0;
    log := log + finished.1;
  }

  /** A job that ends FAILED is not raised: with a status reason and a well-formed queue ARN,
      `submit_job` returns the job id exactly as for SUCCEEDED. */
  lemma FailedJobIsNotRaised(jobId: string, reason: string, region: string, queueTail: string)
    requires ':' !in region && '\n' !in region
    ensures var job := JobDescription("FAILED", Some(reason), Arn.BatchPrefix + region + ":" + queueTail);
      Finish(jobId, job).0 == Ok(jobId)
      && Finish(jobId, job).1[1] == "Job details in AWS console: " + ConsoleUrl(region, jobId)
  {
    Arn.RegionOfBuiltArn(Arn.BatchPrefix, region, queueTail);
  }
}
