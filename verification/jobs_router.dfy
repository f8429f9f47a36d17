/** The job endpoints over the job store: reading a job's result through its
    status, the placeholder delete, and the cleanup of old jobs.
 */
module JobsRouter {
  import opened Wrappers
  import opened Strings
  import opened Models
  import opened JobStore
  import Worker
  import Execution

  /** A `{"status": ..., "message": ...}` reply. */
  datatype StatusMessage = StatusMessage(status: string, message: string)

  /** The detail of the 102 raised while a job is neither completed nor
      failed; a job that never reported progress shows 0. */
  function StillRunningDetail(id: string, status: JobStatus, progress: Option<int>): string {
    "Job " + id + " is still " + status.Name() + ". Current progress: " + IntToString(progress.GetOr(0)) + "%"
  }

  /** `GET /jobs/{job_id}/result`: the status decides first; only a completed
      job's result is looked up. */
  function GetJobResults(s: Store, id: string, now: int): (r: HttpResult<ProcessingResult>)
    ensures !Alive(s.jobs, id, now) ==> r == Err(HttpError(404, JobNotFound(id)))
    ensures Alive(s.jobs, id, now) && s.jobs[id].value.status == Failed ==>
      r == Err(HttpError(400, FailedDetail(id, s.jobs[id].value.message)))
    ensures Alive(s.jobs, id, now) && s.jobs[id].value.status in {Pending, Processing} ==>
      r == Err(HttpError(102, StillRunningDetail(id, s.jobs[id].value.status, s.jobs[id].value.progress)))
    ensures Alive(s.jobs, id, now) && s.jobs[id].value.status == Completed && Alive(s.results, id, now) ==>
      r == Ok(s.results[id].value)
    ensures Alive(s.jobs, id, now) && s.jobs[id].value.status == Completed && !Alive(s.results, id, now) ==>
      r == Err(HttpError(404, NotReadyDetail(id)))
  {
    match GetJob(s, id, now)
    case Err(e) => Err(e)
    case Ok(job) =>
      if job.status != Completed then
        if job.status == Failed then Err(HttpError(400, FailedDetail(id, job.message)))
        else Err(HttpError(102, StillRunningDetail(id, job.status, job.progress)))
      else GetJobResult(s, id, now)
  }

  /** The endpoint returns a result exactly when the job is completed and the
      store's own read returns one, and then it is the same result. */
  lemma ResultsAgreeWithStore(s: Store, id: string, now: int)
    ensures GetJobResults(s, id, now).Ok? <==>
      Alive(s.jobs, id, now) && s.jobs[id].value.status == Completed && GetJobResult(s, id, now).Ok?
    ensures GetJobResults(s, id, now).Ok? ==> GetJobResults(s, id, now) == GetJobResult(s, id, now)
  {
  }

  /** Unlike the store's read, the endpoint hides a stored result while the
      status says `failed` or `processing`. */
  lemma StatusHidesStoredResult(s: Store, id: string, now: int)
    requires Alive(s.jobs, id, now) && Alive(s.results, id, now) && s.jobs[id].value.status != Completed
    ensures GetJobResult(s, id, now) == Ok(s.results[id].value)
    ensures GetJobResults(s, id, now).Err?
    ensures GetJobResults(s, id, now).error.code == (if s.jobs[id].value.status == Failed then 400 else 102)
  {
  }

  /** A freshly created job reads back as still pending at 0%. */
  lemma NewJobStillPending(s: Store, id: string, fileName: string, fileType: string, now: int)
    ensures GetJobResults(CreateJob(s, id, fileName, fileType, now).1, id, now) ==
      Err(HttpError(102, "Job " + id + " is still pending. Current progress: 0%"))
  {
    var t := CreateJob(s, id, fileName, fileType, now).1;
    assert GetJob(t, id, now) == Ok(NewJob(id, fileName, fileType, now));
    PendingDetail(id);
  }

  lemma PendingDetail(id: string)
    ensures StillRunningDetail(id, Pending, None) == "Job " + id + " is still pending. Current progress: 0%"
  {
    ZeroString();
    var tail := " is still " + Pending.Name() + ". Current progress: " + IntToString(0) + "%";
    assert tail == " is still pending. Current progress: 0%";
    assert StillRunningDetail(id, Pending, None) == "Job " + id + tail;
  }

  lemma ZeroString()
    ensures IntToString(0) == "0"
  {
  }

  /** After a successful run the endpoint returns what the run returned. */
  lemma ResultsAfterSuccess(s: Store, id: string, filePath: string, fileType: string, format: OutputFormat,
                            outputDir: Option<string>, scratchDir: string, lib: Worker.Library, now: int)
    requires Alive(s.jobs, id, now)
    requires Worker.Plan(id, filePath, fileType, format, outputDir, scratchDir, lib).outcome.Returned?
    ensures var (run, t) := Execution.ProcessFile(s, id, filePath, fileType, format, outputDir, scratchDir, lib, now).value;
      GetJobResults(t, id, now) == Ok(run.outcome.value)
  {
    Execution.ProcessFileSuccess(s, id, filePath, fileType, format, outputDir, scratchDir, lib, now);
  }

  /** After a failed run the endpoint reports the failure message, even if an
      earlier run had stored a result. */
  lemma ResultsAfterFailure(s: Store, id: string, filePath: string, fileType: string, format: OutputFormat,
                            outputDir: Option<string>, scratchDir: string, lib: Worker.Library, now: int)
    requires Alive(s.jobs, id, now)
    requires Worker.Plan(id, filePath, fileType, format, outputDir, scratchDir, lib).outcome.Raised?
    ensures var (run, t) := Execution.ProcessFile(s, id, filePath, fileType, format, outputDir, scratchDir, lib, now).value;
      GetJobResults(t, id, now) ==
        Err(HttpError(400, FailedDetail(id, Some("Processing failed: " + run.outcome.message))))
  {
    var run := Worker.Plan(id, filePath, fileType, format, outputDir, scratchDir, lib);
    var n := |run.writes|;
    assert run.writes[0] == run.writes[..n - 1][0];
    Execution.FailureNeedsStart(run);
    Execution.ApplyFailure(s, id, run, now);
  }

  /** `DELETE /jobs/{job_id}`: a placeholder that reports success and changes nothing. */
  function DeleteJob(s: Store, id: string): (r: (StatusMessage, Store))
    ensures r.0 == StatusMessage("success", "Job " + id + " deleted")
    ensures r.1 == s
  {
    (StatusMessage("success", "Job " + id + " deleted"), s)
  }

  /** A "deleted" job and its result stay readable. */
  lemma DeletedJobStillReadable(s: Store, id: string, now: int)
    ensures GetJob(DeleteJob(s, id).1, id, now) == GetJob(s, id, now)
    ensures GetJobResults(DeleteJob(s, id).1, id, now) == GetJobResults(s, id, now)
  {
  }

  /** `POST /jobs/cleanup`: cleans old jobs and reports how many ids it removed. */
  function CleanupJobs(s: Store, now: int): (r: (StatusMessage, Store))
    ensures r.0 == StatusMessage("success", "Cleaned up " + NatToString(|OldIds(s, now)|) + " old jobs")
    ensures forall id :: id in r.1.index <==> id in s.index && !(0 <= s.index[id] <= now - JobRetention)
    ensures forall id :: id in r.1.jobs <==> id in s.jobs && id !in OldIds(s, now)
  {
    var (count, t) := CleanOldJobs(s, now);
    (StatusMessage("success", "Cleaned up " + NatToString(count) + " old jobs"), t)
  }

  /** A second cleanup at the same instant reports zero. */
  lemma CleanupTwiceReportsZero(s: Store, now: int)
    ensures CleanupJobs(CleanupJobs(s, now).1, now).0 == StatusMessage("success", "Cleaned up 0 old jobs")
  {
    CleanIdempotent(s, now);
    assert NatToString(0) == "0";
  }
}
