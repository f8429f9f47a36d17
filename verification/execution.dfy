/** `process_file` against the job store: the worker's store calls applied
    in order at one instant. A call on a job that is missing or expired
    raises 404; the worker's handler then tries to record the failure, which
    raises the same 404, so the run ends with that error and nothing
    written.
 */
module Execution {
  import opened Wrappers
  import opened Models
  import opened JobStore
  import opened Worker

  /** Applies the store calls in order, stopping at the first one that raises. */
  function Apply(s: Store, id: string, ws: seq<Write>, now: int): (r: HttpResult<Store>)
    ensures r.Err? <==> |ws| > 0 && !Alive(s.jobs, id, now)
    ensures r.Err? ==> r.error == HttpError(404, JobNotFound(id))
    ensures r.Ok? ==> r.value.index == s.index
    ensures r.Ok? ==> r.value.jobs - {id} == s.jobs - {id} && r.value.results - {id} == s.results - {id}
    ensures r.Ok? && Alive(s.jobs, id, now) ==> Alive(r.value.jobs, id, now)
    decreases |ws|
  {
    if |ws| == 0 then Ok(s)
    else
      match ws[0]
      case SetStatus(status, progress, message) =>
        (match UpdateJobStatus(s, id, status, progress, message, now)
         case Err(e) => Err(e)
         case Ok(u) => Apply(u.1, id, ws[1..], now))
      case PutResult(result) =>
        (match StoreJobResult(s, id, result, now)
         case Err(e) => Err(e)
         case Ok(u) => Apply(u, id, ws[1..], now))
  }

  /** Applying two runs of calls is applying the first, then the second. */
  lemma {:induction false} ApplyAppend(s: Store, id: string, a: seq<Write>, b: seq<Write>, now: int)
    requires Alive(s.jobs, id, now)
    ensures Apply(s, id, a + b, now) == Apply(Apply(s, id, a, now).value, id, b, now)
    decreases |a|
  {
    if |a| > 0 {
      assert (a + b)[0] == a[0];
      assert (a + b)[1..] == a[1..] + b;
      match a[0] {
      case SetStatus(status, progress, message) =>
        var u := UpdateJobStatus(s, id, status, progress, message, now).value.1;
        assert Apply(s, id, a + b, now) == Apply(u, id, a[1..] + b, now);
        assert Apply(s, id, a, now) == Apply(u, id, a[1..], now);
        ApplyAppend(u, id, a[1..], b, now);
      case PutResult(result) =>
        var u := StoreJobResult(s, id, result, now).value;
        assert Apply(s, id, a + b, now) == Apply(u, id, a[1..] + b, now);
        assert Apply(s, id, a, now) == Apply(u, id, a[1..], now);
        ApplyAppend(u, id, a[1..], b, now);
      }
    } else {
      assert a + b == b;
    }
  }

  /** After intermediate writes the job is `processing` with the last
      checkpoint's progress and message; no result is written. */
  lemma {:induction false} ApplyCheckpoints(s: Store, id: string, ws: seq<Write>, now: int)
    requires Alive(s.jobs, id, now) && AllCheckpoints(ws) && |ws| > 0
    ensures var t := Apply(s, id, ws, now).value;
      var job := t.jobs[id].value;
      t.results == s.results && job.status == Processing &&
      job.progress == ws[|ws| - 1].progress && job.message == ws[|ws| - 1].message
    decreases |ws|
  {
    var u := UpdateJobStatus(s, id, ws[0].status, ws[0].progress, ws[0].message, now).value.1;
    if |ws| > 1 {
      ApplyCheckpoints(u, id, ws[1..], now);
    }
  }

  /** The store after one status write to a live job. */
  lemma ApplyStatus(s: Store, id: string, w: Write, now: int)
    requires Alive(s.jobs, id, now) && w.SetStatus?
    ensures var t := Apply(s, id, [w], now).value;
      t.jobs[id].value == Updated(s.jobs[id].value, w.status, w.progress, w.message, now) && t.results == s.results
  {
  }

  /** A successful run leaves the job `completed` at 100 and its result readable. */
  lemma ApplySuccess(s: Store, id: string, r: Run, now: int)
    requires WellFormed(r) && r.outcome.Returned? && Alive(s.jobs, id, now)
    ensures var t := Apply(s, id, r.writes, now).value;
      var job := t.jobs[id].value;
      Alive(t.jobs, id, now) && job.status == Completed && job.progress == Some(100) &&
      job.message == Some(CompletedMessage) && GetJobResult(t, id, now) == Ok(r.outcome.value)
  {
    var n := |r.writes|;
    var before := r.writes[..n - 2];
    var done := r.writes[n - 2];
    assert r.writes == before + [done] + [r.writes[n - 1]];
    ApplyAppend(s, id, before + [done], [r.writes[n - 1]], now);
    ApplyAppend(s, id, before, [done], now);
    var t1 := Apply(s, id, before, now).value;
    ApplyStatus(t1, id, done, now);
  }

  /** Between the `completed` write and the result write, a reader sees a
      completed job whose result is "not available yet". */
  lemma CompletedBeforeResult(s: Store, id: string, r: Run, now: int)
    requires WellFormed(r) && r.outcome.Returned? && Alive(s.jobs, id, now) && !Alive(s.results, id, now)
    ensures var mid := Apply(s, id, r.writes[..|r.writes| - 1], now).value;
      mid.jobs[id].value.status == Completed &&
      GetJobResult(mid, id, now) == Err(HttpError(404, NotReadyDetail(id)))
  {
    var n := |r.writes|;
    var before := r.writes[..n - 2];
    var done := r.writes[n - 2];
    assert r.writes[..n - 1] == before + [done];
    ApplyAppend(s, id, before, [done], now);
    var t1 := Apply(s, id, before, now).value;
    if |before| > 0 {
      ApplyCheckpoints(s, id, before, now);
    }
    ApplyStatus(t1, id, done, now);
  }

  /** A failed run leaves the job `failed` with the failure message, keeps
      the progress of the last checkpoint, and writes no result. */
  lemma ApplyFailure(s: Store, id: string, r: Run, now: int)
    requires WellFormed(r) && r.outcome.Raised? && Alive(s.jobs, id, now) && |r.writes| >= 2
    ensures var t := Apply(s, id, r.writes, now).value;
      var job := t.jobs[id].value;
      Alive(t.jobs, id, now) && t.results == s.results && job.status == Failed &&
      job.message == Some("Processing failed: " + r.outcome.message) &&
      job.progress == r.writes[|r.writes| - 2].progress
  {
    var n := |r.writes|;
    var before := r.writes[..n - 1];
    assert r.writes == before + [r.writes[n - 1]];
    ApplyAppend(s, id, before, [r.writes[n - 1]], now);
    ApplyCheckpoints(s, id, before, now);
    var t1 := Apply(s, id, before, now).value;
    ApplyStatus(t1, id, r.writes[n - 1], now);
  }

  /** `process_file` for job `id`: the plan's calls applied to the store. */
  function ProcessFile(s: Store, id: string, filePath: string, fileType: string, format: OutputFormat,
                       outputDir: Option<string>, scratchDir: string, lib: Library, now: int): (r: HttpResult<(Run, Store)>)
    ensures r.Err? <==> !Alive(s.jobs, id, now)
    ensures r.Err? ==> r.error == HttpError(404, JobNotFound(id))
    ensures r.Ok? ==> r.value.0 == Plan(id, filePath, fileType, format, outputDir, scratchDir, lib)
    ensures r.Ok? ==> r.value.1.index == s.index && r.value.1.jobs - {id} == s.jobs - {id}
    ensures r.Ok? ==> r.value.1.results - {id} == s.results - {id}
  {
    var run := Plan(id, filePath, fileType, format, outputDir, scratchDir, lib);
    match Apply(s, id, run.writes, now)
    case Err(e) => Err(e)
    case Ok(t) => Ok((run, t))
  }

  /** A failed job reads back as 400 with its failure, and its progress is the
      last progress the run wrote. */
  lemma ProcessFileFailure(s: Store, id: string, filePath: string, fileType: string, format: OutputFormat,
                           outputDir: Option<string>, scratchDir: string, lib: Library, now: int)
    requires Alive(s.jobs, id, now) && !Alive(s.results, id, now)
    requires Plan(id, filePath, fileType, format, outputDir, scratchDir, lib).outcome.Raised?
    ensures var (run, t) := ProcessFile(s, id, filePath, fileType, format, outputDir, scratchDir, lib, now).value;
      var ps := Progresses(run.writes);
      var message := "Processing failed: " + run.outcome.message;
      t.jobs[id].value.status == Failed && t.jobs[id].value.message == Some(message) &&
      |ps| > 0 && t.jobs[id].value.progress == Some(ps[|ps| - 1]) &&
      GetJobResult(t, id, now) == Err(HttpError(400, FailedDetail(id, Some(message))))
  {
    var run := Plan(id, filePath, fileType, format, outputDir, scratchDir, lib);
    var n := |run.writes|;
    assert run.writes[0] == run.writes[..n - 1][0];
    FailureNeedsStart(run);
    ApplyFailure(s, id, run, now);
    var before := run.writes[..n - 1];
    assert run.writes == before + [run.writes[n - 1]];
    ProgressesAppend(before, [run.writes[n - 1]]);
    ProgressesOfCheckpoints(before);
    assert before[n - 2] == run.writes[n - 2];
  }

  /** A failed run that reaches the failure write through at least one checkpoint. */
  lemma FailureNeedsStart(run: Run)
    requires WellFormed(run) && run.outcome.Raised? && IsCheckpoint(run.writes[0])
    ensures |run.writes| >= 2
  {
  }

  /** A successful job reads back as `completed` with the result it returned. */
  lemma ProcessFileSuccess(s: Store, id: string, filePath: string, fileType: string, format: OutputFormat,
                           outputDir: Option<string>, scratchDir: string, lib: Library, now: int)
    requires Alive(s.jobs, id, now)
    requires Plan(id, filePath, fileType, format, outputDir, scratchDir, lib).outcome.Returned?
    ensures var (run, t) := ProcessFile(s, id, filePath, fileType, format, outputDir, scratchDir, lib, now).value;
      t.jobs[id].value.status == Completed && t.jobs[id].value.progress == Some(100) &&
      GetJob(t, id, now) == Ok(t.jobs[id].value) &&
      GetJobResult(t, id, now) == Ok(run.outcome.value)
  {
    ApplySuccess(s, id, Plan(id, filePath, fileType, format, outputDir, scratchDir, lib), now);
  }
}
