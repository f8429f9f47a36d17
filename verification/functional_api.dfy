/** The self-contained API: job records and results in two in-memory maps,
    an upload endpoint that accepts a file and schedules its processing, a
    background task that processes it, and the two read endpoints.

    The background task is a second implementation of the worker with its
    own progress values (20, 40, 100), its own tags (every PDF run is `pdf`,
    OCR or not) and no metadata. The libraries' answers and the listing of
    the image directory are parameters, as for the worker.
 */
module FunctionalApi {
  import opened Wrappers
  import opened Strings
  import opened Paths
  import opened Models
  import opened FileType
  import opened Tagging
  import opened Uploads
  import ParsePdf
  import ParsePptx
  import Worker
  import JobsRouter
  import JobStore

  /** The two maps of the process, and the saved uploads. */
  datatype State = State(jobs: map<string, Job>, results: map<string, ProcessingResult>, uploads: set<string>)

  /** The background task an accepted upload schedules. */
  datatype Task = Task(jobId: string, filePath: string, fileType: string)

  /** The reply to an accepted upload, and the task it scheduled. */
  datatype Accepted = Accepted(job: Job, task: Task)

  /** `POST /api/process`: saves the upload, resolves its category from the
      saved path, and either rejects it (removing the saved file) or records a
      pending job at 0% under the fresh id `jobId`. `created` and `updated` are
      the two clock readings taken for the record. */
  function ProcessFileAuto(st: State, uploadDir: string, hex: string, jobId: string, fileName: string,
                           created: int, updated: int): (r: (HttpResult<Accepted>, State))
    ensures var path := SavedPath(uploadDir, hex, fileName);
      (r.0.Err? <==> GetFileType(path).None?) &&
      (r.0.Err? ==> r.0.error == HttpError(400, "Unsupported file type: " + Suffix(fileName)) &&
                    r.1 == st.(uploads := st.uploads - {path}))
    ensures r.0.Ok? ==>
      var path := SavedPath(uploadDir, hex, fileName);
      var job := r.0.value.job;
      job.id == jobId && job.fileName == fileName && job.fileType == GetFileType(path).value.Name() &&
      job.status == Pending && job.progress == Some(0) && job.message == None &&
      r.0.value.task == Task(jobId, path, job.fileType) &&
      r.1 == State(st.jobs[jobId := job], st.results, st.uploads + {path})
  {
    var path := SavedPath(uploadDir, hex, fileName);
    match GetFileType(path)
    case None =>
      var saved := st.uploads + {path};
      assert saved - {path} == st.uploads - {path};
      (Err(HttpError(400, "Unsupported file type: " + Suffix(fileName))), st.(uploads := saved - {path}))
    case Some(c) =>
      var job := Job(jobId, fileName, c.Name(), Pending, created, updated, Some(0), None);
      (Ok(Accepted(job, Task(jobId, path, c.Name()))), State(st.jobs[jobId := job], st.results, st.uploads + {path}))
  }

  /** The categories the background task has a branch for. */
  predicate Known(fileType: string) {
    fileType in {"image", "pdf", "pptx"}
  }

  /** Every text run tagged with `source` and no page. */
  function PlainTexts(texts: seq<string>, source: string): (r: seq<TextFragment>)
    ensures |r| == |texts|
    ensures forall i :: 0 <= i < |r| ==> r[i] == TextFragment(texts[i], source, None)
  {
    seq(|texts|, i requires 0 <= i < |texts| => TextFragment(texts[i], source, None))
  }

  /** The image branch: the OCR text, written to the text file. */
  function ImageResult(base: ProcessingResult, outDir: string, filePath: string, text: Attempt<string>): (r: Attempt<ProcessingResult>)
    ensures r.Raised? <==> text.Raised?
    ensures text.Raised? ==> r.message == text.message
    ensures r.Returned? ==> r.value == base.(texts := [TextFragment(text.value, "image", None)],
      outputFiles := map["text" := Worker.TextFile(outDir, filePath)])
  {
    match text
    case Raised(m) => Raised(m)
    case Returned(t) =>
      Returned(base.(texts := [TextFragment(t, "image", None)], outputFiles := map["text" := Worker.TextFile(outDir, filePath)]))
  }

  /** A document branch after extraction: every run and table tagged
      `source`, the image files of the listing, and the three output files.
      A table without HTML raises when the tables file is written. */
  function DocumentResult(base: ProcessingResult, e: Attempt<(seq<string>, seq<Option<string>>)>, source: string,
                          images: seq<ImageRef>, files: map<string, string>): (r: Attempt<ProcessingResult>)
    ensures r.Returned? <==> e.Returned? && Worker.AllHtml(e.value.1)
    ensures e.Raised? ==> r == Raised(e.message)
    ensures e.Returned? && !Worker.AllHtml(e.value.1) ==> r == Raised(Worker.NoneConcatError)
    ensures r.Returned? ==> r.value == base.(texts := PlainTexts(e.value.0, source),
      tables := Worker.TableFragments(e.value.1, source), images := images, outputFiles := files)
  {
    match e
    case Raised(m) => Raised(m)
    case Returned((texts, tables)) =>
      if !Worker.AllHtml(tables) then Raised(Worker.NoneConcatError)
      else Returned(base.(texts := PlainTexts(texts, source), tables := Worker.TableFragments(tables, source),
        images := images, outputFiles := files))
  }

  function PdfTextsTables(e: Attempt<ParsePdf.Extraction>): Attempt<(seq<string>, seq<Option<string>>)> {
    match e
    case Raised(m) => Raised(m)
    case Returned(x) => Returned((x.texts, x.tables))
  }

  function PptxTextsTables(e: Attempt<ParsePptx.Extraction>): Attempt<(seq<string>, seq<Option<string>>)> {
    match e
    case Raised(m) => Raised(m)
    case Returned(x) => Returned((x.texts, x.tables))
  }

  /** The branch for a known category, from the empty result `base`. */
  function Produce(fileType: string, filePath: string, outDir: string, base: ProcessingResult, lib: Worker.Library): (r: Attempt<ProcessingResult>)
    requires Known(fileType)
    ensures r.Returned? ==>
      r.value.jobId == base.jobId && r.value.fileName == base.fileName &&
      r.value.fileType == base.fileType && r.value.metadata == base.metadata
  {
    var imagesDir := Worker.ImagesDir(outDir, filePath);
    if fileType == "image" then ImageResult(base, outDir, filePath, lib.imageText)
    else if fileType == "pdf" then
      DocumentResult(base, PdfTextsTables(ParsePdf.Extract(lib.pdf, Some(imagesDir))), "pdf",
        PdfImageRefs(imagesDir, lib.listing), Worker.DocumentFiles(outDir, filePath))
    else
      DocumentResult(base, PptxTextsTables(ParsePptx.Extract(lib.pptx)), "slide",
        PptxImageRefs(imagesDir, lib.listing), Worker.DocumentFiles(outDir, filePath))
  }

  /** The progress values the task wrote, and the state it leaves. */
  datatype BgRun = BgRun(progresses: seq<int>, state: State)

  /** The end of the task for job `id`, whose record so far is `job`: on
      success `completed` at 100 and the result stored; on failure `failed`
      with the message, the progress left where it was, and nothing stored. */
  function Finish(st: State, id: string, job: Job, ps: seq<int>, outcome: Attempt<ProcessingResult>): (r: BgRun)
    ensures r.state.uploads == st.uploads
    ensures outcome.Returned? ==>
      r == BgRun(ps + [100], st.(jobs := st.jobs[id := job.(status := Completed, progress := Some(100))],
                                 results := st.results[id := outcome.value]))
    ensures outcome.Raised? ==>
      r == BgRun(ps, st.(jobs := st.jobs[id := job.(status := Failed, message := Some("Processing failed: " + outcome.message))]))
    ensures id in st.jobs ==>
      r.state.jobs.Keys == st.jobs.Keys &&
      (forall k :: k in st.jobs && k != id ==> r.state.jobs[k] == st.jobs[k]) &&
      r.state.results - {id} == st.results - {id}
  {
    match outcome
    case Returned(res) =>
      BgRun(ps + [100], st.(jobs := st.jobs[id := job.(status := Completed, progress := Some(100))], results := st.results[id := res]))
    case Raised(m) =>
      BgRun(ps, st.(jobs := st.jobs[id := job.(status := Failed, message := Some("Processing failed: " + m))]))
  }

  /** `process_file_background`. A missing job makes the first write raise,
      and the handler's write raise again: nothing changes. Otherwise the job
      is `processing` at 20, at 40 once a known category's branch starts, and
      ends `completed` or `failed`; every exception is swallowed. */
  function Background(st: State, task: Task, lib: Worker.Library): (r: BgRun)
    ensures task.jobId !in st.jobs ==> r == BgRun([], st)
    ensures task.jobId in st.jobs ==>
      r.state.uploads == st.uploads && r.state.jobs.Keys == st.jobs.Keys &&
      (forall k :: k in st.jobs && k != task.jobId ==> r.state.jobs[k] == st.jobs[k]) &&
      r.state.results - {task.jobId} == st.results - {task.jobId}
  {
    if task.jobId !in st.jobs then BgRun([], st)
    else
      var id := task.jobId;
      var job := st.jobs[id].(status := Processing, progress := Some(20));
      var outDir := Join("parsed_docs", id);
      var base := EmptyResult(id, Basename(task.filePath), task.fileType);
      if Known(task.fileType) then
        Finish(st, id, job.(progress := Some(40)), [20, 40], Produce(task.fileType, task.filePath, outDir, base, lib))
      else Finish(st, id, job, [20], Returned(base))
  }

  /** The task changes only the status, progress and message of its job,
      and ends it `completed` at 100 with the result stored, or `failed` at 40
      with the failure message and nothing stored. */
  lemma BackgroundOutcome(st: State, task: Task, lib: Worker.Library)
    requires task.jobId in st.jobs
    ensures var r := Background(st, task, lib);
      var id := task.jobId;
      var old_ := st.jobs[id];
      var job := r.state.jobs[id];
      job == old_.(status := job.status, progress := job.progress, message := job.message) &&
      job.status in {Completed, Failed} &&
      (job.status == Completed ==>
        job.progress == Some(100) && job.message == old_.message &&
        r.progresses == (if Known(task.fileType) then [20, 40, 100] else [20, 100]) &&
        id in r.state.results && r.state.results[id].jobId == id &&
        r.state.results[id].fileName == Basename(task.filePath) &&
        r.state.results[id].fileType == task.fileType && r.state.results[id].metadata == None) &&
      (job.status == Failed ==>
        Known(task.fileType) && job.progress == Some(40) && r.progresses == [20, 40] &&
        r.state.results == st.results &&
        job.message.Some? && StartsWith(job.message.value, "Processing failed: "))
  {
    var id := task.jobId;
    var job := st.jobs[id].(status := Processing, progress := Some(20));
    var base := EmptyResult(id, Basename(task.filePath), task.fileType);
    if Known(task.fileType) {
      var outcome := Produce(task.fileType, task.filePath, Join("parsed_docs", id), base, lib);
      assert Background(st, task, lib) == Finish(st, id, job.(progress := Some(40)), [20, 40], outcome);
    } else {
      assert Background(st, task, lib) == Finish(st, id, job, [20], Returned(base));
    }
  }

  /** `GET /api/jobs/{job_id}`. */
  function GetJobStatus(st: State, id: string): (r: HttpResult<Job>)
    ensures r.Ok? <==> id in st.jobs
    ensures r.Ok? ==> r.value == st.jobs[id]
    ensures r.Err? ==> r.error == HttpError(404, JobNotFound(id))
  {
    if id !in st.jobs then Err(HttpError(404, JobNotFound(id))) else Ok(st.jobs[id])
  }

  /** The detail of the 404 for a completed job without a stored result. */
  function ResultNotFound(id: string): string {
    "Result for job " + id + " not found"
  }

  /** `GET /api/jobs/{job_id}/result`: the status decides first, as in the
      job endpoints over the store. */
  function GetJobResult(st: State, id: string): (r: HttpResult<ProcessingResult>)
    ensures id !in st.jobs ==> r == Err(HttpError(404, JobNotFound(id)))
    ensures id in st.jobs && st.jobs[id].status == Failed ==>
      r == Err(HttpError(400, JobStore.FailedDetail(id, st.jobs[id].message)))
    ensures id in st.jobs && st.jobs[id].status in {Pending, Processing} ==>
      r == Err(HttpError(102, JobsRouter.StillRunningDetail(id, st.jobs[id].status, st.jobs[id].progress)))
    ensures id in st.jobs && st.jobs[id].status == Completed ==>
      r == (if id in st.results then Ok(st.results[id]) else Err(HttpError(404, ResultNotFound(id))))
  {
    if id !in st.jobs then Err(HttpError(404, JobNotFound(id)))
    else
      var job := st.jobs[id];
      if job.status != Completed then
        if job.status == Failed then Err(HttpError(400, JobStore.FailedDetail(id, job.message)))
        else Err(HttpError(102, JobsRouter.StillRunningDetail(id, job.status, job.progress)))
      else if id !in st.results then Err(HttpError(404, ResultNotFound(id)))
      else Ok(st.results[id])
  }

  /** An accepted upload reads back as pending at 0% until its task runs. */
  lemma AcceptedIsPending(st: State, uploadDir: string, hex: string, jobId: string, fileName: string, created: int, updated: int)
    requires ProcessFileAuto(st, uploadDir, hex, jobId, fileName, created, updated).0.Ok?
    ensures var (reply, st') := ProcessFileAuto(st, uploadDir, hex, jobId, fileName, created, updated);
      GetJobStatus(st', jobId) == Ok(reply.value.job) &&
      GetJobResult(st', jobId) == Err(HttpError(102, "Job " + jobId + " is still pending. Current progress: 0%"))
  {
    JobsRouter.PendingDetail(jobId);
  }

  /** Once the task has run, the result endpoint answers with the result or
      the failure, never "still running". */
  lemma BackgroundThenResult(st: State, task: Task, lib: Worker.Library)
    requires task.jobId in st.jobs
    ensures var t := Background(st, task, lib).state;
      var job := t.jobs[task.jobId];
      (job.status == Completed ==> GetJobResult(t, task.jobId) == Ok(t.results[task.jobId])) &&
      (job.status == Failed ==> GetJobResult(t, task.jobId) == Err(HttpError(400, JobStore.FailedDetail(task.jobId, job.message))))
  {
  }

  /** The progress values of the task never decrease, and reach 100 exactly
      when the job completes. */
  lemma BackgroundProgress(st: State, task: Task, lib: Worker.Library)
    requires task.jobId in st.jobs
    ensures var r := Background(st, task, lib);
      Worker.NonDecreasing(r.progresses) && |r.progresses| > 0 &&
      (r.progresses[|r.progresses| - 1] == 100 <==> r.state.jobs[task.jobId].status == Completed)
  {
    BackgroundOutcome(st, task, lib);
    ProgressShapes();
  }

  lemma ProgressShapes()
    ensures Worker.NonDecreasing([20, 40, 100]) && Worker.NonDecreasing([20, 100]) && Worker.NonDecreasing([20, 40])
  {
  }

  /** An upload the client named `.pdf` is accepted, since its saved name has
      a suffix, and its task processes it as a PDF. */
  lemma HiddenPdfUploadAccepted(st: State, uploadDir: string, hex: string, jobId: string, created: int, updated: int)
    requires IsHex(hex)
    ensures var (reply, _) := ProcessFileAuto(st, uploadDir, hex, jobId, ".pdf", created, updated);
      reply.Ok? && reply.value.task.fileType == "pdf"
  {
    HiddenPdfAccepted(uploadDir, hex);
  }

  /** The task leaves OCR runs untagged: a run the worker reports as `ocr`
      text of page `p` comes back here as `pdf` text with its prefix intact. */
  lemma OcrRunUntagged(p: nat, t: string)
    ensures PlainTexts([ParsePdf.OcrLine(p, t)], "pdf") == [TextFragment(ParsePdf.OcrLine(p, t), "pdf", None)]
    ensures Worker.TagPdfTexts([ParsePdf.OcrLine(p, t)]) == [TextFragment(t, "ocr", Some(p))]
  {
    TagOcrLine(p, t);
  }

  /** For a PDF, the task reports the same images as a worker run writing to
      the same directory, `parsed_docs/<job id>`. */
  lemma PdfImagesMatchWorker(filePath: string, id: string, base: ProcessingResult, lib: Worker.Library)
    requires Produce("pdf", filePath, Join("parsed_docs", id), base, lib).Returned?
    ensures var dir := Join("parsed_docs", id);
      var w := Worker.ProcessPdf(filePath, dir, lib);
      w.outcome.Returned? &&
      Produce("pdf", filePath, dir, base, lib).value.images == w.outcome.value.images &&
      Produce("pdf", filePath, dir, base, lib).value.outputFiles == w.outcome.value.outputFiles
  {
  }
}
