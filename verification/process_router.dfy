/** The upload endpoints of the job service: `/process` resolves the category
    from the saved upload, `/process/image`, `/process/pdf` and
    `/process/pptx` check the client's file name first and fix the category.
    An accepted upload becomes a pending job and a background task that runs
    the worker against the job store.

    The fresh UUIDs (`hex` for the saved name, `jobId` for the job) and the
    clock are parameters; the form field `options` is given with what JSON
    decoding and option validation make of it.
 */
module ProcessRouter {
  import opened Wrappers
  import opened Strings
  import opened Paths
  import opened Models
  import opened FileType
  import opened JobStore
  import opened Uploads
  import Worker
  import Execution
  import JobsRouter

  /** Where results in the `files` format are written, one directory per job. */
  const ParsedDocs: string := "parsed_docs"

  /** The `options` form field: absent, or a string together with the options
      it decodes and validates to (None when decoding or validation raises). */
  datatype OptionsField = Absent | Given(raw: string, decoded: Option<ProcessingOptions>)

  /** The options a request runs with: the decoded ones, or the defaults when
      the field is absent, empty, or does not decode and validate. */
  function RequestOptions(f: OptionsField): (r: ProcessingOptions)
    ensures f.Given? && f.raw != "" && f.decoded.Some? ==> r == f.decoded.value
    ensures f.Absent? || f.raw == "" || f.decoded.None? ==> r == DefaultOptions
  {
    match f
    case Absent => DefaultOptions
    case Given(raw, decoded) => if raw == "" then DefaultOptions else decoded.GetOr(DefaultOptions)
  }

  /** The output directory passed to the worker: `parsed_docs/<job id>` for
      the `files` format, none for `json`. */
  function OutputDirFor(options: ProcessingOptions, jobId: string): (r: Option<string>)
    ensures r.Some? <==> options.outputFormat == Files
    ensures r.Some? ==> r.value == Join(ParsedDocs, jobId)
    ensures r.Some? && |jobId| > 0 && jobId[0] != '/' ==> StartsWith(r.value, ParsedDocs) && EndsWith(r.value, jobId)
  {
    if options.outputFormat == Files then
      if |jobId| > 0 && jobId[0] != '/' then
        JoinExtends(ParsedDocs, jobId);
        Some(Join(ParsedDocs, jobId))
      else Some(Join(ParsedDocs, jobId))
    else None
  }

  /** The four upload endpoints. */
  datatype Endpoint = Auto | ImageOnly | PdfOnly | PptxOnly

  /** The endings a typed endpoint accepts, compared with the lower-cased
      file name; `/process` checks none. */
  function Endings(e: Endpoint): seq<string> {
    match e
    case Auto => []
    case ImageOnly => [".png", ".jpg", ".jpeg"]
    case PdfOnly => [".pdf"]
    case PptxOnly => [".pptx", ".ppt"]
  }

  /** The category a typed endpoint records. */
  function FixedType(e: Endpoint): Category
    requires !e.Auto?
  {
    match e
    case ImageOnly => Image
    case PdfOnly => Pdf
    case PptxOnly => Pptx
  }

  /** The 400 detail of a typed endpoint's name check. */
  function RejectDetail(e: Endpoint): string {
    match e
    case Auto => ""
    case ImageOnly => "Invalid file type. Only PNG and JPEG images are supported."
    case PdfOnly => "Invalid file type. Only PDF files are supported."
    case PptxOnly => "Invalid file type. Only PPTX and PPT files are supported."
  }

  /** Whether the endpoint's name check lets the file name through. */
  predicate NameAccepted(e: Endpoint, fileName: string) {
    e.Auto? || exists i :: 0 <= i < |Endings(e)| && EndsWith(Lower(fileName), Endings(e)[i])
  }

  /** The job store and the saved uploads. */
  datatype Server = Server(store: Store, uploads: set<string>)

  /** The background task an accepted upload schedules. */
  datatype Task = Task(jobId: string, filePath: string, fileType: string, format: OutputFormat, outputDir: Option<string>)

  /** The reply to an accepted upload, and the task it scheduled. */
  datatype Accepted = Accepted(job: Job, task: Task)

  /** The category an upload is recorded with, when it is accepted. */
  function RecordedCategory(e: Endpoint, path: string): Option<Category> {
    if e.Auto? then GetFileType(path) else Some(FixedType(e))
  }

  /** One upload to endpoint `e` at `now`. A typed endpoint checks the client's
      file name before anything is saved; `/process` saves the upload and
      resolves its category from the saved path, removing the file again when
      it has none. An accepted upload creates a pending job and schedules its
      task. */
  function Submit(sv: Server, e: Endpoint, fileName: string, options: OptionsField, uploadDir: string,
                  hex: string, jobId: string, now: int): (r: (HttpResult<Accepted>, Server))
    ensures var path := SavedPath(uploadDir, hex, fileName);
      r.0.Ok? <==> NameAccepted(e, fileName) && RecordedCategory(e, path).Some?
    ensures !NameAccepted(e, fileName) ==> r == (Err(HttpError(400, RejectDetail(e))), sv)
    ensures var path := SavedPath(uploadDir, hex, fileName);
      e.Auto? && GetFileType(path).None? ==>
        r == (Err(HttpError(400, "Unsupported file type: " + Suffix(fileName))), sv.(uploads := sv.uploads - {path}))
    ensures r.0.Ok? ==>
      var path := SavedPath(uploadDir, hex, fileName);
      var ft := RecordedCategory(e, path).value.Name();
      var opts := RequestOptions(options);
      r.0.value.job == NewJob(jobId, fileName, ft, now) &&
      r.0.value.task == Task(jobId, path, ft, opts.outputFormat, OutputDirFor(opts, jobId)) &&
      r.1 == Server(CreateJob(sv.store, jobId, fileName, ft, now).1, sv.uploads + {path})
  {
    if !NameAccepted(e, fileName) then (Err(HttpError(400, RejectDetail(e))), sv)
    else
      var opts := RequestOptions(options);
      var path := SavedPath(uploadDir, hex, fileName);
      var saved := sv.uploads + {path};
      match RecordedCategory(e, path)
      case None =>
        assert saved - {path} == sv.uploads - {path};
        (Err(HttpError(400, "Unsupported file type: " + Suffix(fileName))), sv.(uploads := saved - {path}))
      case Some(c) =>
        var (job, store) := CreateJob(sv.store, jobId, fileName, c.Name(), now);
        (Ok(Accepted(job, Task(jobId, path, c.Name(), opts.outputFormat, OutputDirFor(opts, jobId)))), Server(store, saved))
  }

  /** `process_file_background`: runs the worker for the task; an exception
      it raises (the job is missing or expired) is logged and dropped. */
  function Background(sv: Server, task: Task, scratchDir: string, lib: Worker.Library, now: int): (r: Server)
    ensures r.uploads == sv.uploads
    ensures r.store.index == sv.store.index
    ensures r.store.jobs - {task.jobId} == sv.store.jobs - {task.jobId}
    ensures r.store.results - {task.jobId} == sv.store.results - {task.jobId}
    ensures !Alive(sv.store.jobs, task.jobId, now) ==> r == sv
  {
    match Execution.ProcessFile(sv.store, task.jobId, task.filePath, task.fileType, task.format, task.outputDir, scratchDir, lib, now)
    case Err(_) => sv
    case Ok((_, t)) => sv.(store := t)
  }

  /** The worker's run for a task. */
  function TaskRun(task: Task, scratchDir: string, lib: Worker.Library): Worker.Run {
    Worker.Plan(task.jobId, task.filePath, task.fileType, task.format, task.outputDir, scratchDir, lib)
  }

  // ---------------------------------------------------------------------------
  // Properties

  /** A typed endpoint's check is a case-insensitive test of the name's ending. */
  lemma TypedCheckIgnoresCase(e: Endpoint, fileName: string)
    requires !e.Auto?
    ensures NameAccepted(e, fileName) <==> NameAccepted(e, Lower(fileName))
  {
    LowerIdempotent(fileName);
  }

  /** A typed endpoint accepts a name ending in one of its extensions, and the
      job is recorded with the endpoint's category. */
  lemma TypedEndpointRecords(sv: Server, e: Endpoint, stem: string, i: int, options: OptionsField, uploadDir: string,
                             hex: string, jobId: string, now: int)
    requires !e.Auto? && 0 <= i < |Endings(e)|
    ensures var r := Submit(sv, e, stem + Endings(e)[i], options, uploadDir, hex, jobId, now);
      r.0.Ok? && r.0.value.job.fileType == FixedType(e).Name()
  {
    var fileName := stem + Endings(e)[i];
    LowerAppend(stem, Endings(e)[i]);
    LowerEnding(e, i);
    assert Lower(fileName)[|Lower(fileName)| - |Endings(e)[i]|..] == Endings(e)[i];
    assert EndsWith(Lower(fileName), Endings(e)[i]);
  }

  /** The endings are already lower-case. */
  lemma LowerEnding(e: Endpoint, i: int)
    requires 0 <= i < |Endings(e)|
    ensures Lower(Endings(e)[i]) == Endings(e)[i]
  {
    match e {
    case ImageOnly =>
      assert Lower(".png") == ".png" && Lower(".jpg") == ".jpg" && Lower(".jpeg") == ".jpeg";
    case PdfOnly =>
      assert Lower(".pdf") == ".pdf";
    case PptxOnly =>
      assert Lower(".pptx") == ".pptx" && Lower(".ppt") == ".ppt";
    }
  }

  /** For a name `stem + ext` whose `ext` is one of a typed endpoint's
      extensions, `/process` records the same category as the typed endpoint,
      even when `stem` is empty. */
  lemma AutoAgreesWithTyped(sv: Server, e: Endpoint, stem: string, i: int, options: OptionsField, uploadDir: string,
                            hex: string, jobId: string, now: int)
    requires !e.Auto? && 0 <= i < |Endings(e)|
    requires IsHex(hex) && PlainName(stem + Endings(e)[i])
    ensures var r := Submit(sv, Auto, stem + Endings(e)[i], options, uploadDir, hex, jobId, now);
      r.0.Ok? && r.0.value.job.fileType == FixedType(e).Name()
  {
    var ext := Endings(e)[i];
    EndingShape(e, i);
    SavedPathType(uploadDir, hex, stem, ext);
    LowerEnding(e, i);
    EndingLookup(e, i);
  }

  /** Every ending is a dot followed by dot-free text. */
  lemma EndingShape(e: Endpoint, i: int)
    requires 0 <= i < |Endings(e)|
    ensures |Endings(e)[i]| >= 2 && Endings(e)[i][0] == '.'
    ensures forall j :: 1 <= j < |Endings(e)[i]| ==> Endings(e)[i][j] != '.'
  {
  }

  /** Every ending of a typed endpoint selects that endpoint's category. */
  lemma EndingLookup(e: Endpoint, i: int)
    requires !e.Auto? && 0 <= i < |Endings(e)|
    ensures Lookup(Endings(e)[i]) == Some(FixedType(e))
  {
  }

  /** A rejected upload leaves the job store as it was. */
  lemma RejectedLeavesStore(sv: Server, e: Endpoint, fileName: string, options: OptionsField, uploadDir: string,
                            hex: string, jobId: string, now: int)
    requires Submit(sv, e, fileName, options, uploadDir, hex, jobId, now).0.Err?
    ensures Submit(sv, e, fileName, options, uploadDir, hex, jobId, now).1.store == sv.store
    ensures Submit(sv, e, fileName, options, uploadDir, hex, jobId, now).0.error.code == 400
  {
  }

  /** A freshly accepted job reads back through the status endpoint as
      pending, and through the result endpoint as still pending at 0%. */
  lemma AcceptedIsPending(sv: Server, e: Endpoint, fileName: string, options: OptionsField, uploadDir: string,
                          hex: string, jobId: string, now: int)
    requires Submit(sv, e, fileName, options, uploadDir, hex, jobId, now).0.Ok?
    ensures var r := Submit(sv, e, fileName, options, uploadDir, hex, jobId, now);
      GetJob(r.1.store, jobId, now) == Ok(r.0.value.job) && r.0.value.job.status == Pending &&
      JobsRouter.GetJobResults(r.1.store, jobId, now) ==
        Err(HttpError(102, "Job " + jobId + " is still pending. Current progress: 0%"))
  {
    var path := SavedPath(uploadDir, hex, fileName);
    var ft := RecordedCategory(e, path).value.Name();
    JobsRouter.NewJobStillPending(sv.store, jobId, fileName, ft, now);
  }

  /** An accepted upload whose task runs within the retention period ends
      `completed` with the worker's result readable, or `failed` with the
      worker's message; the task never leaves it pending or processing. */
  lemma SubmitThenProcess(sv: Server, e: Endpoint, fileName: string, options: OptionsField, uploadDir: string,
                          hex: string, jobId: string, now: int, later: int, scratchDir: string, lib: Worker.Library)
    requires Submit(sv, e, fileName, options, uploadDir, hex, jobId, now).0.Ok?
    requires now <= later <= now + JobRetention
    ensures var r := Submit(sv, e, fileName, options, uploadDir, hex, jobId, now);
      var run := TaskRun(r.0.value.task, scratchDir, lib);
      var t := Background(r.1, r.0.value.task, scratchDir, lib, later).store;
      (run.outcome.Returned? ==> JobsRouter.GetJobResults(t, jobId, later) == Ok(run.outcome.value)) &&
      (run.outcome.Raised? ==>
         JobsRouter.GetJobResults(t, jobId, later) ==
         Err(HttpError(400, FailedDetail(jobId, Some("Processing failed: " + run.outcome.message)))))
  {
    var r := Submit(sv, e, fileName, options, uploadDir, hex, jobId, now);
    var task := r.0.value.task;
    var s := r.1.store;
    assert Alive(s.jobs, jobId, later);
    var run := TaskRun(task, scratchDir, lib);
    if run.outcome.Returned? {
      JobsRouter.ResultsAfterSuccess(s, jobId, task.filePath, task.fileType, task.format, task.outputDir, scratchDir, lib, later);
    } else {
      JobsRouter.ResultsAfterFailure(s, jobId, task.filePath, task.fileType, task.format, task.outputDir, scratchDir, lib, later);
    }
  }

  /** A task whose job expired before it ran changes nothing: the worker's
      404 is swallowed. */
  lemma ExpiredTaskIsDropped(sv: Server, task: Task, scratchDir: string, lib: Worker.Library, now: int)
    requires task.jobId in sv.store.jobs && now > sv.store.jobs[task.jobId].expiresAt
    ensures Background(sv, task, scratchDir, lib, now) == sv
    ensures GetJob(sv.store, task.jobId, now) == Err(HttpError(404, JobNotFound(task.jobId)))
  {
  }

  /** The `files` format sends the worker a directory of the job's own;
      `json` sends none. */
  lemma FilesFormatGetsOwnDirectory(sv: Server, e: Endpoint, fileName: string, raw: string, opts: ProcessingOptions,
                                    uploadDir: string, hex: string, jobId: string, now: int)
    requires raw != "" && Submit(sv, e, fileName, Given(raw, Some(opts)), uploadDir, hex, jobId, now).0.Ok?
    ensures var task := Submit(sv, e, fileName, Given(raw, Some(opts)), uploadDir, hex, jobId, now).0.value.task;
      task.format == opts.outputFormat &&
      (opts.outputFormat == Files <==> task.outputDir == Some(Join(ParsedDocs, jobId)))
  {
  }

  /** Options that fail to decode fall back to `json`, with no output directory. */
  lemma BadOptionsFallBack(sv: Server, e: Endpoint, fileName: string, raw: string, uploadDir: string,
                           hex: string, jobId: string, now: int)
    requires Submit(sv, e, fileName, Given(raw, None), uploadDir, hex, jobId, now).0.Ok?
    ensures var task := Submit(sv, e, fileName, Given(raw, None), uploadDir, hex, jobId, now).0.value.task;
      task.format == Json && task.outputDir == None
  {
  }
}
