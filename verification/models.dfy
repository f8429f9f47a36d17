/** The records exchanged by the job service: job status and job record,
    extracted fragments, the processing result, the request options, and the
    HTTP error a request can end in.
 */
module Models {
  import opened Wrappers

  /** The four states a job can be in. */
  datatype JobStatus = Pending | Processing | Completed | Failed {

    /** The value stored and sent over the wire. */
    function Name(): string {
      match this
      case Pending => "pending"
      case Processing => "processing"
      case Completed => "completed"
      case Failed => "failed"
    }
  }

  /** Enum validation of a status string: only the four wire values are accepted. */
  function StatusFromName(s: string): (r: Option<JobStatus>)
    ensures r.Some? ==> r.value.Name() == s
  {
    if s == "pending" then Some(Pending)
    else if s == "processing" then Some(Processing)
    else if s == "completed" then Some(Completed)
    else if s == "failed" then Some(Failed)
    else None
  }

  /** Every status survives the trip to its wire name and back, so the four names are distinct. */
  lemma StatusNameRoundTrip(st: JobStatus)
    ensures StatusFromName(st.Name()) == Some(st)
  {
  }

  /** A job record as stored: the fields a job response requires plus the
      optional `progress` and `message`. Timestamps are clock readings. */
  datatype Job = Job(
    id: string,
    fileName: string,
    fileType: string,
    status: JobStatus,
    createdAt: int,
    updatedAt: int,
    progress: Option<int>,
    message: Option<string>)

  /** One extracted run of text, tagged with where it came from. */
  datatype TextFragment = TextFragment(text: string, source: string, pageNumber: Option<int>)

  /** One extracted table as HTML, tagged with where it came from. */
  datatype TableFragment = TableFragment(html: string, source: string, pageNumber: Option<int>)

  /** One emitted image file, tagged with where it came from. */
  datatype ImageRef = ImageRef(path: string, source: string, pageNumber: Option<int>)

  /** How results are returned: inline, or materialised under an output directory. */
  datatype OutputFormat = Json | Files {
    function Name(): string {
      match this
      case Json => "json"
      case Files => "files"
    }
  }

  /** Enum validation of an output-format string. */
  function OutputFormatFromName(s: string): (r: Option<OutputFormat>)
    ensures r.Some? ==> r.value.Name() == s
  {
    if s == "json" then Some(Json) else if s == "files" then Some(Files) else None
  }

  lemma OutputFormatNameRoundTrip(f: OutputFormat)
    ensures OutputFormatFromName(f.Name()) == Some(f)
  {
  }

  /** Options common to every processing request. */
  datatype ProcessingOptions = ProcessingOptions(outputFormat: OutputFormat, verbose: bool)

  /** The options used when a request gives none (or gives invalid ones). */
  const DefaultOptions := ProcessingOptions(Json, false)

  /** The metadata the worker attaches to a result. */
  datatype Metadata = Metadata(outputFormat: OutputFormat, outputDirectory: Option<string>)

  /** A job's result. `metadata` is None where the producer adds no such key. */
  datatype ProcessingResult = ProcessingResult(
    jobId: string,
    fileName: string,
    fileType: string,
    texts: seq<TextFragment>,
    tables: seq<TableFragment>,
    images: seq<ImageRef>,
    outputFiles: map<string, string>,
    metadata: Option<Metadata>)

  /** A result with every list and map at its default, empty. */
  function EmptyResult(jobId: string, fileName: string, fileType: string): ProcessingResult {
    ProcessingResult(jobId, fileName, fileType, [], [], [], map[], None)
  }

  /** An HTTP error response: status code and detail text. */
  datatype HttpError = HttpError(code: int, detail: string)

  /** A call that either returns a value or raises `HTTPException`. */
  datatype HttpResult<+T> = Ok(value: T) | Err(error: HttpError)

  /** The detail text of the 404 raised for an unknown or expired job. */
  function JobNotFound(id: string): string {
    "Job " + id + " not found"
  }
}
