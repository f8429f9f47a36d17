/** The worker: for one job it resolves the file's category, runs the
    category's processor, shapes the result, and reports progress to the
    job store along the way.

    A run is modelled as the list of store calls it makes (status writes and
    the final result write) together with what it returns or raises, and
    whether it removed its scratch directory. The libraries' answers for the
    file and the listing of the image directory are parameters.
 */
module Worker {
  import opened Wrappers
  import opened Strings
  import opened Paths
  import opened Models
  import opened FileType
  import opened Tagging
  import ParsePdf
  import ParsePptx

  /** One store call made by the worker. */
  datatype Write =
    | SetStatus(status: JobStatus, progress: Option<int>, message: Option<string>)
    | PutResult(result: ProcessingResult)

  /** What the libraries report for the uploaded file, whichever processor
      reads it, and the names the processor's image directory lists. */
  datatype Library = Library(imageText: Attempt<string>, pdf: ParsePdf.Document, pptx: ParsePptx.Deck, listing: seq<string>)

  /** The fragments and output files one processor produces. */
  datatype Processed = Processed(
    texts: seq<TextFragment>,
    tables: seq<TableFragment>,
    images: seq<ImageRef>,
    outputFiles: map<string, string>)

  /** A processor's own status writes, and what it returns or raises. */
  datatype Step = Step(writes: seq<Write>, outcome: Attempt<Processed>)

  /** A whole run: every store call in order, the outcome, and whether the
      scratch directory was removed. */
  datatype Run = Run(writes: seq<Write>, outcome: Attempt<ProcessingResult>, scratchRemoved: bool)

  const CompletedMessage: string := "Processing completed successfully"

  /** What Python raises when a table's HTML is None and is written to the tables file. */
  const NoneConcatError: string := "unsupported operand type(s) for +: 'NoneType' and 'str'"

  /** The progress values a processor writes itself. */
  const ImageSteps: seq<int> := [30, 90]
  const DocumentSteps: seq<int> := [30, 70, 90]

  /** An intermediate status write. */
  function Checkpoint(progress: int, message: string): Write {
    SetStatus(Processing, Some(progress), Some(message))
  }

  predicate IsCheckpoint(w: Write) {
    w.SetStatus? && w.status == Processing && w.progress.Some? && w.message.Some?
  }

  predicate AllCheckpoints(ws: seq<Write>) {
    forall i :: 0 <= i < |ws| ==> IsCheckpoint(ws[i])
  }

  /** The failure write: status `failed`, progress left alone. */
  function FailedWrite(message: string): Write {
    SetStatus(Failed, None, Some("Processing failed: " + message))
  }

  /** A run ends in exactly one terminal status write after only `processing`
      writes; a successful run writes `completed` at 100 and then, as its last
      call, the result it returns; a failed run never writes a result. */
  predicate WellFormed(r: Run) {
    match r.outcome
    case Returned(res) =>
      |r.writes| >= 2 && AllCheckpoints(r.writes[..|r.writes| - 2])
      && r.writes[|r.writes| - 2] == SetStatus(Completed, Some(100), Some(CompletedMessage))
      && r.writes[|r.writes| - 1] == PutResult(res)
    case Raised(m) =>
      |r.writes| >= 1 && AllCheckpoints(r.writes[..|r.writes| - 1])
      && r.writes[|r.writes| - 1] == FailedWrite(m)
  }

  /** The output text file of a processor: `<stem>.txt` in the output directory. */
  function TextFile(dir: string, filePath: string): string {
    Join(dir, Stem(filePath) + ".txt")
  }

  /** The output tables file: `<stem>_tables.html` in the output directory. */
  function TablesFile(dir: string, filePath: string): string {
    Join(dir, Stem(filePath) + "_tables.html")
  }

  /** The image directory of a document: `<stem>` in the output directory. */
  function ImagesDir(dir: string, filePath: string): string {
    Join(dir, Stem(filePath))
  }

  /** The output files of a document processor. */
  function DocumentFiles(dir: string, filePath: string): map<string, string> {
    map["text" := TextFile(dir, filePath), "tables" := TablesFile(dir, filePath), "images_dir" := ImagesDir(dir, filePath)]
  }

  /** `process_image`: OCR text as the single fragment, written to the text
      file; an OCR failure is raised after the first checkpoint. */
  function ProcessImage(filePath: string, dir: string, lib: Library): (r: Step)
    ensures AllCheckpoints(r.writes)
    ensures 1 <= |r.writes| <= 2 && Progresses(r.writes) == ImageSteps[..|r.writes|]
    ensures r.outcome.Returned? <==> |r.writes| == 2
    ensures r.outcome.Returned? <==> lib.imageText.Returned?
    ensures lib.imageText.Raised? ==> r.outcome == Raised(lib.imageText.message)
    ensures r.outcome.Returned? ==>
      r.outcome.value == Processed([TextFragment(lib.imageText.value, "image", None)], [], [],
        map["text" := TextFile(dir, filePath)])
  {
    var ws := [Checkpoint(30, "Applying OCR to image"), Checkpoint(90, "OCR completed, preparing results")];
    ImageCheckpoints(ws);
    match lib.imageText
    case Raised(m) => Step(ws[..1], Raised(m))
    case Returned(text) =>
      Step(ws, Returned(Processed([TextFragment(text, "image", None)], [], [], map["text" := TextFile(dir, filePath)])))
  }

  /** Every table has HTML; otherwise writing the tables file raises. */
  predicate AllHtml(tables: seq<Option<string>>) {
    forall i :: 0 <= i < |tables| ==> tables[i].Some?
  }

  /** The table fragments for a list of HTML strings, all from `source`. */
  function TableFragments(tables: seq<Option<string>>, source: string): (r: seq<TableFragment>)
    requires AllHtml(tables)
    ensures |r| == |tables|
    ensures forall i :: 0 <= i < |r| ==> r[i] == TableFragment(tables[i].value, source, None)
  {
    seq(|tables|, i requires 0 <= i < |tables| => TableFragment(tables[i].value, source, None))
  }

  /** The PDF text runs, each tagged. */
  function TagPdfTexts(texts: seq<string>): (r: seq<TextFragment>)
    ensures |r| == |texts|
    ensures forall i :: 0 <= i < |r| ==> r[i] == TagPdfText(texts[i])
  {
    seq(|texts|, i requires 0 <= i < |texts| => TagPdfText(texts[i]))
  }

  /** The presentation's text runs, all tagged `slide` without a number. */
  function SlideTexts(texts: seq<string>): (r: seq<TextFragment>)
    ensures |r| == |texts|
    ensures forall i :: 0 <= i < |r| ==> r[i] == TextFragment(texts[i], "slide", None)
  {
    seq(|texts|, i requires 0 <= i < |texts| => TextFragment(texts[i], "slide", None))
  }

  /** `process_pdf`: extraction failure is raised after the first checkpoint;
      a table without HTML raises after the second. */
  function ProcessPdf(filePath: string, dir: string, lib: Library): (r: Step)
    ensures AllCheckpoints(r.writes)
    ensures 1 <= |r.writes| <= 3 && Progresses(r.writes) == DocumentSteps[..|r.writes|]
    ensures r.outcome.Returned? <==> |r.writes| == 3
    ensures r.outcome.Returned? <==>
      ParsePdf.Extract(lib.pdf, Some(ImagesDir(dir, filePath))).Returned? &&
      AllHtml(ParsePdf.Extract(lib.pdf, Some(ImagesDir(dir, filePath))).value.tables)
    ensures r.outcome.Returned? ==>
      r.outcome.value.texts == TagPdfTexts(ParsePdf.Extract(lib.pdf, Some(ImagesDir(dir, filePath))).value.texts) &&
      r.outcome.value.images == PdfImageRefs(ImagesDir(dir, filePath), lib.listing) &&
      r.outcome.value.outputFiles == DocumentFiles(dir, filePath)
  {
    var imagesDir := ImagesDir(dir, filePath);
    PdfStep(ParsePdf.Extract(lib.pdf, Some(imagesDir)), imagesDir, DocumentFiles(dir, filePath), lib.listing)
  }

  /** The PDF processor after extraction. */
  function PdfStep(e: Attempt<ParsePdf.Extraction>, imagesDir: string, files: map<string, string>, listing: seq<string>): (r: Step)
    ensures AllCheckpoints(r.writes)
    ensures 1 <= |r.writes| <= 3 && Progresses(r.writes) == DocumentSteps[..|r.writes|]
    ensures r.outcome.Returned? <==> |r.writes| == 3
    ensures r.outcome.Returned? <==> e.Returned? && AllHtml(e.value.tables)
    ensures e.Raised? ==> r.outcome == Raised(e.message)
    ensures r.outcome.Returned? ==>
      r.outcome.value == Processed(TagPdfTexts(e.value.texts), TableFragments(e.value.tables, "pdf"), PdfImageRefs(imagesDir, listing), files)
  {
    var ws := [Checkpoint(30, "Extracting text and tables from PDF"), Checkpoint(70, "Processing PDF pages"),
               Checkpoint(90, "PDF processing completed, preparing results")];
    DocumentCheckpoints(ws);
    if e.Raised? then Step(ws[..1], Raised(e.message))
    else if !AllHtml(e.value.tables) then Step(ws[..2], Raised(NoneConcatError))
    else
      Step(ws, Returned(Processed(TagPdfTexts(e.value.texts), TableFragments(e.value.tables, "pdf"),
        PdfImageRefs(imagesDir, listing), files)))
  }

  /** `process_pptx`: same shape as the PDF processor, with every text and
      table tagged `slide`. */
  function ProcessPptx(filePath: string, dir: string, lib: Library): (r: Step)
    ensures AllCheckpoints(r.writes)
    ensures 1 <= |r.writes| <= 3 && Progresses(r.writes) == DocumentSteps[..|r.writes|]
    ensures r.outcome.Returned? <==> |r.writes| == 3
    ensures r.outcome.Returned? <==>
      ParsePptx.Extract(lib.pptx).Returned? && AllHtml(ParsePptx.Extract(lib.pptx).value.tables)
    ensures r.outcome.Returned? ==>
      r.outcome.value.images == PptxImageRefs(ImagesDir(dir, filePath), lib.listing) &&
      r.outcome.value.outputFiles == DocumentFiles(dir, filePath)
  {
    PptxStep(ParsePptx.Extract(lib.pptx), ImagesDir(dir, filePath), DocumentFiles(dir, filePath), lib.listing)
  }

  /** The PowerPoint processor after extraction. */
  function PptxStep(e: Attempt<ParsePptx.Extraction>, imagesDir: string, files: map<string, string>, listing: seq<string>): (r: Step)
    ensures AllCheckpoints(r.writes)
    ensures 1 <= |r.writes| <= 3 && Progresses(r.writes) == DocumentSteps[..|r.writes|]
    ensures r.outcome.Returned? <==> |r.writes| == 3
    ensures r.outcome.Returned? <==> e.Returned? && AllHtml(e.value.tables)
    ensures e.Raised? ==> r.outcome == Raised(e.message)
    ensures r.outcome.Returned? ==>
      r.outcome.value == Processed(SlideTexts(e.value.texts), TableFragments(e.value.tables, "slide"), PptxImageRefs(imagesDir, listing), files)
  {
    var ws := [Checkpoint(30, "Extracting content from PowerPoint"), Checkpoint(70, "Processing PowerPoint slides"),
               Checkpoint(90, "PowerPoint processing completed, preparing results")];
    DocumentCheckpoints(ws);
    if e.Raised? then Step(ws[..1], Raised(e.message))
    else if !AllHtml(e.value.tables) then Step(ws[..2], Raised(NoneConcatError))
    else
      Step(ws, Returned(Processed(SlideTexts(e.value.texts), TableFragments(e.value.tables, "slide"),
        PptxImageRefs(imagesDir, listing), files)))
  }

  /** The directory the processors write into: the given or default output
      directory for `files`, the scratch directory otherwise. */
  function OutputDir(jobId: string, format: OutputFormat, outputDir: Option<string>, scratchDir: string): string {
    if format == Files then
      (if outputDir.Some? && outputDir.value != "" then outputDir.value else Join("parsed_docs", jobId))
    else scratchDir
  }

  /** The category name to process: an `auto` type is resolved from the path. */
  function ResolveType(fileType: string, filePath: string): (r: Attempt<string>)
    ensures fileType != "auto" ==> r == Returned(fileType)
    ensures fileType == "auto" ==>
      (r.Raised? <==> GetFileType(filePath).None?) &&
      (r.Returned? ==> r.value == GetFileType(filePath).value.Name())
  {
    if fileType == "auto" then
      match GetFileType(filePath)
      case Some(c) => Returned(c.Name())
      case None => Raised("Unsupported file type for " + filePath)
    else Returned(fileType)
  }

  /** Runs the processor for a resolved category name. */
  function Dispatch(ft: string, filePath: string, dir: string, lib: Library): (r: Step)
    ensures AllCheckpoints(r.writes)
    ensures ft == "image" ==>
      1 <= |r.writes| <= 2 && Progresses(r.writes) == ImageSteps[..|r.writes|] &&
      (r.outcome.Returned? <==> |r.writes| == 2)
    ensures ft == "pdf" || ft == "pptx" ==>
      1 <= |r.writes| <= 3 && Progresses(r.writes) == DocumentSteps[..|r.writes|] &&
      (r.outcome.Returned? <==> |r.writes| == 3)
    ensures ft !in {"image", "pdf", "pptx"} ==> r == Step([], Raised("Unsupported file type: " + ft))
  {
    if ft == "image" then ProcessImage(filePath, dir, lib)
    else if ft == "pdf" then ProcessPdf(filePath, dir, lib)
    else if ft == "pptx" then ProcessPptx(filePath, dir, lib)
    else Step([], Raised("Unsupported file type: " + ft))
  }

  lemma CheckpointsAppend(a: seq<Write>, b: seq<Write>)
    requires AllCheckpoints(a) && AllCheckpoints(b)
    ensures AllCheckpoints(a + b)
  {
  }

  /** A failed run: the writes so far, then the failure write. */
  function Fail(before: seq<Write>, message: string, scratch: bool): (r: Run)
    requires AllCheckpoints(before)
    ensures WellFormed(r) && r.outcome == Raised(message)
  {
    var r := Run(before + [FailedWrite(message)], Raised(message), scratch);
    assert r.writes[..|r.writes| - 1] == before;
    r
  }

  /** A successful run: the writes so far, `completed`, then the result. */
  function Succeed(before: seq<Write>, result: ProcessingResult, scratch: bool): (r: Run)
    requires AllCheckpoints(before)
    ensures WellFormed(r) && r.outcome == Returned(result)
  {
    var r := Run(before + [SetStatus(Completed, Some(100), Some(CompletedMessage)), PutResult(result)], Returned(result), scratch);
    assert r.writes[..|r.writes| - 2] == before;
    r
  }

  /** `process_file`: one job from the first status write to the last store call. */
  function Plan(jobId: string, filePath: string, fileType: string, format: OutputFormat,
                outputDir: Option<string>, scratchDir: string, lib: Library): (r: Run)
    ensures WellFormed(r)
    ensures r.writes[0] == Checkpoint(10, "Starting " + fileType + " processing")
    ensures r.scratchRemoved <==> format == Json
  {
    var start := Checkpoint(10, "Starting " + fileType + " processing");
    var dir := OutputDir(jobId, format, outputDir, scratchDir);
    var scratch := format == Json;
    match ResolveType(fileType, filePath)
    case Raised(m) => Fail([start], m, scratch)
    case Returned(ft) => Conclude(jobId, filePath, ft, format, dir, scratch, start, Dispatch(ft, filePath, dir, lib))
  }

  /** The rest of a run once the category `ft` is known and its processor has run. */
  function Conclude(jobId: string, filePath: string, ft: string, format: OutputFormat, dir: string,
                    scratch: bool, start: Write, step: Step): (r: Run)
    requires IsCheckpoint(start) && AllCheckpoints(step.writes)
    ensures WellFormed(r) && r.writes[0] == start && r.scratchRemoved == scratch
    ensures r.outcome.Raised? <==> step.outcome.Raised?
    ensures step.outcome.Raised? ==> r.outcome.message == step.outcome.message
    ensures r.outcome.Returned? ==> r.outcome.value == ProcessingResult(jobId, Basename(filePath), ft,
      step.outcome.value.texts, step.outcome.value.tables, step.outcome.value.images, step.outcome.value.outputFiles,
      Some(Metadata(format, if format == Files then Some(dir) else None)))
  {
    var head := [start, Checkpoint(20, "Detected file type: " + ft)];
    var before := head + step.writes;
    CheckpointsAppend(head, step.writes);
    match step.outcome
    case Raised(m) => Fail(before, m, scratch)
    case Returned(p) =>
      Succeed(before, ProcessingResult(jobId, Basename(filePath), ft, p.texts, p.tables, p.images, p.outputFiles,
        Some(Metadata(format, if format == Files then Some(dir) else None))), scratch)
  }

  /** The progress values written, in order. */
  function Progresses(ws: seq<Write>): (r: seq<int>)
    ensures |r| <= |ws|
  {
    if |ws| == 0 then []
    else (if ws[0].SetStatus? && ws[0].progress.Some? then [ws[0].progress.value] else []) + Progresses(ws[1..])
  }

  lemma {:induction false} ProgressesAppend(a: seq<Write>, b: seq<Write>)
    ensures Progresses(a + b) == Progresses(a) + Progresses(b)
  {
    if |a| == 0 {
      assert a + b == b;
    } else {
      assert (a + b)[1..] == a[1..] + b;
      ProgressesAppend(a[1..], b);
    }
  }

  /** For intermediate writes, the progress values are exactly the writes' own. */
  lemma {:induction false} ProgressesOfCheckpoints(ws: seq<Write>)
    requires AllCheckpoints(ws)
    ensures |Progresses(ws)| == |ws|
    ensures forall i :: 0 <= i < |ws| ==> Progresses(ws)[i] == ws[i].progress.value
  {
    if |ws| > 0 {
      ProgressesOfCheckpoints(ws[1..]);
    }
  }

  /** The two checkpoints of the image processor climb its steps. */
  lemma ImageCheckpoints(ws: seq<Write>)
    requires |ws| == 2 && AllCheckpoints(ws)
    requires ws[0].progress == Some(30) && ws[1].progress == Some(90)
    ensures forall n :: 1 <= n <= 2 ==> AllCheckpoints(ws[..n]) && Progresses(ws[..n]) == ImageSteps[..n]
  {
    ProgressesOfCheckpoints(ws[..1]);
    ProgressesOfCheckpoints(ws);
    assert ws[..2] == ws;
  }

  /** The three checkpoints of a document processor climb its steps. */
  lemma DocumentCheckpoints(ws: seq<Write>)
    requires |ws| == 3 && AllCheckpoints(ws)
    requires ws[0].progress == Some(30) && ws[1].progress == Some(70) && ws[2].progress == Some(90)
    ensures forall n :: 1 <= n <= 3 ==> AllCheckpoints(ws[..n]) && Progresses(ws[..n]) == DocumentSteps[..n]
  {
    ProgressesOfCheckpoints(ws[..1]);
    ProgressesOfCheckpoints(ws[..2]);
    ProgressesOfCheckpoints(ws);
    assert ws[..3] == ws;
  }

  predicate NonDecreasing(s: seq<int>) {
    forall i, j :: 0 <= i < j < |s| ==> s[i] <= s[j]
  }

  /** The progress ladder of a successful image run. */
  const ImageLadder: seq<int> := [10, 20, 30, 90, 100]

  /** The progress ladder of a successful PDF or PowerPoint run. */
  const DocumentLadder: seq<int> := [10, 20, 30, 70, 90, 100]

  /** The ladder a successful run of category `ft` climbs. */
  function Ladder(ft: string): seq<int> {
    if ft == "image" then ImageLadder else DocumentLadder
  }

  predicate ProperPrefix(a: seq<int>, b: seq<int>) {
    |a| < |b| && a == b[..|a|]
  }

  lemma LaddersNonDecreasing()
    ensures NonDecreasing(ImageLadder) && NonDecreasing(DocumentLadder)
  {
  }

  lemma PrefixNonDecreasing(a: seq<int>, b: seq<int>)
    requires ProperPrefix(a, b) && NonDecreasing(b)
    ensures NonDecreasing(a)
  {
    assert forall i :: 0 <= i < |a| ==> a[i] == b[i];
  }

  /** The failure write carries no progress. */
  lemma FailProgress(before: seq<Write>, m: string, scratch: bool)
    requires AllCheckpoints(before)
    ensures Progresses(Fail(before, m, scratch).writes) == Progresses(before)
  {
    ProgressesAppend(before, [FailedWrite(m)]);
  }

  /** Success adds exactly the final 100. */
  lemma SucceedProgress(before: seq<Write>, result: ProcessingResult, scratch: bool)
    requires AllCheckpoints(before)
    ensures Progresses(Succeed(before, result, scratch).writes) == Progresses(before) + [100]
  {
    var tail := [SetStatus(Completed, Some(100), Some(CompletedMessage)), PutResult(result)];
    ProgressesAppend(before, tail);
    assert Progresses(tail) == [100];
  }

  /** Starting a ladder with 10, 20 and then a processor's own steps. */
  lemma DocumentStepsInLadder(n: nat)
    requires 1 <= n <= 3
    ensures n < 3 ==> ProperPrefix([10, 20] + DocumentSteps[..n], DocumentLadder)
    ensures [10, 20] + DocumentSteps + [100] == DocumentLadder
  {
  }

  /** Starting a ladder with 10, 20 and then the image processor's own steps. */
  lemma ImageStepsInLadder(n: nat)
    requires 1 <= n <= 2
    ensures n < 2 ==> ProperPrefix([10, 20] + ImageSteps[..n], ImageLadder)
    ensures [10, 20] + ImageSteps + [100] == ImageLadder
  {
  }

  /** The progress written up to the end of a processor's step. */
  lemma StepProgress(head: seq<Write>, ft: string, step: Step)
    requires AllCheckpoints(head) && Progresses(head) == [10, 20] && AllCheckpoints(step.writes)
    requires ft == "image" ==>
      1 <= |step.writes| <= 2 && Progresses(step.writes) == ImageSteps[..|step.writes|] &&
      (step.outcome.Returned? <==> |step.writes| == 2)
    requires ft == "pdf" || ft == "pptx" ==>
      1 <= |step.writes| <= 3 && Progresses(step.writes) == DocumentSteps[..|step.writes|] &&
      (step.outcome.Returned? <==> |step.writes| == 3)
    requires ft !in {"image", "pdf", "pptx"} ==> step == Step([], Raised("Unsupported file type: " + ft))
    ensures step.outcome.Raised? ==>
      ProperPrefix(Progresses(head + step.writes), ImageLadder) ||
      ProperPrefix(Progresses(head + step.writes), DocumentLadder)
    ensures step.outcome.Returned? ==> Progresses(head + step.writes) + [100] == Ladder(ft)
  {
    ProgressesAppend(head, step.writes);
    if ft == "pdf" || ft == "pptx" {
      DocumentStepsInLadder(|step.writes|);
    } else if ft == "image" {
      ImageStepsInLadder(|step.writes|);
    }
  }

  /** The progress after the category is known: the rest of the ladder. */
  lemma ConcludeProgress(jobId: string, filePath: string, ft: string, format: OutputFormat, dir: string,
                         scratch: bool, start: Write, step: Step)
    requires IsCheckpoint(start) && start.progress == Some(10) && AllCheckpoints(step.writes)
    requires ft == "image" ==>
      1 <= |step.writes| <= 2 && Progresses(step.writes) == ImageSteps[..|step.writes|] &&
      (step.outcome.Returned? <==> |step.writes| == 2)
    requires ft == "pdf" || ft == "pptx" ==>
      1 <= |step.writes| <= 3 && Progresses(step.writes) == DocumentSteps[..|step.writes|] &&
      (step.outcome.Returned? <==> |step.writes| == 3)
    requires ft !in {"image", "pdf", "pptx"} ==> step == Step([], Raised("Unsupported file type: " + ft))
    ensures var r := Conclude(jobId, filePath, ft, format, dir, scratch, start, step);
      (r.outcome.Returned? ==> Progresses(r.writes) == Ladder(ft)) &&
      (r.outcome.Raised? ==>
        ProperPrefix(Progresses(r.writes), ImageLadder) || ProperPrefix(Progresses(r.writes), DocumentLadder))
  {
    var head := [start, Checkpoint(20, "Detected file type: " + ft)];
    var before := head + step.writes;
    CheckpointsAppend(head, step.writes);
    assert Progresses(head) == [10, 20];
    StepProgress(head, ft, step);
    match step.outcome {
    case Raised(m) =>
      FailProgress(before, m, scratch);
    case Returned(p) =>
      SucceedProgress(before, ProcessingResult(jobId, Basename(filePath), ft, p.texts, p.tables, p.images, p.outputFiles,
        Some(Metadata(format, if format == Files then Some(dir) else None))), scratch);
    }
  }

  /** The progress a run writes: the whole ladder of its category when it
      succeeds, a proper start of one of the two ladders when it fails, and
      never a decrease. */
  lemma PlanProgress(jobId: string, filePath: string, fileType: string, format: OutputFormat,
                     outputDir: Option<string>, scratchDir: string, lib: Library)
    ensures var r := Plan(jobId, filePath, fileType, format, outputDir, scratchDir, lib);
      (r.outcome.Returned? ==> Progresses(r.writes) == Ladder(r.outcome.value.fileType)) &&
      (r.outcome.Raised? ==>
        ProperPrefix(Progresses(r.writes), ImageLadder) || ProperPrefix(Progresses(r.writes), DocumentLadder)) &&
      NonDecreasing(Progresses(r.writes))
  {
    var r := Plan(jobId, filePath, fileType, format, outputDir, scratchDir, lib);
    PlanClimbs(jobId, filePath, fileType, format, outputDir, scratchDir, lib);
    ClimbNonDecreasing(r);
  }

  /** A run climbs its ladder: all of it on success, a proper start of one
      of the two ladders on failure. */
  predicate Climbs(r: Run) {
    (r.outcome.Returned? ==> Progresses(r.writes) == Ladder(r.outcome.value.fileType)) &&
    (r.outcome.Raised? ==>
      ProperPrefix(Progresses(r.writes), ImageLadder) || ProperPrefix(Progresses(r.writes), DocumentLadder))
  }

  lemma PlanClimbs(jobId: string, filePath: string, fileType: string, format: OutputFormat,
                   outputDir: Option<string>, scratchDir: string, lib: Library)
    ensures Climbs(Plan(jobId, filePath, fileType, format, outputDir, scratchDir, lib))
  {
    var start := Checkpoint(10, "Starting " + fileType + " processing");
    var dir := OutputDir(jobId, format, outputDir, scratchDir);
    match ResolveType(fileType, filePath) {
    case Raised(m) =>
      UnresolvedClimbs(start, m, format == Json);
    case Returned(ft) =>
      DispatchClimbs(jobId, filePath, ft, format, dir, format == Json, start, lib);
    }
  }

  lemma DispatchClimbs(jobId: string, filePath: string, ft: string, format: OutputFormat, dir: string,
                       scratch: bool, start: Write, lib: Library)
    requires IsCheckpoint(start) && start.progress == Some(10)
    ensures Climbs(Conclude(jobId, filePath, ft, format, dir, scratch, start, Dispatch(ft, filePath, dir, lib)))
  {
    var step := Dispatch(ft, filePath, dir, lib);
    ConcludeProgress(jobId, filePath, ft, format, dir, scratch, start, step);
  }

  lemma UnresolvedClimbs(start: Write, m: string, scratch: bool)
    requires IsCheckpoint(start) && start.progress == Some(10)
    ensures Climbs(Fail([start], m, scratch))
  {
    FailProgress([start], m, scratch);
    assert Progresses([start]) == [10];
    assert [10] == ImageLadder[..1];
  }

  lemma ClimbNonDecreasing(r: Run)
    requires Climbs(r)
    ensures NonDecreasing(Progresses(r.writes))
  {
    LaddersNonDecreasing();
    if r.outcome.Returned? {
      assert Progresses(r.writes) == ImageLadder || Progresses(r.writes) == DocumentLadder;
    } else if ProperPrefix(Progresses(r.writes), ImageLadder) {
      PrefixNonDecreasing(Progresses(r.writes), ImageLadder);
    } else {
      PrefixNonDecreasing(Progresses(r.writes), DocumentLadder);
    }
  }

  /** An `auto` job whose path has no known suffix fails right after the
      first checkpoint. */
  lemma PlanUnsupportedAuto(jobId: string, filePath: string, format: OutputFormat,
                            outputDir: Option<string>, scratchDir: string, lib: Library)
    requires GetFileType(filePath).None?
    ensures Plan(jobId, filePath, "auto", format, outputDir, scratchDir, lib) ==
      Run([Checkpoint(10, "Starting auto processing"), FailedWrite("Unsupported file type for " + filePath)],
          Raised("Unsupported file type for " + filePath), format == Json)
  {
    StartingAuto();
    ResolveUnresolvedAuto(filePath);
    PlanUnresolved(jobId, filePath, "auto", format, outputDir, scratchDir, lib);
  }

  lemma StartingAuto()
    ensures "Starting " + "auto" + " processing" == "Starting auto processing"
  {
  }

  lemma ResolveUnresolvedAuto(filePath: string)
    requires GetFileType(filePath).None?
    ensures ResolveType("auto", filePath) == Raised("Unsupported file type for " + filePath)
  {
  }

  /** A job whose type cannot be resolved fails right after its start write. */
  lemma PlanUnresolved(jobId: string, filePath: string, fileType: string, format: OutputFormat,
                       outputDir: Option<string>, scratchDir: string, lib: Library)
    requires ResolveType(fileType, filePath).Raised?
    ensures var m := ResolveType(fileType, filePath).message;
      Plan(jobId, filePath, fileType, format, outputDir, scratchDir, lib) ==
      Run([Checkpoint(10, "Starting " + fileType + " processing"), FailedWrite(m)], Raised(m), format == Json)
  {
    var start := Checkpoint(10, "Starting " + fileType + " processing");
    var m := ResolveType(fileType, filePath).message;
    assert Plan(jobId, filePath, fileType, format, outputDir, scratchDir, lib) == Fail([start], m, format == Json);
    FailWrites([start], m, format == Json);
    assert [start] + [FailedWrite(m)] == [start, FailedWrite(m)];
  }

  /** The writes of a failure are the checkpoints so far and one `failed` write. */
  lemma FailWrites(before: seq<Write>, message: string, scratch: bool)
    requires AllCheckpoints(before)
    ensures Fail(before, message, scratch) == Run(before + [FailedWrite(message)], Raised(message), scratch)
  {
  }

  /** A job whose type names no category fails after the second checkpoint. */
  lemma PlanUnknownType(jobId: string, filePath: string, fileType: string, format: OutputFormat,
                        outputDir: Option<string>, scratchDir: string, lib: Library)
    requires fileType !in {"auto", "image", "pdf", "pptx"}
    ensures Plan(jobId, filePath, fileType, format, outputDir, scratchDir, lib) ==
      Run([Checkpoint(10, "Starting " + fileType + " processing"), Checkpoint(20, "Detected file type: " + fileType),
           FailedWrite("Unsupported file type: " + fileType)],
          Raised("Unsupported file type: " + fileType), format == Json)
  {
    var r := Plan(jobId, filePath, fileType, format, outputDir, scratchDir, lib);
    var dir := OutputDir(jobId, format, outputDir, scratchDir);
    assert Dispatch(fileType, filePath, dir, lib) == Step([], Raised("Unsupported file type: " + fileType));
  }

  /** The fields every successful run fills in the same way: the job, the
      file's base name, the resolved category, and the output directory only
      for `files`. */
  lemma PlanResultFields(jobId: string, filePath: string, fileType: string, format: OutputFormat,
                         outputDir: Option<string>, scratchDir: string, lib: Library)
    requires Plan(jobId, filePath, fileType, format, outputDir, scratchDir, lib).outcome.Returned?
    ensures var res := Plan(jobId, filePath, fileType, format, outputDir, scratchDir, lib).outcome.value;
      res.jobId == jobId && res.fileName == Basename(filePath) &&
      Returned(res.fileType) == ResolveType(fileType, filePath) &&
      res.fileType in {"image", "pdf", "pptx"} &&
      res.metadata == Some(Metadata(format,
        if format == Files then Some(OutputDir(jobId, format, outputDir, scratchDir)) else None))
  {
  }

  /** An image job yields one untagged OCR text and only the text file. */
  lemma PlanImage(jobId: string, filePath: string, fileType: string, format: OutputFormat,
                  outputDir: Option<string>, scratchDir: string, lib: Library)
    requires ResolveType(fileType, filePath) == Returned("image") && lib.imageText.Returned?
    ensures var r := Plan(jobId, filePath, fileType, format, outputDir, scratchDir, lib);
      var dir := OutputDir(jobId, format, outputDir, scratchDir);
      r.outcome.Returned? &&
      r.outcome.value.texts == [TextFragment(lib.imageText.value, "image", None)] &&
      r.outcome.value.tables == [] && r.outcome.value.images == [] &&
      r.outcome.value.outputFiles == map["text" := TextFile(dir, filePath)]
  {
  }

  /** Every output file of a processor lies in the directory it was given. */
  lemma OutputsUnder(dir: string, filePath: string)
    ensures StartsWith(TextFile(dir, filePath), dir)
    ensures StartsWith(TablesFile(dir, filePath), dir)
    ensures StartsWith(ImagesDir(dir, filePath), dir)
  {
    var stem := Stem(filePath);
    StemHasNoSeparator(filePath);
    assert |stem + ".txt"| > 0 && (stem + ".txt")[0] != '/';
    assert |stem + "_tables.html"| > 0 && (stem + "_tables.html")[0] != '/';
    JoinExtends(dir, stem + ".txt");
    JoinExtends(dir, stem + "_tables.html");
    JoinExtends(dir, stem);
  }

  /** Every output file and image of a processor's result lies under `dir`. */
  predicate OutputsIn(p: Processed, dir: string) {
    (forall k :: k in p.outputFiles ==> StartsWith(p.outputFiles[k], dir)) &&
    (forall i :: 0 <= i < |p.images| ==> StartsWith(p.images[i].path, dir))
  }

  /** Whatever a processor returns points into its output directory. */
  lemma DispatchOutputsUnder(ft: string, filePath: string, dir: string, lib: Library)
    requires Dispatch(ft, filePath, dir, lib).outcome.Returned?
    ensures var p := Dispatch(ft, filePath, dir, lib).outcome.value;
      (forall k :: k in p.outputFiles ==> StartsWith(p.outputFiles[k], dir)) &&
      (forall i :: 0 <= i < |p.images| ==> StartsWith(p.images[i].path, dir))
  {
    if ft == "image" {
      ImageOutputsUnder(filePath, dir, lib);
    } else if ft == "pdf" {
      PdfOutputsUnder(filePath, dir, lib);
    } else {
      PptxOutputsUnder(filePath, dir, lib);
    }
  }

  lemma ImageOutputsUnder(filePath: string, dir: string, lib: Library)
    requires ProcessImage(filePath, dir, lib).outcome.Returned?
    ensures OutputsIn(ProcessImage(filePath, dir, lib).outcome.value, dir)
  {
    OutputsUnder(dir, filePath);
  }

  lemma PdfOutputsUnder(filePath: string, dir: string, lib: Library)
    requires ProcessPdf(filePath, dir, lib).outcome.Returned?
    ensures OutputsIn(ProcessPdf(filePath, dir, lib).outcome.value, dir)
  {
    var p := ProcessPdf(filePath, dir, lib).outcome.value;
    var sub := ImagesDir(dir, filePath);
    DocumentFilesUnder(dir, filePath);
    OutputsUnder(dir, filePath);
    ImagesUnder(PdfImageRefs(sub, lib.listing), sub, dir);
    assert p.outputFiles == DocumentFiles(dir, filePath);
    assert p.images == PdfImageRefs(sub, lib.listing);
  }

  lemma PptxOutputsUnder(filePath: string, dir: string, lib: Library)
    requires ProcessPptx(filePath, dir, lib).outcome.Returned?
    ensures OutputsIn(ProcessPptx(filePath, dir, lib).outcome.value, dir)
  {
    var p := ProcessPptx(filePath, dir, lib).outcome.value;
    var sub := ImagesDir(dir, filePath);
    DocumentFilesUnder(dir, filePath);
    OutputsUnder(dir, filePath);
    ImagesUnder(PptxImageRefs(sub, lib.listing), sub, dir);
    assert p.outputFiles == DocumentFiles(dir, filePath);
    assert p.images == PptxImageRefs(sub, lib.listing);
  }

  lemma DocumentFilesUnder(dir: string, filePath: string)
    ensures forall k :: k in DocumentFiles(dir, filePath) ==> StartsWith(DocumentFiles(dir, filePath)[k], dir)
  {
    OutputsUnder(dir, filePath);
  }

  lemma ImagesUnder(images: seq<ImageRef>, sub: string, dir: string)
    requires StartsWith(sub, dir)
    requires forall i :: 0 <= i < |images| ==> StartsWith(images[i].path, sub)
    ensures forall i :: 0 <= i < |images| ==> StartsWith(images[i].path, dir)
  {
    forall i | 0 <= i < |images| ensures StartsWith(images[i].path, dir) {
      StartsWithTrans(images[i].path, sub, dir);
    }
  }

  /** In `json` mode every path a successful run returns lies in the scratch
      directory, which the run has removed by the time it returns. */
  lemma JsonOutputsInScratch(jobId: string, filePath: string, fileType: string,
                             outputDir: Option<string>, scratchDir: string, lib: Library)
    requires Plan(jobId, filePath, fileType, Json, outputDir, scratchDir, lib).outcome.Returned?
    ensures var r := Plan(jobId, filePath, fileType, Json, outputDir, scratchDir, lib);
      var res := r.outcome.value;
      r.scratchRemoved && res.metadata == Some(Metadata(Json, None)) &&
      (forall k :: k in res.outputFiles ==> StartsWith(res.outputFiles[k], scratchDir)) &&
      (forall i :: 0 <= i < |res.images| ==> StartsWith(res.images[i].path, scratchDir))
  {
    var ft := ResolveType(fileType, filePath).value;
    DispatchOutputsUnder(ft, filePath, scratchDir, lib);
  }

  /** The texts of a successful PDF run are the extracted runs, each tagged. */
  lemma PlanPdfTexts(jobId: string, filePath: string, fileType: string, format: OutputFormat,
                     outputDir: Option<string>, scratchDir: string, lib: Library)
    requires ResolveType(fileType, filePath) == Returned("pdf")
    requires Plan(jobId, filePath, fileType, format, outputDir, scratchDir, lib).outcome.Returned?
    ensures var imagesDir := ImagesDir(OutputDir(jobId, format, outputDir, scratchDir), filePath);
      var e := ParsePdf.Extract(lib.pdf, Some(imagesDir));
      e.Returned? &&
      Plan(jobId, filePath, fileType, format, outputDir, scratchDir, lib).outcome.value.texts == TagPdfTexts(e.value.texts)
  {
    var dir := OutputDir(jobId, format, outputDir, scratchDir);
    assert ProcessPdf(filePath, dir, lib).outcome.Returned?;
  }

  /** An OCR run anywhere among the texts comes out tagged with its page. */
  lemma TaggedOcrLine(texts: seq<string>, page: nat, t: string)
    requires ParsePdf.OcrLine(page, t) in texts
    ensures TextFragment(t, "ocr", Some(page)) in TagPdfTexts(texts)
  {
    var j :| 0 <= j < |texts| && texts[j] == ParsePdf.OcrLine(page, t);
    TagOcrLine(page, t);
    assert TagPdfTexts(texts)[j] == TextFragment(t, "ocr", Some(page));
  }

  /** End to end: the OCR text of every saved page whose text is not blank
      comes back as an `ocr` fragment carrying that page's number. */
  lemma PdfOcrReachesResult(jobId: string, filePath: string, fileType: string, format: OutputFormat,
                            outputDir: Option<string>, scratchDir: string, lib: Library, k: nat)
    requires ResolveType(fileType, filePath) == Returned("pdf")
    requires Plan(jobId, filePath, fileType, format, outputDir, scratchDir, lib).outcome.Returned?
    requires lib.pdf.pages.Returned? && k < ParsePdf.OcrPages(lib.pdf.pages.value, 1).0
    requires ParsePdf.PageText(lib.pdf.pages.value[k]).Some?
    ensures TextFragment(Strip(lib.pdf.pages.value[k].ocr.value), "ocr", Some(k + 1))
      in Plan(jobId, filePath, fileType, format, outputDir, scratchDir, lib).outcome.value.texts
  {
    var imagesDir := ImagesDir(OutputDir(jobId, format, outputDir, scratchDir), filePath);
    PlanPdfTexts(jobId, filePath, fileType, format, outputDir, scratchDir, lib);
    OcrTextTagged(lib.pdf, imagesDir, k, ParsePdf.PageText(lib.pdf.pages.value[k]).value);
  }

  /** The extractor's OCR run for a saved page is tagged back to its page. */
  lemma OcrTextTagged(doc: ParsePdf.Document, imagesDir: string, k: nat, t: string)
    requires ParsePdf.SavedOcrPage(doc, k, t)
    ensures TextFragment(t, "ocr", Some(k + 1)) in TagPdfTexts(ParsePdf.Extract(doc, Some(imagesDir)).value.texts)
  {
    var j := ParsePdf.OcrLineIndex(doc, imagesDir, k, t);
    TaggedOcrLineAt(ParsePdf.Extract(doc, Some(imagesDir)).value.texts, j, k + 1, t);
  }

  /** An OCR line at index `j` is tagged back to its page at that index. */
  lemma TaggedOcrLineAt(texts: seq<string>, j: nat, page: nat, t: string)
    requires j < |texts| && texts[j] == ParsePdf.OcrLine(page, t)
    ensures TagPdfTexts(texts)[j] == TextFragment(t, "ocr", Some(page))
    ensures TextFragment(t, "ocr", Some(page)) in TagPdfTexts(texts)
  {
    TagOcrLine(page, t);
  }

  /** End to end: a listed page image `page_<i>.png` is reported with page `i`. */
  lemma PageImageReachesResult(jobId: string, filePath: string, fileType: string, format: OutputFormat,
                               outputDir: Option<string>, scratchDir: string, lib: Library, j: nat, i: nat)
    requires ResolveType(fileType, filePath) == Returned("pdf")
    requires Plan(jobId, filePath, fileType, format, outputDir, scratchDir, lib).outcome.Returned?
    requires j < |lib.listing| && lib.listing[j] == ParsePdf.PageImageName(i)
    ensures var imagesDir := ImagesDir(OutputDir(jobId, format, outputDir, scratchDir), filePath);
      ImageRef(Join(imagesDir, lib.listing[j]), "page", Some(i))
        in Plan(jobId, filePath, fileType, format, outputDir, scratchDir, lib).outcome.value.images
  {
    var dir := OutputDir(jobId, format, outputDir, scratchDir);
    var imagesDir := ImagesDir(dir, filePath);
    assert ProcessPdf(filePath, dir, lib).outcome.value.images == PdfImageRefs(imagesDir, lib.listing);
    PageImageRoundTrip(imagesDir, i);
    PdfImageRefsExact(imagesDir, lib.listing);
  }

  /** End to end: a listed slide image `slide<s>_img<k>.<ext>` is reported with slide `s`. */
  lemma SlideImageReachesResult(jobId: string, filePath: string, fileType: string, format: OutputFormat,
                                outputDir: Option<string>, scratchDir: string, lib: Library,
                                j: nat, s: nat, k: nat, ext: string)
    requires ResolveType(fileType, filePath) == Returned("pptx")
    requires Plan(jobId, filePath, fileType, format, outputDir, scratchDir, lib).outcome.Returned?
    requires j < |lib.listing| && lib.listing[j] == ParsePptx.ImageName(s, k, ext)
    ensures var imagesDir := ImagesDir(OutputDir(jobId, format, outputDir, scratchDir), filePath);
      ImageRef(Join(imagesDir, lib.listing[j]), "slide", Some(s))
        in Plan(jobId, filePath, fileType, format, outputDir, scratchDir, lib).outcome.value.images
  {
    var dir := OutputDir(jobId, format, outputDir, scratchDir);
    var imagesDir := ImagesDir(dir, filePath);
    assert ProcessPptx(filePath, dir, lib).outcome.value.images == PptxImageRefs(imagesDir, lib.listing);
    SlideImageRoundTrip(imagesDir, s, k, ext);
    PptxImageRefsExact(imagesDir, lib.listing);
  }

  /** How far along a status is: pending, then processing, then a terminal status. */
  function Stage(s: JobStatus): nat {
    match s
    case Pending => 0
    case Processing => 1
    case Completed => 2
    case Failed => 2
  }

  /** In a well-formed run the statuses written never move back, every one is
      past `pending`, and exactly one is terminal: the last status write. */
  lemma StatusesForward(r: Run)
    requires WellFormed(r)
    ensures forall i, j :: 0 <= i < j < |r.writes| && r.writes[i].SetStatus? && r.writes[j].SetStatus? ==>
      Stage(r.writes[i].status) <= Stage(r.writes[j].status)
    ensures forall i :: 0 <= i < |r.writes| && r.writes[i].SetStatus? ==> Stage(Pending) < Stage(r.writes[i].status)
    ensures forall i, j ::
      (0 <= i < |r.writes| && 0 <= j < |r.writes| && r.writes[i].SetStatus? && r.writes[j].SetStatus? &&
       Stage(r.writes[i].status) == 2 && Stage(r.writes[j].status) == 2) ==> i == j
  {
    var n := if r.outcome.Returned? then |r.writes| - 2 else |r.writes| - 1;
    assert forall i :: 0 <= i < n ==> r.writes[i] == r.writes[..n][i];
    assert forall i :: 0 <= i < |r.writes| && r.writes[i].SetStatus? ==>
      (i < n ==> Stage(r.writes[i].status) == 1) && (i >= n ==> i == n && Stage(r.writes[i].status) == 2);
  }
}
