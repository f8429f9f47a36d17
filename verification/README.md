# owl-ocr job service, modelled in Dafny

This project models the job lifecycle and the extraction dispatch of the
owl-ocr service, which turns PDF, PowerPoint and image files into text,
table HTML and image files. The store, the clock, the fresh ids and the
extraction libraries are parameters. The model covers:

- **The job store.** Redis is modelled as three maps: job records, results,
  and the score-ordered job index. Each record and result carries an
  integer expiry, and an entry is alive while the clock has not passed it.
  The operations are `create_job`, `get_job`, `update_job_status`,
  `store_job_result`, `get_job_result` and `clean_old_jobs`
  (modules `JobStore`, `Models`).
- **The worker.** One run of `process_file` is modelled as the list of
  store calls it makes, together with what it returns or raises
  (`Worker`). `Execution` applies that list to the store. `FileType`
  holds the six-entry extension table. `get_file_type` in `main.py`,
  `functional_api.py` and the worker is the same function, so it is
  modelled once.
- **The extractors.** The PDF and PowerPoint extractors are modelled over
  the libraries' answers (`Elements`, `ParsePdf`, `ParsePptx`). The
  worker's parsers for their text and file-name formats are in `Tagging`,
  with round-trip lemmas.
- **The HTTP front doors.**
  - The upload endpoints: `ProcessRouter`, with `Uploads` for the saved
    path.
  - The job endpoints: `JobsRouter`.
  - The self-contained in-memory twin: `FunctionalApi`.
- **The rate-limiting middleware** (`RateLimit`).
- **The command-line router** of `main.py` (`Cli`).

Support modules:

- `Wrappers`: `Option`, and `Attempt`, a value or a raised exception.
- `Strings`: Python's `str.find`, `split`, `replace`, `strip`, `int()` and
  `str()`.
- `Paths`: `pathlib`'s name, suffix and stem, `os.path.join` and
  `os.path.basename`, and ASCII lower-casing.

Source paths below are relative to the repository root.

## Model

| member | source | states |
|---|---|---|
| Models.StatusFromName | api/models/responses.py:10-15 | a string validates as a job status only when it is that status's wire value |
| Models.StatusNameRoundTrip | api/models/responses.py:10-15 | every status validates back from its wire value, so the four values are distinct and each is accepted |
| Models.OutputFormatFromName | api/models/requests.py:9-12 | a string validates as an output format only when it is that format's wire value |
| Models.OutputFormatNameRoundTrip | api/models/requests.py:9-12 | `json` and `files` each validate back to their own format |
| Paths.Lower | src/jobs/worker.py:159 | lower-casing keeps the length and maps every character to its lower-case form |
| Paths.LowerIdempotent | src/jobs/worker.py:159 | lower-casing an already lower-cased string changes nothing |
| Paths.Suffix | src/jobs/worker.py:159 | a suffix is empty, or a dot followed by at least one character and no further dot, and it ends the last path component |
| Paths.Stem | src/jobs/worker.py:192 | the stem followed by the suffix is exactly the last path component |
| Paths.Basename | src/jobs/worker.py:86 | the base name is a separator-free ending of the path |
| Paths.Join | src/jobs/worker.py:193 | joining a relative name gives a path that ends with that name |
| Paths.JoinExtends | src/jobs/worker.py:193 | joining a relative name gives a path that starts with the directory |
| Paths.NameOfJoin | api/routers/process.py:50 | the last component of a directory joined with a separator-free name is that name |
| Paths.SuffixOfPlainName | src/jobs/worker.py:159 | the suffix of a plain name runs from its last interior dot to the end |
| Paths.HiddenNameHasNoSuffix | src/jobs/worker.py:159 | a name whose only dot is its first character has no suffix |
| Strings.Find | src/jobs/worker.py:287 | the index returned is the first occurrence of the pattern; None means it occurs nowhere |
| Strings.Before | src/jobs/worker.py:289 | `split(sep)[0]` is a prefix without `sep` that ends at the first `sep`, or is the whole string |
| Strings.After | src/jobs/worker.py:293 | `split(sep, 1)[1]`, the part before the first `sep`, then `sep`, then this part, gives back the string |
| Strings.SplitAtFirst | src/jobs/worker.py:289-293 | splitting `p + sep + rest`, where `p` holds no `sep`, at its first `sep` gives back `p` and `rest` |
| Strings.Strip | src/utils/parse_pdf.py:74-75 | the stripped text is no longer than its input and neither starts nor ends with whitespace |
| Strings.StripIdempotent | src/utils/parse_pdf.py:74-75 | stripping twice is stripping once |
| Strings.NatToString | src/utils/parse_pdf.py:68 | the decimal form of a number is a non-empty run of digits |
| Strings.ParseInt | src/jobs/worker.py:290 | `int()` accepts a string only when, after stripping, it starts with a digit or a sign |
| Strings.ParseNatToString | src/jobs/worker.py:263 | `int(str(n)) == n` for every natural number |
| Strings.ParseIntToString | src/jobs/worker.py:290 | `int(str(i)) == i` for every integer, negative ones included |
| Strings.ParseIntLenient | src/jobs/worker.py:290 | `int()` accepts surrounding whitespace and a plus sign |
| Strings.ParseIntUnderscore | src/jobs/worker.py:290 | `int()` accepts a single underscore between digits |
| Strings.ParseIntRejects | src/jobs/worker.py:290-295 | `int()` raises on the empty string, a letter, and a doubled underscore |
| FileType.CategoryFromName | src/jobs/worker.py:99-106 | a category name resolves to the one category with that name, and nothing else resolves |
| FileType.GetFileType | src/jobs/worker.py:149-170 | a path resolves exactly when its lower-cased last suffix is one of the six extensions, and then to the category that owns that extension |
| FileType.ResolveDependsOnlyOnLastSuffix | src/jobs/worker.py:159 | two paths whose lower-cased last suffixes agree resolve alike |
| FileType.ResolveByExtension | src/jobs/worker.py:159-170 | a non-empty plain stem followed by an extension resolves through the table entry for the lower-cased extension |
| FileType.ResolveMixedCase | src/jobs/worker.py:159 | `report.PDF` resolves to pdf |
| FileType.ResolveLastSuffixOnly | src/jobs/worker.py:159 | `report.pdf.txt` does not resolve: only the last suffix counts |
| FileType.HiddenFileUnsupported | src/jobs/worker.py:159 | `uploads/.pdf` does not resolve, because a name that starts with its only dot has no suffix |
| FileType.ResolvedNameEnding | src/jobs/worker.py:159 | a resolved path's lower-cased name ends with the lower-cased suffix, and the name is longer than the suffix |
| Uploads.SavedPath | api/routers/process.py:47-50 | an upload is saved inside the upload directory under `<hex>_<filename>` |
| Uploads.SavedPathName | api/routers/process.py:48-50 | the last component of the saved path is `<hex>_<filename>` |
| Uploads.SavedPathType | api/routers/process.py:132-135 | an upload named `stem + ext` resolves through `ext` once saved, even when `stem` is empty |
| Uploads.SavedPathKeepsType | api/routers/process.py:132-135 | an upload with a non-empty stem resolves, once saved, to the same category as its own name |
| Uploads.HiddenUploadResolves | functional_api.py:283-286 | an upload named only by an extension does not resolve by its own name, but its saved path resolves through that extension |
| Uploads.HiddenPdfAccepted | api/routers/process.py:132-141 | the name `.pdf` does not resolve, but its saved upload resolves to pdf |
| Elements.TableHtml | src/utils/parse_pdf.py:42-55 | a present `text_as_html` is used as it is, even when empty or None; the plain placeholder appears exactly when the attribute is missing; the rendering-failed placeholder appears when metadata access raises |
| Elements.Partition | src/utils/parse_pdf.py:39-58 | every element contributes to exactly one of the text runs and the tables |
| Elements.PartitionAppend | src/utils/parse_pptx.py:38-57 | partitioning keeps element order: a split list partitions to the concatenation of the parts' partitions |
| Elements.PartitionSingle | src/utils/parse_pdf.py:40-58 | a table contributes only its HTML, and any other element only its text |
| Elements.PartitionTableCount | src/utils/parse_pdf.py:39-58 | there is one HTML entry per table element and one text run per other element |
| Elements.EmptyHtmlPassesThrough | src/utils/parse_pdf.py:44-49 | an empty `text_as_html` is recorded as the empty string, not as the placeholder |
| ParsePdf.PageText | src/utils/parse_pdf.py:72-77 | a page contributes OCR text exactly when OCR returned and the stripped text is non-empty; that text is stripped |
| ParsePdf.Kept | src/utils/parse_pdf.py:72-77 | a page keeps at most one text, tagged with its page number, and only when it has OCR text |
| ParsePdf.OcrPages | src/utils/parse_pdf.py:61-80 | the pages saved are a prefix of the document: the loop stops at the first page whose image cannot be saved |
| ParsePdf.OcrPagesSound | src/utils/parse_pdf.py:65-75 | every kept text belongs to a saved page and is that page's stripped OCR text |
| ParsePdf.OcrPagesComplete | src/utils/parse_pdf.py:65-75 | every saved page with non-blank OCR text has its text kept |
| ParsePdf.OcrPagesOrdered | src/utils/parse_pdf.py:65 | kept texts are in strictly increasing page order, starting from the first page number |
| ParsePdf.OcrLines | src/utils/parse_pdf.py:75 | each kept text is formatted `Page <i> (OCR): <text>`, in order |
| ParsePdf.OcrLineIndex | src/utils/parse_pdf.py:65-75 | a saved page's non-blank OCR text sits, as `Page <i> (OCR): <text>`, at a definite position among the extracted texts |
| ParsePdf.Extract | src/utils/parse_pdf.py:23-82 | a partition failure is raised; otherwise the texts are the partition's texts followed by the OCR lines of the saved pages, the tables are the partition's, and no OCR happens without an image directory or when page conversion raises |
| ParsePdf.OcrTextOfSavedPage | src/utils/parse_pdf.py:65-75 | the stripped non-blank OCR text of every saved page appears among the extracted texts, prefixed with its 1-based page number |
| ParsePptx.ShapeOutput | src/utils/parse_pptx.py:63-124 | only a picture shape with an image writes a file, named after its slide and shape with the extension lower-cased; a written picture contributes its OCR texts, a WMF or EMF one only through a successful PNG conversion, which adds a `png` file; a failed conversion keeps the file and contributes no text; an unwritten picture contributes nothing |
| ParsePptx.ShapesOutput | src/utils/parse_pptx.py:62-124 | every file written for a slide carries that slide's number and a shape number within the slide's shapes |
| ParsePptx.SlidesOutput | src/utils/parse_pptx.py:61-124 | every file written carries a slide number within the deck and a 1-based shape number |
| ParsePptx.ShapesOutputAppend | src/utils/parse_pptx.py:63-124 | the shapes of a slide are processed in order: a split list of shapes yields the files and texts of its first part, then those of the second part numbered on |
| ParsePptx.SlidesOutputAppend | src/utils/parse_pptx.py:61-124 | slides are processed in order: a split deck yields the files and texts of its first slides, then those of the rest numbered on |
| ParsePptx.ShapeTextsInPlace | src/utils/parse_pptx.py:63-122 | within a slide, a readable picture's OCR texts come after those of the shapes before it and before those of the shapes after it |
| ParsePptx.SlideTextsInPlace | src/utils/parse_pptx.py:61-124 | within a deck, a slide's texts come after those of the earlier slides and before those of the later ones |
| ParsePptx.PictureTextsInPlace | src/utils/parse_pptx.py:61-124 | a readable picture's OCR texts reach the slide texts in slide-then-shape order, between everything before it and everything after it |
| ParsePptx.Extract | src/utils/parse_pptx.py:27-126 | a partition failure or a presentation failure is raised with its own message, which `Processing failed:` then reports; otherwise picture OCR texts come after all partition texts, and the tables are the partition's |
| ParsePptx.ConversionFailureSkipsOnlyThatImage | src/utils/parse_pptx.py:78-112 | a WMF or EMF picture whose conversion fails keeps its file and yields no text, and the shapes after it are processed as before |
| Tagging.TagPdfText | src/jobs/worker.py:280-301 | a run is tagged `ocr` exactly when it starts `Page `, contains ` (OCR): ` and its page part parses; then its text is what follows the first separator; otherwise it stays `text` with no page |
| Tagging.TagOcrLine | src/utils/parse_pdf.py:75 | tagging `Page <i> (OCR): <text>` gives back `i` and `text` with source `ocr` |
| Tagging.TagSignedPage | src/jobs/worker.py:287-293 | any integer written after `Page `, negative ones included, is recovered as the page number |
| Tagging.PdfImageRef | src/jobs/worker.py:257-275 | a listed file becomes a page image exactly when it starts `page_` and ends `.png`; its number is the parse of the name with every `page_` and `.png` removed, or None |
| Tagging.PptxImageRef | src/jobs/worker.py:360-380 | a listed file becomes a slide image exactly when it starts `slide` and contains `_img`; its number is the parse of the part before the first `_` with every `slide` removed, or None |
| Tagging.PdfImageRefs | src/jobs/worker.py:258-275 | the page images of a listing all have source `page` and lie inside the images directory |
| Tagging.PptxImageRefs | src/jobs/worker.py:361-380 | the slide images of a listing all have source `slide` and lie inside the images directory |
| Tagging.PdfImageRefsExact | src/jobs/worker.py:258-275 | the page images are exactly the images of the matching listed files |
| Tagging.PptxImageRefsExact | src/jobs/worker.py:361-380 | the slide images are exactly the images of the matching listed files |
| Tagging.PageImageRoundTrip | src/utils/parse_pdf.py:68 | the file `page_<i>.png` written for page `i` is read back as a page image of page `i` |
| Tagging.StripDigitsAndPng | src/jobs/worker.py:263 | removing `page_` and `.png` from `page_<digits>.png` leaves the digits |
| Tagging.DoublePrefixTolerated | src/jobs/worker.py:263 | since every `page_` is removed, `page_page_<i>.png` still reads as page `i` |
| Tagging.SlideImageRoundTrip | src/utils/parse_pptx.py:71 | the file `slide<s>_img<k>.<ext>` is read back as a slide image of slide `s` |
| Worker.ProcessImage | src/jobs/worker.py:173-211 | an image job writes progress 30 then 90, and returns exactly one `image` text, no tables, no images and only the text file; a failure stops after 30 |
| Worker.TableFragments | src/jobs/worker.py:306 | one table fragment per HTML entry, in order, with the given source and no page |
| Worker.TagPdfTexts | src/jobs/worker.py:280-303 | every text run is tagged on its own, in order |
| Worker.SlideTexts | src/jobs/worker.py:384 | every text run becomes a `slide` fragment with no page, in order |
| Worker.ProcessPdf | src/jobs/worker.py:214-314 | a PDF job writes a prefix of 30, 70, 90; it succeeds exactly when extraction returns and every table has HTML; its texts are the tagged runs, its images those of the listing, and its files the three outputs |
| Worker.PdfStep | src/jobs/worker.py:235-314 | given the extraction, the PDF branch raises its exception, raises on a table without HTML, or returns the tagged texts, the `pdf` tables and the page images |
| Worker.ProcessPptx | src/jobs/worker.py:317-393 | a PowerPoint job writes a prefix of 30, 70, 90; it succeeds exactly when extraction returns and every table has HTML; its images are those of the listing and its files the three outputs |
| Worker.PptxStep | src/jobs/worker.py:338-393 | given the extraction, the PowerPoint branch raises its exception, raises on a table without HTML, or returns the `slide` texts and tables and the slide images |
| Worker.ResolveType | src/jobs/worker.py:89-93 | an explicit type is kept; `auto` fails exactly when the path does not resolve, and otherwise becomes the resolved category |
| Worker.Dispatch | src/jobs/worker.py:98-106 | a known category runs its processor with that processor's progress ladder; any other type raises `Unsupported file type` without a write |
| Worker.Fail | src/jobs/worker.py:136-146 | the failure path ends a run of checkpoints with one `failed` write, raising the same exception |
| Worker.Succeed | src/jobs/worker.py:123-134 | the success path ends a run of checkpoints with `completed` at 100 and then the result |
| Worker.Plan | src/jobs/worker.py:48-146 | every run starts with the 10% write, ends in exactly one terminal write after only `processing` writes, stores a result only on success and as its last call, and removes the scratch directory exactly in `json` mode |
| Worker.Conclude | src/jobs/worker.py:95-146 | after the start write, the run fails with the processor's exception or returns its fragments with the job id, base name, type and metadata |
| Worker.PlanProgress | src/jobs/worker.py:48-146 | on success the progress values are 10, 20, then 30, 90 for an image or 30, 70, 90 for a document, then 100; a failed run's values are a proper prefix of one ladder; progress never decreases |
| Worker.PlanClimbs | src/jobs/worker.py:48-146 | every run climbs its category's ladder, in full on success and part of the way on failure |
| Worker.ConcludeProgress | src/jobs/worker.py:95-146 | after the start write, a run's progress values follow its category's ladder |
| Worker.PlanUnsupportedAuto | src/jobs/worker.py:89-93 | an `auto` job whose path does not resolve writes 10, then fails with `Unsupported file type for <path>` |
| Worker.PlanUnresolved | src/jobs/worker.py:89-146 | a job whose type cannot be resolved makes exactly two store calls, the 10% write and one `failed` write, and raises the resolution error |
| Worker.PlanUnknownType | src/jobs/worker.py:105-106 | a job of an unknown type writes 10 and 20, then fails with `Unsupported file type: <type>` |
| Worker.PlanResultFields | src/jobs/worker.py:109-121 | a result carries the job id, the base name of the path, the resolved category, and an output directory only in `files` mode |
| Worker.PlanImage | src/jobs/worker.py:203-209 | a successful image job returns the OCR text as its one fragment, no tables, no images, and only the text file |
| Worker.DispatchOutputsUnder | src/jobs/worker.py:98-106 | every output file and image path a processor returns lies inside the output directory |
| Worker.JsonOutputsInScratch | src/jobs/worker.py:80-125 | in `json` mode a successful run returns paths inside the scratch directory it has already removed, and no output directory |
| Worker.PlanPdfTexts | src/jobs/worker.py:280-303 | a successful PDF job's texts are the tagged runs of the extraction |
| Worker.PdfOcrReachesResult | src/jobs/worker.py:280-301 | every saved page's non-blank OCR text reaches the result tagged `ocr` with its page number |
| Worker.OcrTextTagged | src/jobs/worker.py:287-293 | tagging the extractor's texts recovers every saved page's OCR text and page number |
| Worker.TaggedOcrLineAt | src/jobs/worker.py:280-301 | an OCR line at any position of the runs is tagged `ocr` with its page and text, at that same position |
| Worker.PageImageReachesResult | src/jobs/worker.py:257-268 | every listed `page_<i>.png` reaches the result as a page image of page `i` |
| Worker.SlideImageReachesResult | src/jobs/worker.py:360-373 | every listed `slide<s>_img<k>.<ext>` reaches the result as a slide image of slide `s` |
| Worker.StatusesForward | src/jobs/worker.py:68-146 | along a run, statuses never move back from `processing` to `pending` or from a terminal status, and exactly one terminal status is written |
| Execution.Apply | src/jobs/queue.py:113-180 | applying a non-empty list of calls fails with 404 exactly when the job is gone; it touches no other job or result, never the index, and keeps a live job alive |
| Execution.ApplyAppend | src/jobs/queue.py:113-180 | applying two lists of calls one after the other is applying their concatenation |
| Execution.ApplyCheckpoints | src/jobs/queue.py:137-146 | after checkpoints only, the job is `processing` with the last checkpoint's progress and message, and no result is stored |
| Execution.ApplyStatus | src/jobs/queue.py:137-155 | one status write updates the job as `update_job_status` does and stores no result |
| Execution.ApplySuccess | src/jobs/worker.py:127-132 | after a successful run the job is `completed` at 100 and its result can be read |
| Execution.CompletedBeforeResult | src/jobs/worker.py:127-132 | between the `completed` write and the result write, the job reads as completed but its result is still not available (404) |
| Execution.ApplyFailure | src/jobs/worker.py:136-146 | after a failed run the job is `failed` with `Processing failed: <message>`, keeps the progress of its last checkpoint, and has no new result |
| Execution.ProcessFile | src/jobs/worker.py:48-146 | a run for a missing job fails with 404; otherwise it makes the planned calls and changes no other job, no other job's result and not the index |
| Execution.ProcessFileFailure | src/jobs/worker.py:136-146 | a failed job reads `failed` with the message and its last progress, and asking for its result gives 400 with that message |
| Execution.FailureNeedsStart | src/jobs/worker.py:70-71 | a failed run that began with its start write has written at least one checkpoint before `failed` |
| Execution.ProcessFileSuccess | src/jobs/worker.py:127-134 | a successful job reads `completed` at 100 and its stored result is the returned one |
| JobStore.NewJob | src/jobs/queue.py:62-75 | a new record is `pending`, created and updated at the same instant, with no progress or message |
| JobStore.CreateJob | src/jobs/queue.py:51-88 | creating a job stores the new record for the retention period and indexes its id at the creation time, leaving results alone |
| JobStore.GetJob | src/jobs/queue.py:91-110 | reading a job gives the stored record exactly while it is alive, and 404 otherwise |
| JobStore.Updated | src/jobs/queue.py:137-146 | an update sets the status and update time, replaces progress and message only when given, and keeps every other field |
| JobStore.UpdateJobStatus | src/jobs/queue.py:113-155 | updating a missing job gives 404; otherwise the record is updated and its expiry refreshed |
| JobStore.StoreJobResult | src/jobs/queue.py:158-180 | storing a result for a missing job gives 404; otherwise only the result map changes |
| JobStore.GetJobResult | src/jobs/queue.py:183-217 | a missing job gives 404; a stored result is returned; with no result, a failed job gives 400 with its message (default `Unknown error`) and any other 404 `not available yet` |
| JobStore.OldIds | src/jobs/queue.py:230-231 | the ids cleaned are exactly the indexed ids with a score from 0 up to now minus the retention period |
| JobStore.CleanOldJobs | src/jobs/queue.py:220-242 | cleaning removes exactly the old ids from all three maps, counts them whether or not their keys had expired, and leaves every other entry unchanged |
| JobStore.CleanIdempotent | src/jobs/queue.py:220-242 | cleaning twice at the same time removes nothing the second time |
| JobStore.CleanKeepsRecentJobs | src/jobs/queue.py:230-240 | a job indexed after the cutoff survives cleaning, with its record and result |
| JobStore.CreateThenGet | src/jobs/queue.py:79-110 | a created job reads back unchanged until its retention period ends, and is not found after that |
| JobStore.StoreThenGetResult | src/jobs/queue.py:176-217 | a stored result reads back unchanged |
| JobStore.StoreResultKeepsJob | src/jobs/queue.py:171-180 | storing a result changes no job record |
| JobStore.StatusCanMoveBackwards | src/jobs/queue.py:137-139 | the store itself lets a completed job be set back to `pending`; only the worker's call sequence keeps statuses moving forward |
| JobsRouter.GetJobResults | api/routers/jobs.py:57-92 | unknown id 404; failed 400 with the message; pending or processing 102 with the progress (default 0); completed returns the stored result, or 404 when it is not stored yet |
| JobsRouter.ResultsAgreeWithStore | api/routers/jobs.py:84-86 | the endpoint returns a result exactly when the job is completed and the store has one, and then it is the store's |
| JobsRouter.StatusHidesStoredResult | api/routers/jobs.py:72-82 | a stored result stays hidden behind 400 or 102 while the job's status is not `completed` |
| JobsRouter.NewJobStillPending | api/routers/jobs.py:78-82 | right after creation the endpoint answers 102 `still pending` at 0% |
| JobsRouter.PendingDetail | api/routers/jobs.py:81 | the 102 detail for a pending job without progress reads `Current progress: 0%` |
| JobsRouter.ResultsAfterSuccess | api/routers/jobs.py:67-86 | after a successful run the endpoint returns exactly the worker's result |
| JobsRouter.ResultsAfterFailure | api/routers/jobs.py:72-77 | after a failed run the endpoint answers 400 with `Processing failed: <message>` |
| JobsRouter.DeleteJob | api/routers/jobs.py:101-125 | deleting reports success and leaves the store untouched |
| JobsRouter.DeletedJobStillReadable | api/routers/jobs.py:111-119 | a deleted job and its result read exactly as before |
| JobsRouter.CleanupJobs | api/routers/jobs.py:134-146 | the cleanup reports the number of old ids and removes exactly them |
| JobsRouter.CleanupTwiceReportsZero | api/routers/jobs.py:141-143 | a second cleanup at the same time reports 0 jobs |
| ProcessRouter.RequestOptions | api/routers/process.py:118-128 | the options are the decoded ones when given, non-empty and valid, and the defaults otherwise |
| ProcessRouter.OutputDirFor | api/routers/process.py:147-150 | an output directory is chosen exactly for the `files` format, and it is `parsed_docs/<job id>` |
| ProcessRouter.Submit | api/routers/process.py:110-170 | an upload is accepted exactly when its endpoint's name check passes and a category is found; a failed name check changes nothing; an unresolved `/process` upload gives 400 and its saved file is removed; an accepted one creates a pending job and schedules a task with the options' format and directory |
| ProcessRouter.Background | api/routers/process.py:70-101 | the background task ends without an error whatever the worker raises; it changes no other job, no other job's result, the index or the uploads, and nothing at all when the job has expired |
| ProcessRouter.TypedCheckIgnoresCase | api/routers/process.py:188-192 | the typed endpoints' name check ignores letter case |
| ProcessRouter.TypedEndpointRecords | api/routers/process.py:206-230 | a typed endpoint accepts any name with one of its endings and records its fixed category |
| ProcessRouter.AutoAgreesWithTyped | api/routers/process.py:130-163 | `/process` records the same category as the typed endpoint for a plain name with one of that endpoint's endings |
| ProcessRouter.RejectedLeavesStore | api/routers/process.py:135-141 | a rejected upload gives 400 and creates no job |
| ProcessRouter.AcceptedIsPending | api/routers/process.py:143-163 | the returned record is the stored pending job, and its result is not ready (102) |
| ProcessRouter.SubmitThenProcess | api/routers/process.py:152-160 | once the task has run within the retention period, the result endpoint gives the worker's result or 400 with its failure |
| ProcessRouter.ExpiredTaskIsDropped | api/routers/process.py:87-101 | a task whose job has expired changes nothing, and the job reads as not found |
| ProcessRouter.FilesFormatGetsOwnDirectory | api/routers/process.py:147-150 | the task runs with the requested format, and has `parsed_docs/<job id>` as its directory exactly in `files` format |
| ProcessRouter.BadOptionsFallBack | api/routers/process.py:119-126 | options that do not decode or validate run as `json` with no output directory |
| FunctionalApi.ProcessFileAuto | functional_api.py:275-323 | an upload whose saved path does not resolve gives 400, its saved file is removed, and the jobs and results are left alone; otherwise a `pending` job at 0% is stored under the fresh id and a task is scheduled with the resolved category |
| FunctionalApi.PlainTexts | functional_api.py:153-158 | every run becomes a fragment with the branch's source and no page, in order |
| FunctionalApi.ImageResult | functional_api.py:106-126 | the image branch fails exactly when OCR fails, and otherwise returns the one `image` text and the text file |
| FunctionalApi.DocumentResult | functional_api.py:128-253 | a document branch succeeds exactly when extraction returns and every table has HTML, returning the runs and tables with the branch's source, no OCR tagging, and the listed images |
| FunctionalApi.Produce | functional_api.py:95-253 | a branch keeps the job id, file name, type and empty metadata of the base result |
| FunctionalApi.Finish | functional_api.py:255-264 | success sets `completed` at 100 and stores the result; failure sets `failed` with the message, keeps the progress, and stores nothing; no other job changes |
| FunctionalApi.Background | functional_api.py:80-264 | a task for an unknown job changes nothing; otherwise only its own job and result change |
| FunctionalApi.BackgroundOutcome | functional_api.py:86-264 | the task ends `completed` at 100 after 20, 40 (or 20 alone for an unknown type) with the result stored, or `failed` at 40 with `Processing failed: ` and nothing stored |
| FunctionalApi.GetJobStatus | functional_api.py:325-331 | the status endpoint returns the stored record, or 404 |
| FunctionalApi.GetJobResult | functional_api.py:333-354 | unknown id 404; failed 400 with the message; other unfinished 102 with progress; completed returns the result, or 404 when it is missing |
| FunctionalApi.AcceptedIsPending | functional_api.py:295-305 | an accepted job reads back as stored, and its result answers 102 at 0% |
| FunctionalApi.BackgroundThenResult | functional_api.py:255-264 | after the task, the result endpoint gives the stored result or 400 with the failure message |
| FunctionalApi.BackgroundProgress | functional_api.py:88-258 | the task's progress values never decrease, and they end at 100 exactly when the job completed |
| FunctionalApi.HiddenPdfUploadAccepted | functional_api.py:283-292 | an upload named `.pdf` is accepted as a PDF job |
| FunctionalApi.OcrRunUntagged | functional_api.py:153-158 | an OCR run keeps its `Page <i> (OCR): ` prefix and source `pdf`, where the worker tags it `ocr` with page `i` |
| FunctionalApi.PdfImagesMatchWorker | functional_api.py:167-189 | the PDF branch lists the same images and output files as the worker does for the same directory |
| RateLimit.ReadConfig | api/middleware/security.py:20-23 | loading the settings succeeds exactly when both numbers parse; the limiter is on exactly when the flag lower-cases to `true`; defaults are `true`, 60 and 100 |
| RateLimit.DefaultConfig | api/middleware/security.py:21-23 | with nothing set the limiter is on at 100 requests per 60 seconds |
| RateLimit.EnabledOnlyByTrue | api/middleware/security.py:21 | `TRUE` enables the limiter and `yes` does not |
| RateLimit.Prune | api/middleware/security.py:85-90 | pruning keeps exactly the buckets later than the window start, with their counts |
| RateLimit.IsRateLimited | api/middleware/security.py:72-99 | an unseen client is never limited and leaves the store alone; a seen client's buckets are pruned, and it is limited exactly when their total reaches the limit |
| RateLimit.Bump | api/middleware/security.py:108-116 | counting a request adds exactly one to the total, creates no bucket other than the current second's, and keeps counts positive |
| RateLimit.UpdateRateLimit | api/middleware/security.py:101-116 | counting a request adds the client if needed, adds one to its total, and leaves every other client unchanged |
| RateLimit.Dispatch | api/middleware/security.py:33-70 | a disabled limiter or an OPTIONS request is neither checked nor counted; otherwise a limited client gets 429 with `Retry-After` set to the window, and any other request is counted after the check |
| RateLimit.SecureHeaders | api/middleware/security.py:64-68 | the four security headers are set to their fixed values under their lower-cased names, no other spelling of those names survives, and every other response header is kept |
| RateLimit.SecureHeadersReplaceAnySpelling | api/middleware/security.py:65 | a response that already carried `X-Frame-Options` in any letter case leaves with only the lower-cased name, set to `DENY` |
| RateLimit.SecureHeadersIdempotent | api/middleware/security.py:64-68 | securing a response's headers twice is securing them once |
| RateLimit.RefusedNotCounted | api/middleware/security.py:51-59 | a refused request leaves only the pruned buckets, with the total still at or above the limit |
| RateLimit.FirstRequestPasses | api/middleware/security.py:85-99 | a client's first request always passes, and when counted it leaves one bucket with count 1 |
| RateLimit.DispatchIsClientStep | api/middleware/security.py:46-59 | with the check and the count at one instant, the middleware acts on the requesting client as one step of its buckets and on no other client |
| RateLimit.StepAccounts | api/middleware/security.py:82-116 | one step keeps the buckets accounting for exactly the passed requests in the window, and a seen client passes exactly when fewer than the limit of passed requests lie in the window |
| RateLimit.PruneAccounts | api/middleware/security.py:85-93 | after pruning, the bucket total is the number of passed requests in the window |
| RateLimit.BumpAccounts | api/middleware/security.py:108-116 | after counting, the buckets account for the passed requests plus the current one |
| RateLimit.Replay | api/middleware/security.py:33-116 | over any time-ordered sequence of requests, every request let through has at most the limit of passed requests in the window ending at it; the first always passes, and every later request passes exactly when fewer than the limit of the earlier passed requests lie in its window; the final buckets account for the passed requests still in the window |
| RateLimit.Admit | api/middleware/security.py:46-59 | one request is admitted as the middleware would: a first request always, a seen client's exactly when fewer than the limit of passed requests lie in its window; the window bound and the accounting both survive it |
| RateLimit.Count | api/middleware/security.py:51-59 | a step's decision and buckets are those of the middleware, they account for the passed requests, and a seen client passes exactly when its window holds fewer than the limit |
| RateLimit.PassedWithinLimit | api/middleware/security.py:93-97 | letting a request through below the limit keeps every window within the limit |
| RateLimit.ExpandPrune | api/middleware/security.py:85-90 | the requests represented by the pruned buckets are exactly those later than the window start |
| RateLimit.ExpandBump | api/middleware/security.py:110-116 | counting a request adds exactly one request at the current second to those the buckets represent |
| RateLimit.AboveAbove | api/middleware/security.py:83-90 | pruning at one window start and then a later one is pruning at the later one |
| Cli.ProcessAuto | main.py:195-238 | the automatic mode runs the parser of the input's category exactly when the file exists, resolves and the parser does not raise; every other outcome is exit status 1 |
| Cli.Main | main.py:241-305 | no subcommand and no input shows the help; an input without a subcommand means `auto`; a missing input logs and returns; a typed subcommand runs its parser, and exits with 1 when the parser raises |
| Cli.AutoRunsResolvedParser | main.py:209-226 | in the automatic mode, a parser runs exactly when the input exists and resolves, and it is that category's parser on the input itself; any exit is status 1 |
| Cli.UnsupportedNeverParsed | main.py:209-214 | an existing file with no supported suffix exits with status 1 before any parser runs |
| Cli.TypedCommandSkipsChecks | main.py:263-277 | a typed subcommand runs its parser on any non-empty file name, with no check of suffix or existence |
| Cli.HiddenPdfCliRejectsApiAccepts | main.py:209-214 | a file named `.pdf` exits with status 1 on the command line, while `/process` accepts the same name as a PDF job |

## Left out

- I/O is out: file writes, directory creation and removal, and upload
  saving. The model records only the path an upload is saved at and
  whether a run removed its scratch directory.
- The libraries are out: `partition_pdf`, `partition_pptx`,
  `convert_from_path`, `pytesseract`, `Presentation`, the LibreOffice
  converter and `extract_image_text` (`src/utils/parse_image.py` is not
  part of this model). Their answers are parameters, each a value or a
  raised exception. The same holds for the listing of an image directory.
- The image OCR answer may be a raised exception. `extract_image_text`
  returns its own errors as text, so in the source that case arises only
  from writing the text file.
- Fresh UUIDs and the clock are parameters. `functional_api.py` stores its
  timestamps as strings of `uuid1().time`; they are modelled as the two
  integers read.
- Redis and Python dictionaries are modelled as maps. Connection failures
  are out, and so is every 500 response they or other unexpected
  exceptions would produce in the routers. `get_job_status` in
  `api/routers/jobs.py` is `JobStore.GetJob` with the same 404.
- Concurrency is out: the executor thread, FastAPI's background tasks, and
  the shared rate-limit store. Every operation runs alone, one after
  another.
- The JSON decoding of the `options` form field and pydantic's validation
  are out. They are given as the field's decoded value, or None when
  decoding or validation raises.
- Execution.Apply applies a whole worker run at one instant `now`. The
  source reads the clock on every `update_job_status` call, so each write
  gets its own `updated_at`. Each job and result write also restarts the
  24-hour expiry from its own instant. Two consequences are not modelled:
  distinct `updated_at` values within one run, and a job that expires
  between two writes of one run, so that a later write gets 404 after
  earlier ones took effect. Execution.ProcessFile inherits this.
- RateLimit.SecureHeaders models response headers as a map from name to
  value. Starlette keeps a list of name/value pairs, so repeated headers
  such as two `set-cookie` entries cannot be expressed; nothing else in
  the model depends on them.
- RateLimit.Dispatch reads the clock twice, once in the check and once in
  the count, as the source does. RateLimit.DispatchIsClientStep and
  RateLimit.Replay assume both readings are the same second.
- RateLimit.Replay is stated only for a window of at least one second and a
  limit of at least one. With a limit of 0, a client's first request still
  passes, so no bound can hold. It also assumes the clock never goes back.
- Paths.Lower lowers only ASCII letters. Python lowers all of Unicode, but
  only two non-ASCII characters lower to text holding an ASCII letter.
  U+0130 gives `i` followed by a combining dot, and that non-ASCII dot
  stays in the text. The Kelvin sign gives `k`. Every comparison the model
  makes after lower-casing is against ASCII text without a `k`: the six
  extensions, `true`, and the four security header names. So each of these
  answers the same with either lower-casing:
  - the extension table;
  - the typed endpoints' name checks;
  - the `RATE_LIMIT_ENABLED` flag in `RateLimit.ReadConfig`;
  - the header-name comparison in `RateLimit.SecureHeaders`.
  One more use answers the same for another reason: the `image.ext.lower()`
  in `ParsePptx.ShapeOutput`. python-pptx takes a picture's extension from
  a fixed table of ASCII extensions.
- Strings.ParseInt accepts ASCII digits only, and ignores Python's
  4300-digit limit on `int()`.
- The command line is reduced to the routing decisions. Out are: argparse
  itself, `--help` text, `--version`, verbose logging and tracebacks, the
  parsers' `--stdout` printing and file output, and `KeyboardInterrupt`
  (exit 130). Whether the chosen parser raises is a parameter.
- `delete_job` is a placeholder that touches nothing, and it is modelled
  as such.
- The UIs, the server bootstraps and the stub API are not part of this
  model.
