/** The command-line entry point: with a subcommand (`auto`, `pptx`,
    `image`, `pdf`) or with only `-i`, it picks one parser and runs it on the
    input file, or ends with exit status 1.

    Which paths exist, and whether the chosen parser raises, are parameters;
    the parsers themselves are the document extractors of the other modules.
 */
module Cli {
  import opened Wrappers
  import opened Paths
  import opened FileType
  import Uploads
  import ProcessRouter

  /** The subcommands. */
  datatype Command = AutoCmd | PptxCmd | ImageCmd | PdfCmd

  /** The parsed command line: the subcommand, if any; `input_file` (set by
      the top-level `-i` or by `auto -i`); and the `-i` of a typed
      subcommand, which argparse requires but may be empty. */
  datatype Args = Args(command: Option<Command>, inputFile: Option<string>, typedFile: string)

  /** How a run ends: the help text; a logged error and a normal return
      (status 0); `sys.exit(code)`; or one parser run to completion on a file
      (status 0). */
  datatype Outcome = Help | NoInput | Exit(code: int) | Ran(parser: Category, file: string)

  /** The parser a typed subcommand runs. */
  function CommandParser(c: Command): Category
    requires !c.AutoCmd?
  {
    match c
    case PptxCmd => Pptx
    case ImageCmd => Image
    case PdfCmd => Pdf
  }

  /** `process_auto` for a non-empty input: the file must exist and resolve
      to a category; its parser then runs, and an exception it raises ends the
      run with status 1. */
  function ProcessAuto(input: string, existing: set<string>, raises: bool): (r: Outcome)
    ensures r.Ran? <==> input in existing && GetFileType(input).Some? && !raises
    ensures r.Ran? ==> r == Ran(GetFileType(input).value, input)
    ensures !r.Ran? ==> r == Exit(1)
  {
    if input !in existing then Exit(1)
    else
      match GetFileType(input)
      case None => Exit(1)
      case Some(c) => if raises then Exit(1) else Ran(c, input)
  }

  /** `main`: no subcommand with an input means `auto`; no subcommand and no
      input prints the help. A typed subcommand runs its parser on its file
      with no check of the file's type or existence; an exception there is
      caught by `main` and also ends with status 1. */
  function Main(args: Args, existing: set<string>, raises: bool): (r: Outcome)
    ensures args.command.None? && (args.inputFile.None? || args.inputFile.value == "") ==> r == Help
    ensures args.command.None? && args.inputFile.Some? && args.inputFile.value != "" ==>
      r == ProcessAuto(args.inputFile.value, existing, raises)
    ensures args.command == Some(AutoCmd) && (args.inputFile.None? || args.inputFile.value == "") ==> r == NoInput
    ensures args.command == Some(AutoCmd) && args.inputFile.Some? && args.inputFile.value != "" ==>
      r == ProcessAuto(args.inputFile.value, existing, raises)
    ensures args.command.Some? && !args.command.value.AutoCmd? ==>
      r == (if args.typedFile == "" then NoInput
            else if raises then Exit(1)
            else Ran(CommandParser(args.command.value), args.typedFile))
  {
    var command := if args.command.None? && args.inputFile.Some? && args.inputFile.value != "" then Some(AutoCmd)
                   else args.command;
    if command.None? then Help
    else if command.value.AutoCmd? then
      if args.inputFile.None? || args.inputFile.value == "" then NoInput
      else ProcessAuto(args.inputFile.value, existing, raises)
    else if args.typedFile == "" then NoInput
    else if raises then Exit(1)
    else Ran(CommandParser(command.value), args.typedFile)
  }

  // ---------------------------------------------------------------------------
  // Properties

  /** A run either shows the help, returns, runs exactly one parser, or exits
      with status 1; a run of the automatic mode runs the parser of the
      input's category on the input itself. */
  lemma AutoRunsResolvedParser(args: Args, existing: set<string>, raises: bool)
    requires args.command.None? || args.command == Some(AutoCmd)
    ensures var r := Main(args, existing, raises);
      r.Exit? ==> r.code == 1
    ensures var r := Main(args, existing, raises);
      r.Ran? ==> args.inputFile == Some(r.file) && GetFileType(r.file) == Some(r.parser)
    ensures var r := Main(args, existing, raises);
      r.Ran? <==> (args.inputFile.Some? && args.inputFile.value in existing &&
                   GetFileType(args.inputFile.value).Some? && !raises)
  {
    if args.inputFile.Some? && args.inputFile.value != "" {
      assert Main(args, existing, raises) == ProcessAuto(args.inputFile.value, existing, raises);
    } else if args.inputFile.Some? {
      assert Paths.Suffix("") == "";
      assert Lower("") == "";
    }
  }

  /** A file that exists but has no supported suffix never reaches a parser
      in the automatic mode, whatever the parser would do. */
  lemma UnsupportedNeverParsed(input: string, existing: set<string>, raises: bool)
    requires input != "" && input in existing && GetFileType(input).None?
    ensures Main(Args(None, Some(input), ""), existing, raises) == Exit(1)
    ensures Main(Args(Some(AutoCmd), Some(input), ""), existing, raises) == Exit(1)
  {
  }

  /** A typed subcommand runs its parser on any non-empty file name, with no
      check of its suffix or existence. */
  lemma TypedCommandSkipsChecks(c: Command, file: string, existing: set<string>)
    requires !c.AutoCmd? && file != ""
    ensures Main(Args(Some(c), None, file), existing, false) == Ran(CommandParser(c), file)
  {
  }

  /** The two entry points disagree on a file named only `.pdf`: the command
      line exits with status 1 before any parser runs, while the `/process`
      endpoint resolves the saved upload and records a PDF job. */
  lemma HiddenPdfCliRejectsApiAccepts(sv: ProcessRouter.Server, options: ProcessRouter.OptionsField, uploadDir: string,
                                      hex: string, jobId: string, now: int, raises: bool)
    requires Uploads.IsHex(hex)
    ensures Main(Args(None, Some(".pdf"), ""), {".pdf"}, raises) == Exit(1)
    ensures var r := ProcessRouter.Submit(sv, ProcessRouter.Auto, ".pdf", options, uploadDir, hex, jobId, now);
      r.0.Ok? && r.0.value.job.fileType == "pdf"
  {
    Uploads.HiddenPdfAccepted(uploadDir, hex);
  }
}
