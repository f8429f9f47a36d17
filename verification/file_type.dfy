/** The file-type resolver: a fixed, case-insensitive table from a file's last
    suffix to one of three processing categories.
 */
module FileType {
  import opened Wrappers
  import opened Strings
  import opened Paths

  /** The three processing categories. */
  datatype Category = Image | Pdf | Pptx {

    /** The category's name as stored in a job's `file_type`. */
    function Name(): string {
      match this
      case Image => "image"
      case Pdf => "pdf"
      case Pptx => "pptx"
    }
  }

  /** The category with the given stored name, if any. */
  function CategoryFromName(s: string): (r: Option<Category>)
    ensures r.Some? ==> r.value.Name() == s
    ensures forall c: Category :: c.Name() == s ==> r == Some(c)
  {
    if s == "image" then Some(Image) else if s == "pdf" then Some(Pdf) else if s == "pptx" then Some(Pptx) else None
  }

  /** The six-entry extension table, keyed by lower-case suffix. */
  function Lookup(ext: string): Option<Category> {
    if ext == ".pptx" || ext == ".ppt" then Some(Pptx)
    else if ext == ".png" || ext == ".jpeg" || ext == ".jpg" then Some(Image)
    else if ext == ".pdf" then Some(Pdf)
    else None
  }

  /** The lower-case extensions that select a category. */
  function Extensions(c: Category): set<string> {
    match c
    case Pptx => {".pptx", ".ppt"}
    case Image => {".png", ".jpeg", ".jpg"}
    case Pdf => {".pdf"}
  }

  /** The category of a file, from its last suffix lower-cased; None when unsupported. */
  function GetFileType(path: string): (r: Option<Category>)
    ensures r.Some? <==> Lower(Suffix(path)) in Extensions(Pptx) + Extensions(Image) + Extensions(Pdf)
    ensures forall c: Category :: r == Some(c) <==> Lower(Suffix(path)) in Extensions(c)
  {
    Lookup(Lower(Suffix(path)))
  }

  /** Only the final suffix is consulted, and its letter case does not matter. */
  lemma {:induction false} ResolveDependsOnlyOnLastSuffix(p: string, q: string)
    requires Lower(Suffix(p)) == Lower(Suffix(q))
    ensures GetFileType(p) == GetFileType(q)
  {
  }

  /** A resolved category always comes from a dotted ending of the file's own name. */
  lemma ResolvedNameEnding(path: string)
    requires GetFileType(path).Some?
    ensures EndsWith(Lower(Name(path)), Lower(Suffix(path)))
    ensures |Suffix(path)| < |Name(path)|
  {
    LowerSuffix(Name(path), Suffix(path));
    var n := Name(path);
    var i := LastIndexOf(n, '.');
  }

  /** For a plain file name `stem + ext`, where `ext` is a dot followed by
      dot-free text, the category is the table entry for `ext` lower-cased. */
  lemma ResolveByExtension(stem: string, ext: string)
    requires PlainName(stem + ext) && |stem| > 0
    requires |ext| >= 2 && ext[0] == '.' && forall j :: 1 <= j < |ext| ==> ext[j] != '.'
    ensures GetFileType(stem + ext) == Lookup(Lower(ext))
  {
    var n := stem + ext;
    SuffixOfPlainName(n, |stem|);
    assert n[|stem|..] == ext;
  }

  lemma SuffixOfMixedCase()
    ensures Suffix("report.PDF") == ".PDF"
  {
    SuffixOfPlainName("report.PDF", 6);
    assert "report.PDF"[6..] == ".PDF";
  }

  /** `report.PDF` resolves to pdf: the suffix is lower-cased first. */
  lemma ResolveMixedCase()
    ensures GetFileType("report.PDF") == Some(Pdf)
  {
    SuffixOfMixedCase();
    LowerOfUpperPdf();
  }

  lemma LowerOfUpperPdf()
    ensures Lower(".PDF") == ".pdf"
  {
  }

  lemma SuffixOfDoubleExtension()
    ensures Suffix("report.pdf.txt") == ".txt"
  {
    SuffixOfPlainName("report.pdf.txt", 10);
    assert "report.pdf.txt"[10..] == ".txt";
  }

  /** Only the last suffix counts: `report.pdf.txt` is unsupported. */
  lemma ResolveLastSuffixOnly()
    ensures GetFileType("report.pdf.txt") == None
  {
    SuffixOfDoubleExtension();
    LowerOfTxt();
  }

  lemma LowerOfTxt()
    ensures Lower(".txt") == ".txt"
  {
    var l := Lower(".txt");
    assert l[0] == '.' && l[1] == 't' && l[2] == 'x' && l[3] == 't';
  }

  /** `.pdf` is already lower case, and the table maps it to pdf. */
  lemma LookupPdf()
    ensures Lookup(Lower(".pdf")) == Some(Pdf)
  {
    var l := Lower(".pdf");
    assert l[0] == '.' && l[1] == 'p' && l[2] == 'd' && l[3] == 'f';
  }

  /** A file whose name is only an extension has no suffix, so it is unsupported. */
  lemma HiddenFileUnsupported()
    ensures GetFileType("uploads/.pdf") == None
  {
    LastIndexOfIs("uploads/.pdf", '/', 7);
    assert "uploads/.pdf"[8..] == ".pdf";
    assert Name("uploads/.pdf") == ".pdf";
    HiddenNameHasNoSuffix(".pdf");
  }
}
