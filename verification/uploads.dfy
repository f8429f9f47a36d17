/** Where an upload is saved: `<hex>_<filename>` in the upload directory,
    with `hex` a fresh UUID in hexadecimal. The category of an upload is
    resolved from that saved path, not from the name the client sent.
 */
module Uploads {
  import opened Wrappers
  import opened Strings
  import opened Paths
  import opened FileType

  /** `uuid4().hex`: 32 lower-case hexadecimal digits. */
  predicate IsHex(hex: string) {
    |hex| == 32 && forall i :: 0 <= i < |hex| ==> hex[i] in "0123456789abcdef"
  }

  /** The name the upload is saved under. */
  function SavedName(hex: string, fileName: string): string {
    hex + "_" + fileName
  }

  /** The path the upload is saved at: inside the upload directory, ending
      with the saved name. */
  function SavedPath(uploadDir: string, hex: string, fileName: string): (r: string)
    ensures IsHex(hex) ==> StartsWith(r, uploadDir) && EndsWith(r, SavedName(hex, fileName))
  {
    if IsHex(hex) then
      assert SavedName(hex, fileName)[0] == hex[0];
      JoinExtends(uploadDir, SavedName(hex, fileName));
      Join(uploadDir, SavedName(hex, fileName))
    else Join(uploadDir, SavedName(hex, fileName))
  }

  /** The last component of the saved path is the saved name. */
  lemma SavedPathName(uploadDir: string, hex: string, fileName: string)
    requires IsHex(hex) && PlainName(fileName)
    ensures Name(SavedPath(uploadDir, hex, fileName)) == SavedName(hex, fileName)
  {
    SavedNameIsPlain(hex, fileName);
    NameOfJoin(uploadDir, SavedName(hex, fileName));
  }

  lemma SavedNameIsPlain(hex: string, fileName: string)
    requires IsHex(hex) && PlainName(fileName)
    ensures PlainName(SavedName(hex, fileName))
  {
    var n := SavedName(hex, fileName);
    forall i | 0 <= i < |n| ensures n[i] != '/' {
      if i < |hex| {
        assert n[i] == hex[i];
      } else if i > |hex| {
        assert n[i] == fileName[i - |hex| - 1];
      }
    }
  }

  /** A plain name is its own last component. */
  lemma NameOfPlainName(n: string)
    requires PlainName(n)
    ensures Name(n) == n
  {
  }

  /** For an upload named `stem + ext`, where `ext` is a dot followed by
      dot-free text, the saved path resolves through `ext`, even when `stem`
      is empty. */
  lemma {:induction false} SavedPathType(uploadDir: string, hex: string, stem: string, ext: string)
    requires IsHex(hex) && PlainName(stem + ext)
    requires |ext| >= 2 && ext[0] == '.' && forall j :: 1 <= j < |ext| ==> ext[j] != '.'
    ensures GetFileType(SavedPath(uploadDir, hex, stem + ext)) == Lookup(Lower(ext))
  {
    var n := SavedName(hex, stem + ext);
    SavedNameIsPlain(hex, stem + ext);
    assert n == (hex + "_" + stem) + ext;
    ResolveByExtension(hex + "_" + stem, ext);
    NameOfPlainName(n);
    SavedPathName(uploadDir, hex, stem + ext);
    ResolveDependsOnlyOnLastSuffix(SavedPath(uploadDir, hex, stem + ext), n);
  }

  /** An upload with a proper suffix resolves to the same category as its own name. */
  lemma SavedPathKeepsType(uploadDir: string, hex: string, stem: string, ext: string)
    requires IsHex(hex) && PlainName(stem + ext) && |stem| > 0
    requires |ext| >= 2 && ext[0] == '.' && forall j :: 1 <= j < |ext| ==> ext[j] != '.'
    ensures GetFileType(SavedPath(uploadDir, hex, stem + ext)) == GetFileType(stem + ext)
  {
    SavedPathType(uploadDir, hex, stem, ext);
    ResolveByExtension(stem, ext);
  }

  /** An upload named only by an extension, such as `.pdf`, has no suffix of
      its own, yet its saved path resolves through that extension. */
  lemma HiddenUploadResolves(uploadDir: string, hex: string, ext: string)
    requires IsHex(hex) && PlainName(ext)
    requires |ext| >= 2 && ext[0] == '.' && forall j :: 1 <= j < |ext| ==> ext[j] != '.'
    ensures GetFileType(ext) == None
    ensures GetFileType(SavedPath(uploadDir, hex, ext)) == Lookup(Lower(ext))
  {
    HiddenNameUnsupported(ext);
    var e := "" + ext;
    assert e == ext;
    SavedPathType(uploadDir, hex, "", ext);
  }

  lemma HiddenNameUnsupported(n: string)
    requires PlainName(n) && n[0] == '.'
    requires forall j :: 1 <= j < |n| ==> n[j] != '.'
    ensures GetFileType(n) == None
  {
    HiddenNameHasNoSuffix(n);
    assert Lower("") == "";
  }

  /** So `.pdf` is accepted as a PDF upload. */
  lemma HiddenPdfAccepted(uploadDir: string, hex: string)
    requires IsHex(hex)
    ensures GetFileType(".pdf") == None
    ensures GetFileType(SavedPath(uploadDir, hex, ".pdf")) == Some(Pdf)
  {
    var ext := ".pdf";
    assert PlainName(ext);
    assert forall j :: 1 <= j < |ext| ==> ext[j] != '.';
    HiddenUploadResolves(uploadDir, hex, ext);
    LookupPdf();
  }
}
