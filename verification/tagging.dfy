/** The worker's readers for what the extractors wrote: the OCR prefix of a
    PDF text run, and the page or slide number in an image file name. Each
    has an untagged fallback, and each inverts the matching formatter of
    the extractors.
 */
module Tagging {
  import opened Wrappers
  import opened Strings
  import opened Paths
  import opened Models
  import ParsePdf
  import ParsePptx

  const OcrSep: string := ParsePdf.OcrSeparator

  /** The page number claimed by a run's text before the first separator. */
  function PagePart(t: string): Option<int> {
    ParseInt(RemoveAll(Before(t, OcrSep), "Page "))
  }

  /** A run is read as OCR output when it starts `Page `, contains the
      separator, and the text before the first separator, with every `Page `
      removed, parses as an int. */
  predicate LooksLikeOcr(t: string) {
    StartsWith(t, "Page ") && Contains(t, OcrSep) && PagePart(t).Some?
  }

  /** Tags one PDF text run: OCR runs lose their prefix and carry their page;
      every other run is kept whole as plain text without a page. */
  function TagPdfText(t: string): (r: TextFragment)
    ensures r.source == "ocr" <==> LooksLikeOcr(t)
    ensures !LooksLikeOcr(t) ==> r == TextFragment(t, "text", None)
    ensures LooksLikeOcr(t) ==>
      r.pageNumber == PagePart(t) && t == Before(t, OcrSep) + OcrSep + r.text
  {
    if StartsWith(t, "Page ") && Contains(t, OcrSep) then
      match PagePart(t)
      case Some(n) => TextFragment(After(t, OcrSep), "ocr", Some(n))
      case None => TextFragment(t, "text", None)
    else TextFragment(t, "text", None)
  }

  /** The image reference for a file in a PDF's image directory: only
      `page_*.png` files count; the page number is what is left after removing
      every `page_` and every `.png`, or None when that is not an int. */
  function PdfImageRef(dir: string, f: string): (r: Option<ImageRef>)
    ensures r.Some? <==> StartsWith(f, "page_") && EndsWith(f, ".png")
    ensures r.Some? ==> r.value.path == Join(dir, f) && r.value.source == "page"
    ensures r.Some? ==> r.value.pageNumber == ParseInt(RemoveAll(RemoveAll(f, "page_"), ".png"))
    ensures r.Some? ==> StartsWith(r.value.path, dir)
  {
    if StartsWith(f, "page_") && EndsWith(f, ".png") then
      JoinExtends(dir, f);
      Some(ImageRef(Join(dir, f), "page", ParseInt(RemoveAll(RemoveAll(f, "page_"), ".png"))))
    else None
  }

  /** The image reference for a file in a presentation's image directory:
      only files starting `slide` and containing `_img` count; the slide number
      is the text before the first `_` with every `slide` removed, or None. */
  function PptxImageRef(dir: string, f: string): (r: Option<ImageRef>)
    ensures r.Some? <==> StartsWith(f, "slide") && Contains(f, "_img")
    ensures r.Some? ==> r.value.path == Join(dir, f) && r.value.source == "slide"
    ensures r.Some? ==> r.value.pageNumber == ParseInt(RemoveAll(Before(f, "_"), "slide"))
    ensures r.Some? ==> StartsWith(r.value.path, dir)
  {
    if StartsWith(f, "slide") && Contains(f, "_img") then
      JoinExtends(dir, f);
      Some(ImageRef(Join(dir, f), "slide", ParseInt(RemoveAll(Before(f, "_"), "slide"))))
    else None
  }

  /** The image references of a directory listing, in listing order. */
  function PdfImageRefs(dir: string, listing: seq<string>): (r: seq<ImageRef>)
    ensures |r| <= |listing|
    ensures forall i :: 0 <= i < |r| ==> r[i].source == "page" && StartsWith(r[i].path, dir)
  {
    if |listing| == 0 then []
    else
      match PdfImageRef(dir, listing[0])
      case Some(ref) => [ref] + PdfImageRefs(dir, listing[1..])
      case None => PdfImageRefs(dir, listing[1..])
  }

  function PptxImageRefs(dir: string, listing: seq<string>): (r: seq<ImageRef>)
    ensures |r| <= |listing|
    ensures forall i :: 0 <= i < |r| ==> r[i].source == "slide" && StartsWith(r[i].path, dir)
  {
    if |listing| == 0 then []
    else
      match PptxImageRef(dir, listing[0])
      case Some(ref) => [ref] + PptxImageRefs(dir, listing[1..])
      case None => PptxImageRefs(dir, listing[1..])
  }

  /** Every page image in the listing is reported, and nothing else: each
      reference is that of some listed file. The same holds of slide images. */
  lemma PdfImageRefsExact(dir: string, listing: seq<string>)
    ensures forall i :: 0 <= i < |listing| && PdfImageRef(dir, listing[i]).Some? ==>
      PdfImageRef(dir, listing[i]).value in PdfImageRefs(dir, listing)
    ensures forall x :: x in PdfImageRefs(dir, listing) ==>
      exists i :: 0 <= i < |listing| && PdfImageRef(dir, listing[i]) == Some(x)
  {
    PdfImageRefsComplete(dir, listing);
    PdfImageRefsSound(dir, listing);
  }

  lemma {:induction false} PdfImageRefsComplete(dir: string, listing: seq<string>)
    ensures forall i :: 0 <= i < |listing| && PdfImageRef(dir, listing[i]).Some? ==>
      PdfImageRef(dir, listing[i]).value in PdfImageRefs(dir, listing)
    decreases |listing|
  {
    if |listing| > 0 {
      PdfImageRefsComplete(dir, listing[1..]);
      forall i | 0 <= i < |listing| && PdfImageRef(dir, listing[i]).Some?
        ensures PdfImageRef(dir, listing[i]).value in PdfImageRefs(dir, listing)
      {
        if i > 0 {
          assert listing[1..][i - 1] == listing[i];
        }
      }
    }
  }

  lemma {:induction false} PdfImageRefsSound(dir: string, listing: seq<string>)
    ensures forall x :: x in PdfImageRefs(dir, listing) ==>
      exists i :: 0 <= i < |listing| && PdfImageRef(dir, listing[i]) == Some(x)
    decreases |listing|
  {
    if |listing| > 0 {
      var rest := PdfImageRefs(dir, listing[1..]);
      PdfImageRefsSound(dir, listing[1..]);
      forall x | x in PdfImageRefs(dir, listing)
        ensures exists i :: 0 <= i < |listing| && PdfImageRef(dir, listing[i]) == Some(x)
      {
        if PdfImageRef(dir, listing[0]) == Some(x) {
        } else {
          assert x in rest;
          var j :| 0 <= j < |listing[1..]| && PdfImageRef(dir, listing[1..][j]) == Some(x);
          assert listing[j + 1] == listing[1..][j];
        }
      }
    }
  }

  lemma PptxImageRefsExact(dir: string, listing: seq<string>)
    ensures forall i :: 0 <= i < |listing| && PptxImageRef(dir, listing[i]).Some? ==>
      PptxImageRef(dir, listing[i]).value in PptxImageRefs(dir, listing)
    ensures forall x :: x in PptxImageRefs(dir, listing) ==>
      exists i :: 0 <= i < |listing| && PptxImageRef(dir, listing[i]) == Some(x)
  {
    PptxImageRefsComplete(dir, listing);
    PptxImageRefsSound(dir, listing);
  }

  lemma {:induction false} PptxImageRefsComplete(dir: string, listing: seq<string>)
    ensures forall i :: 0 <= i < |listing| && PptxImageRef(dir, listing[i]).Some? ==>
      PptxImageRef(dir, listing[i]).value in PptxImageRefs(dir, listing)
    decreases |listing|
  {
    if |listing| > 0 {
      PptxImageRefsComplete(dir, listing[1..]);
      forall i | 0 <= i < |listing| && PptxImageRef(dir, listing[i]).Some?
        ensures PptxImageRef(dir, listing[i]).value in PptxImageRefs(dir, listing)
      {
        if i > 0 {
          assert listing[1..][i - 1] == listing[i];
        }
      }
    }
  }

  lemma {:induction false} PptxImageRefsSound(dir: string, listing: seq<string>)
    ensures forall x :: x in PptxImageRefs(dir, listing) ==>
      exists i :: 0 <= i < |listing| && PptxImageRef(dir, listing[i]) == Some(x)
    decreases |listing|
  {
    if |listing| > 0 {
      var rest := PptxImageRefs(dir, listing[1..]);
      PptxImageRefsSound(dir, listing[1..]);
      forall x | x in PptxImageRefs(dir, listing)
        ensures exists i :: 0 <= i < |listing| && PptxImageRef(dir, listing[i]) == Some(x)
      {
        if PptxImageRef(dir, listing[0]) == Some(x) {
        } else {
          assert x in rest;
          var j :| 0 <= j < |listing[1..]| && PptxImageRef(dir, listing[1..][j]) == Some(x);
          assert listing[j + 1] == listing[1..][j];
        }
      }
    }
  }

  /** Removing `p` from a text that does not contain its first character changes nothing. */
  lemma RemoveAllAbsent(a: string, p: string)
    requires |p| > 0
    requires forall i :: 0 <= i < |a| ==> a[i] != p[0]
    ensures RemoveAll(a, p) == a
  {
    RemoveAllSkip(a, "", p);
    assert a + "" == a;
  }

  /** Removing `p` from `p + a` leaves `a` when `a` does not contain `p`'s first character. */
  lemma RemovePrefixOnce(p: string, a: string)
    requires |p| > 0
    requires forall i :: 0 <= i < |a| ==> a[i] != p[0]
    ensures RemoveAll(p + a, p) == a
  {
    RemoveAllLeading(p, a);
    RemoveAllAbsent(a, p);
  }

  /** The separator cannot start inside `Page <d>` when `d` has no space and no `(`. */
  lemma {:induction false} NoSeparatorInPagePrefix(d: string, rest: string)
    requires forall i :: 0 <= i < |d| ==> d[i] != ' ' && d[i] != '('
    ensures forall j :: 0 <= j < |"Page " + d| ==> !OccursAt("Page " + d + OcrSep + rest, OcrSep, j)
  {
    var p := "Page " + d;
    var s := p + OcrSep + rest;
    forall j | 0 <= j < |p| ensures !OccursAt(s, OcrSep, j) {
      if j + |OcrSep| <= |s| {
        if j == 4 {
          assert s[j + 1] != '(';
          assert s[j..j + |OcrSep|][1] != OcrSep[1];
        } else {
          assert s[j] != ' ';
          assert s[j..j + |OcrSep|][0] != OcrSep[0];
        }
      }
    }
  }

  /** OCR lines round-trip: the tagger recovers the page and the exact text
      that was formatted, whatever that text contains. */
  lemma TagOcrLine(i: nat, text: string)
    ensures TagPdfText(ParsePdf.OcrLine(i, text)) == TextFragment(text, "ocr", Some(i))
  {
    var d := NatToString(i);
    TagSignedPage(i, d, text);
  }

  /** The page part is read with Python `int()`, so a signed page number is
      accepted too: `Page -2 (OCR): x` is tagged as OCR text of page -2. */
  lemma TagSignedPage(i: int, d: string, text: string)
    requires d == IntToString(i)
    ensures TagPdfText("Page " + d + OcrSep + text) == TextFragment(text, "ocr", Some(i))
  {
    IntToStringChars(i);
    assert forall k :: 0 <= k < |d| ==> d[k] != ' ' && d[k] != '(' && d[k] != 'P';
    NoSeparatorInPagePrefix(d, text);
    SplitAtFirst("Page " + d, OcrSep, text);
    RemovePrefixOnce("Page ", d);
    ParseIntToString(i);
  }

  /** Page image names round-trip: the page number is recovered. */
  lemma PageImageRoundTrip(dir: string, i: nat)
    ensures PdfImageRef(dir, ParsePdf.PageImageName(i)) ==
      Some(ImageRef(Join(dir, ParsePdf.PageImageName(i)), "page", Some(i)))
  {
    var d := NatToString(i);
    var f := ParsePdf.PageImageName(i);
    assert f == "page_" + (d + ".png");
    assert f[..5] == "page_";
    assert f[|f| - 4..] == ".png";
    StripDigitsAndPng(d);
    ParseNatToString(i);
  }

  /** `page_<d>.png` loses exactly its prefix and extension. */
  lemma StripDigitsAndPng(d: string)
    requires AllDigits(d)
    ensures RemoveAll(RemoveAll("page_" + d + ".png", "page_"), ".png") == d
  {
    assert "page_" + d + ".png" == "page_" + (d + ".png");
    RemoveAllLeading("page_", d + ".png");
    RemoveAllSkip(d, ".png", "page_");
    RemoveAllShort(".png", "page_");
    RemoveAllSkip(d, ".png", ".png");
    RemoveAllLeading(".png", "");
    assert ".png" + "" == ".png";
    assert RemoveAll("", ".png") == "";
    assert d + "" == d;
  }

  /** Every `page_` is removed, not only the leading one, so `page_page_3.png`
      is still read as page 3. */
  lemma DoublePrefixTolerated(dir: string, i: nat)
    ensures PdfImageRef(dir, "page_" + ParsePdf.PageImageName(i)).value.pageNumber == Some(i)
  {
    var d := NatToString(i);
    var f := "page_" + ParsePdf.PageImageName(i);
    assert f == "page_" + ("page_" + d + ".png");
    assert f[..5] == "page_";
    assert f[|f| - 4..] == ".png";
    RemoveAllLeading("page_", "page_" + d + ".png");
    StripDigitsAndPng(d);
    ParseNatToString(i);
  }

  /** Slide image names round-trip: the slide number is recovered whatever
      the shape number and extension. */
  lemma SlideImageRoundTrip(dir: string, s: nat, k: nat, ext: string)
    ensures PptxImageRef(dir, ParsePptx.ImageName(s, k, ext)).Some?
    ensures PptxImageRef(dir, ParsePptx.ImageName(s, k, ext)).value.pageNumber == Some(s)
  {
    var d := NatToString(s);
    var p := "slide" + d;
    var rest := "img" + NatToString(k) + "." + ext;
    var f := ParsePptx.ImageName(s, k, ext);
    assert f == p + "_" + rest;
    assert f[..5] == "slide";
    forall j | 0 <= j < |p| ensures !OccursAt(f, "_", j) {
      assert f[j] == p[j];
    }
    SplitAtFirst(p, "_", rest);
    assert OccursAt(f, "_img", |p|) by {
      assert f[|p|..|p| + 4] == "_img";
    }
    ContainsIffOccurs(f, "_img");
    RemovePrefixOnce("slide", d);
    ParseNatToString(s);
  }
}
