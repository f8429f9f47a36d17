/** The PDF extractor: partition text and tables, then, when an image
    directory is given, save each page as `page_<i>.png` and append the OCR
    text of every page whose text is not blank.

    The layout library, the page rasteriser and the OCR engine are
    parameters: the partition is an element list or an exception, the
    rasterised document is a list of pages or an exception, and each page
    records whether saving it succeeded and what OCR returned.
 */
module ParsePdf {
  import opened Wrappers
  import opened Strings
  import opened Elements

  /** One rasterised page: whether saving its image succeeded, and its OCR text or failure. */
  datatype Page = Page(saved: bool, ocr: Attempt<string>)

  /** What the libraries report for one PDF file. */
  datatype Document = Document(elements: Attempt<seq<Element>>, pages: Attempt<seq<Page>>)

  /** The OCR text kept for one page, with its 1-based page number. */
  datatype PageOcr = PageOcr(page: nat, text: string)

  /** What the extractor returns, plus how many page images it saved
      (`page_1.png` up to `page_<saved>.png`). */
  datatype Extraction = Extraction(texts: seq<string>, tables: seq<Option<string>>, saved: nat)

  const OcrSeparator: string := " (OCR): "

  /** The text run recorded for OCR text `text` of page `i`. */
  function OcrLine(i: nat, text: string): string {
    "Page " + NatToString(i) + OcrSeparator + text
  }

  /** The file name of the image saved for page `i`. */
  function PageImageName(i: nat): string {
    "page_" + NatToString(i) + ".png"
  }

  /** The stripped OCR text a page contributes, if any: none when OCR raised
      or returned only whitespace. */
  function PageText(p: Page): (r: Option<string>)
    ensures r.Some? ==> r.value != "" && Strip(r.value) == r.value
    ensures r.Some? <==> p.ocr.Returned? && Strip(p.ocr.value) != ""
  {
    match p.ocr
    case Raised(_) => None
    case Returned(t) =>
      var s := Strip(t);
      StripIdempotent(t);
      if s == "" then None else Some(s)
  }

  /** The text page number `page` contributes: its stripped OCR text, if any. */
  function Kept(p: Page, page: nat): (r: seq<PageOcr>)
    ensures |r| <= 1 && (r == [] <==> PageText(p).None?)
    ensures r != [] ==> r[0] == PageOcr(page, PageText(p).value)
  {
    match PageText(p)
    case Some(t) => [PageOcr(page, t)]
    case None => []
  }

  /** Saves and reads the pages numbered from `first`. A failed OCR skips only
      its own page; a failed save ends the loop, so later pages are neither
      saved nor read. Returns the number of pages saved and the kept texts. */
  function OcrPages(pages: seq<Page>, first: nat): (r: (nat, seq<PageOcr>))
    ensures r.0 <= |pages|
    ensures forall k :: 0 <= k < r.0 ==> pages[k].saved
    ensures r.0 < |pages| ==> !pages[r.0].saved
    decreases |pages|
  {
    if |pages| == 0 || !pages[0].saved then (0, [])
    else
      var rest := OcrPages(pages[1..], first + 1);
      (rest.0 + 1, Kept(pages[0], first) + rest.1)
  }

  /** Every kept text belongs to a saved page and is that page's stripped OCR text. */
  lemma {:induction false} OcrPagesSound(pages: seq<Page>, first: nat)
    ensures forall o :: o in OcrPages(pages, first).1 ==>
      first <= o.page < first + OcrPages(pages, first).0 && PageText(pages[o.page - first]) == Some(o.text)
    decreases |pages|
  {
    if |pages| > 0 && pages[0].saved {
      var rest := OcrPages(pages[1..], first + 1);
      var here := Kept(pages[0], first);
      assert OcrPages(pages, first) == (rest.0 + 1, here + rest.1);
      OcrPagesSound(pages[1..], first + 1);
      forall o | o in here + rest.1
        ensures first <= o.page < first + rest.0 + 1 && PageText(pages[o.page - first]) == Some(o.text)
      {
        if o in rest.1 {
          assert pages[1..][o.page - (first + 1)] == pages[o.page - first];
        }
      }
    }
  }

  /** Every saved page with non-blank OCR text has its text kept. */
  lemma {:induction false} OcrPagesComplete(pages: seq<Page>, first: nat, k: nat)
    requires k < OcrPages(pages, first).0 && PageText(pages[k]).Some?
    ensures PageOcr(first + k, PageText(pages[k]).value) in OcrPages(pages, first).1
    decreases |pages|, 1
  {
    var rest := OcrPages(pages[1..], first + 1);
    var here := Kept(pages[0], first);
    assert OcrPages(pages, first) == (rest.0 + 1, here + rest.1);
    if k > 0 {
      OcrPagesCompleteRest(pages, first, k);
    } else {
      assert here == [PageOcr(first, PageText(pages[0]).value)];
    }
  }

  /** A later page's text is kept by the recursive call for the remaining pages. */
  lemma {:induction false} OcrPagesCompleteRest(pages: seq<Page>, first: nat, k: nat)
    requires 0 < k < OcrPages(pages, first).0 && PageText(pages[k]).Some?
    ensures PageOcr(first + k, PageText(pages[k]).value) in OcrPages(pages[1..], first + 1).1
    decreases |pages|, 0
  {
    assert OcrPages(pages, first).0 == OcrPages(pages[1..], first + 1).0 + 1;
    assert pages[1..][k - 1] == pages[k];
    OcrPagesComplete(pages[1..], first + 1, k - 1);
    assert (first + 1) + (k - 1) == first + k;
  }

  /** The kept texts are in increasing page order, at most one per page. */
  lemma OcrPagesOrdered(pages: seq<Page>, first: nat)
    ensures forall a :: 0 <= a < |OcrPages(pages, first).1| ==> first <= OcrPages(pages, first).1[a].page
    ensures forall a, b :: 0 <= a < b < |OcrPages(pages, first).1| ==>
      OcrPages(pages, first).1[a].page < OcrPages(pages, first).1[b].page
  {
    OcrPagesFrom(pages, first);
    OcrPagesIncreasing(pages, first);
  }

  lemma {:induction false} OcrPagesFrom(pages: seq<Page>, first: nat)
    ensures forall a :: 0 <= a < |OcrPages(pages, first).1| ==> first <= OcrPages(pages, first).1[a].page
    decreases |pages|
  {
    if |pages| > 0 && pages[0].saved {
      var rest := OcrPages(pages[1..], first + 1).1;
      var here := Kept(pages[0], first);
      var all := here + rest;
      assert OcrPages(pages, first).1 == all;
      OcrPagesFrom(pages[1..], first + 1);
      forall a | 0 <= a < |all| ensures first <= all[a].page {
        if a >= |here| {
          assert all[a] == rest[a - |here|];
        }
      }
    }
  }

  lemma {:induction false} OcrPagesIncreasing(pages: seq<Page>, first: nat)
    ensures forall a, b :: 0 <= a < b < |OcrPages(pages, first).1| ==>
      OcrPages(pages, first).1[a].page < OcrPages(pages, first).1[b].page
    decreases |pages|
  {
    if |pages| > 0 && pages[0].saved {
      var rest := OcrPages(pages[1..], first + 1).1;
      var here := Kept(pages[0], first);
      var all := here + rest;
      assert OcrPages(pages, first).1 == all;
      OcrPagesFrom(pages[1..], first + 1);
      OcrPagesIncreasing(pages[1..], first + 1);
      forall a, b | 0 <= a < b < |all| ensures all[a].page < all[b].page {
        assert all[b] == rest[b - |here|];
        if a >= |here| {
          assert all[a] == rest[a - |here|];
        }
      }
    }
  }

  /** The text runs for the kept OCR texts, in page order. */
  function OcrLines(ocrs: seq<PageOcr>): (r: seq<string>)
    ensures |r| == |ocrs|
    ensures forall k :: 0 <= k < |ocrs| ==> r[k] == OcrLine(ocrs[k].page, ocrs[k].text)
  {
    seq(|ocrs|, k requires 0 <= k < |ocrs| => OcrLine(ocrs[k].page, ocrs[k].text))
  }

  /** `extract_pdf_text_tables_images`: a partition failure is raised; a
      rasterisation failure, or no image directory, only leaves out the OCR
      texts. */
  function Extract(doc: Document, imagesDir: Option<string>): (r: Attempt<Extraction>)
    ensures r.Raised? <==> doc.elements.Raised?
    ensures r.Raised? ==> r.message == doc.elements.message
    ensures r.Returned? ==> r.value.tables == Partition(doc.elements.value).tables
    ensures r.Returned? && (imagesDir.None? || doc.pages.Raised?) ==>
      r.value.texts == Partition(doc.elements.value).texts && r.value.saved == 0
    ensures r.Returned? && imagesDir.Some? && doc.pages.Returned? ==>
      r.value.saved == OcrPages(doc.pages.value, 1).0 &&
      r.value.texts == Partition(doc.elements.value).texts + OcrLines(OcrPages(doc.pages.value, 1).1)
  {
    match doc.elements
    case Raised(m) => Raised(m)
    case Returned(els) =>
      var p := Partition(els);
      if imagesDir.None? || doc.pages.Raised? then Returned(Extraction(p.texts, p.tables, 0))
      else
        var o := OcrPages(doc.pages.value, 1);
        Returned(Extraction(p.texts + OcrLines(o.1), p.tables, o.0))
  }

  /** Every saved page's non-blank OCR text appears as `Page <i> (OCR): <text>`
      with the text stripped. */
  lemma OcrTextOfSavedPage(doc: Document, dir: string, k: nat)
    requires doc.elements.Returned? && doc.pages.Returned?
    requires k < OcrPages(doc.pages.value, 1).0 && PageText(doc.pages.value[k]).Some?
    ensures OcrLine(k + 1, Strip(doc.pages.value[k].ocr.value)) in Extract(doc, Some(dir)).value.texts
  {
    var o := OcrPages(doc.pages.value, 1);
    var t := PageText(doc.pages.value[k]).value;
    assert t == Strip(doc.pages.value[k].ocr.value);
    OcrPagesComplete(doc.pages.value, 1, k);
    OcrLineListed(o.1, PageOcr(1 + k, t));
    assert Extract(doc, Some(dir)).value.texts == Partition(doc.elements.value).texts + OcrLines(o.1);
  }

  /** Page `k` (counted from 0) of a document whose partition returned was
      saved before the OCR loop stopped, and OCR gave it the non-blank text
      `t`, stripped. */
  predicate SavedOcrPage(doc: Document, k: nat, t: string) {
    doc.elements.Returned? && doc.pages.Returned? &&
    k < OcrPages(doc.pages.value, 1).0 && PageText(doc.pages.value[k]) == Some(t)
  }

  /** Where a saved page's OCR line sits among the extracted texts. */
  lemma OcrLineIndex(doc: Document, dir: string, k: nat, t: string) returns (j: nat)
    requires SavedOcrPage(doc, k, t)
    ensures j < |Extract(doc, Some(dir)).value.texts|
    ensures Extract(doc, Some(dir)).value.texts[j] == OcrLine(k + 1, t)
  {
    OcrTextOfSavedPage(doc, dir, k);
    var texts := Extract(doc, Some(dir)).value.texts;
    j :| 0 <= j < |texts| && texts[j] == OcrLine(k + 1, t);
  }

  lemma OcrLineListed(ocrs: seq<PageOcr>, x: PageOcr)
    requires x in ocrs
    ensures OcrLine(x.page, x.text) in OcrLines(ocrs)
  {
    var j :| 0 <= j < |ocrs| && ocrs[j] == x;
    assert OcrLines(ocrs)[j] == OcrLine(x.page, x.text);
  }
}
