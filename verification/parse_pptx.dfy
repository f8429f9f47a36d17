/** The PowerPoint extractor: partition text and tables, then save every
    picture of every slide as `slide<s>_img<k>.<ext>`, convert WMF and EMF
    pictures to PNG, and append the OCR text of each picture.

    The layout library, the presentation reader, the converter and the OCR
    engine are parameters: each picture records its extension, whether
    writing it succeeded, how conversion went and what OCR returned.
 */
module ParsePptx {
  import opened Wrappers
  import opened Strings
  import opened Paths
  import opened Elements

  /** How converting a WMF or EMF picture to PNG went: the converter raised,
      or it finished and the PNG was or was not found afterwards. */
  datatype Conversion = ConversionRaises | Converted(pngExists: bool)

  /** A picture's image: its extension as the reader reports it, whether
      writing its bytes succeeded, how conversion goes, and what OCR returns. */
  datatype Picture = Picture(ext: string, written: bool, conversion: Conversion, ocr: Attempt<seq<string>>)

  /** Reading a shape's `image`: absent, raising, or present. */
  datatype ImageAccess = NoImage | ImageRaises | HasImage(picture: Picture)

  datatype Shape = PictureShape(image: ImageAccess) | OtherShape

  /** What the libraries report for one presentation: its partition and its
      slides, each a list of shapes, or the exception raised instead. */
  datatype Deck = Deck(elements: Attempt<seq<Element>>, slides: Attempt<seq<seq<Shape>>>)

  /** An image file written for shape `shape` (1-based) of slide `slide` (1-based). */
  datatype ImageFile = ImageFile(slide: nat, shape: nat, ext: string)

  /** The file name of a picture's image. */
  function ImageName(s: nat, k: nat, ext: string): string {
    "slide" + NatToString(s) + "_img" + NatToString(k) + "." + ext
  }

  function FileName(f: ImageFile): string {
    ImageName(f.slide, f.shape, f.ext)
  }

  /** Image files written and OCR texts produced. */
  datatype Output = Output(files: seq<ImageFile>, texts: seq<string>)

  /** The texts OCR produced, or none when it raised. */
  function OcrTexts(ocr: Attempt<seq<string>>): seq<string> {
    match ocr
    case Returned(ts) => ts
    case Raised(_) => []
  }

  predicate IsMetafile(ext: string) {
    ext == "wmf" || ext == "emf"
  }

  /** One shape, shape `k` of slide `s`. Only pictures with an image produce
      files; a failure anywhere is swallowed. A WMF or EMF picture is read
      through its PNG conversion, and skipped when that conversion fails. */
  function ShapeOutput(s: nat, k: nat, shape: Shape): (r: Output)
    ensures forall i :: 0 <= i < |r.files| ==>
      r.files[i].slide == s && r.files[i].shape == k && Lower(r.files[i].ext) == r.files[i].ext
    ensures r.files == [] ==> r.texts == []
    ensures !shape.PictureShape? || !shape.image.HasImage? ==> r == Output([], [])
    ensures shape.PictureShape? && shape.image.HasImage? && shape.image.picture.written ==>
      |r.files| > 0 && r.files[0] == ImageFile(s, k, Lower(shape.image.picture.ext))
    ensures shape.PictureShape? && shape.image.HasImage? && shape.image.picture.written ==>
      var p := shape.image.picture;
      (!IsMetafile(Lower(p.ext)) || p.conversion == Converted(true) ==> r.texts == OcrTexts(p.ocr)) &&
      (IsMetafile(Lower(p.ext)) && p.conversion == Converted(true) ==>
         r.files == [ImageFile(s, k, Lower(p.ext)), ImageFile(s, k, "png")]) &&
      (IsMetafile(Lower(p.ext)) && p.conversion != Converted(true) ==> r == Output([ImageFile(s, k, Lower(p.ext))], [])) &&
      (!IsMetafile(Lower(p.ext)) ==> r.files == [ImageFile(s, k, Lower(p.ext))])
    ensures shape.PictureShape? && shape.image.HasImage? && !shape.image.picture.written ==> r == Output([], [])
  {
    match shape
    case OtherShape => Output([], [])
    case PictureShape(img) =>
      match img
      case NoImage => Output([], [])
      case ImageRaises => Output([], [])
      case HasImage(p) =>
        var ext := Lower(p.ext);
        LowerIdempotent(p.ext);
        if !p.written then Output([], [])
        else if IsMetafile(ext) then
          match p.conversion
          case Converted(true) => Output([ImageFile(s, k, ext), ImageFile(s, k, "png")], OcrTexts(p.ocr))
          case _ => Output([ImageFile(s, k, ext)], [])
        else Output([ImageFile(s, k, ext)], OcrTexts(p.ocr))
  }

  /** The shapes of slide `s`, numbered from `k`. */
  function ShapesOutput(s: nat, k: nat, shapes: seq<Shape>): (r: Output)
    ensures forall i :: 0 <= i < |r.files| ==>
      r.files[i].slide == s && k <= r.files[i].shape < k + |shapes| && Lower(r.files[i].ext) == r.files[i].ext
    decreases |shapes|
  {
    if |shapes| == 0 then Output([], [])
    else
      var here := ShapeOutput(s, k, shapes[0]);
      var rest := ShapesOutput(s, k + 1, shapes[1..]);
      Output(here.files + rest.files, here.texts + rest.texts)
  }

  /** The slides numbered from `s`. */
  function SlidesOutput(s: nat, slides: seq<seq<Shape>>): (r: Output)
    ensures forall i :: 0 <= i < |r.files| ==>
      s <= r.files[i].slide < s + |slides| && 1 <= r.files[i].shape && Lower(r.files[i].ext) == r.files[i].ext
    decreases |slides|
  {
    if |slides| == 0 then Output([], [])
    else
      var here := ShapesOutput(s, 1, slides[0]);
      var rest := SlidesOutput(s + 1, slides[1..]);
      Output(here.files + rest.files, here.texts + rest.texts)
  }

  /** The induction step shared by the append lemmas below. */
  lemma ConsAppendStep<T>(whole: seq<T>, part: seq<T>, head: seq<T>, restWhole: seq<T>, restPart: seq<T>, tail: seq<T>)
    requires whole == head + restWhole && part == head + restPart && restWhole == restPart + tail
    ensures whole == part + tail
  {
    assert head + (restPart + tail) == (head + restPart) + tail;
  }

  /** The shapes of a slide are processed in order: a split list of shapes
      gives the outputs of its two parts, one after the other, with the second
      part numbered on from the first. */
  lemma ShapesOutputAppend(s: nat, k: nat, a: seq<Shape>, b: seq<Shape>)
    ensures ShapesOutput(s, k, a + b).files == ShapesOutput(s, k, a).files + ShapesOutput(s, k + |a|, b).files
    ensures ShapesOutput(s, k, a + b).texts == ShapesOutput(s, k, a).texts + ShapesOutput(s, k + |a|, b).texts
  {
    ShapeFilesAppend(s, k, a, b);
    ShapeTextsAppend(s, k, a, b);
  }

  /** One step of the shape loop. */
  lemma ShapesOutputCons(s: nat, k: nat, shapes: seq<Shape>)
    requires |shapes| > 0
    ensures ShapesOutput(s, k, shapes).files == ShapeOutput(s, k, shapes[0]).files + ShapesOutput(s, k + 1, shapes[1..]).files
    ensures ShapesOutput(s, k, shapes).texts == ShapeOutput(s, k, shapes[0]).texts + ShapesOutput(s, k + 1, shapes[1..]).texts
  {
  }

  lemma {:induction false} ShapeFilesAppend(s: nat, k: nat, a: seq<Shape>, b: seq<Shape>)
    ensures ShapesOutput(s, k, a + b).files == ShapesOutput(s, k, a).files + ShapesOutput(s, k + |a|, b).files
    decreases |a|
  {
    if |a| == 0 {
      assert a + b == b;
    } else {
      var ab := a + b;
      assert ab[0] == a[0] && ab[1..] == a[1..] + b;
      ShapesOutputCons(s, k, ab);
      ShapesOutputCons(s, k, a);
      ShapeFilesAppend(s, k + 1, a[1..], b);
      ConsAppendStep(ShapesOutput(s, k, ab).files, ShapesOutput(s, k, a).files, ShapeOutput(s, k, a[0]).files,
                     ShapesOutput(s, k + 1, a[1..] + b).files, ShapesOutput(s, k + 1, a[1..]).files, ShapesOutput(s, k + |a|, b).files);
    }
  }

  lemma {:induction false} ShapeTextsAppend(s: nat, k: nat, a: seq<Shape>, b: seq<Shape>)
    ensures ShapesOutput(s, k, a + b).texts == ShapesOutput(s, k, a).texts + ShapesOutput(s, k + |a|, b).texts
    decreases |a|
  {
    if |a| == 0 {
      assert a + b == b;
    } else {
      var ab := a + b;
      assert ab[0] == a[0] && ab[1..] == a[1..] + b;
      ShapesOutputCons(s, k, ab);
      ShapesOutputCons(s, k, a);
      ShapeTextsAppend(s, k + 1, a[1..], b);
      ConsAppendStep(ShapesOutput(s, k, ab).texts, ShapesOutput(s, k, a).texts, ShapeOutput(s, k, a[0]).texts,
                     ShapesOutput(s, k + 1, a[1..] + b).texts, ShapesOutput(s, k + 1, a[1..]).texts, ShapesOutput(s, k + |a|, b).texts);
    }
  }

  /** A single shape's list gives that shape's output. */
  lemma ShapesOutputSingle(s: nat, k: nat, shape: Shape)
    ensures ShapesOutput(s, k, [shape]) == ShapeOutput(s, k, shape)
  {
    assert [shape][1..] == [];
  }

  /** Slides are processed in order: the output of a split deck is that of
      its first slides followed by that of the rest, numbered on. */
  lemma SlidesOutputAppend(s: nat, a: seq<seq<Shape>>, b: seq<seq<Shape>>)
    ensures SlidesOutput(s, a + b).files == SlidesOutput(s, a).files + SlidesOutput(s + |a|, b).files
    ensures SlidesOutput(s, a + b).texts == SlidesOutput(s, a).texts + SlidesOutput(s + |a|, b).texts
  {
    SlideFilesAppend(s, a, b);
    SlideTextsAppend(s, a, b);
  }

  lemma {:induction false} SlideFilesAppend(s: nat, a: seq<seq<Shape>>, b: seq<seq<Shape>>)
    ensures SlidesOutput(s, a + b).files == SlidesOutput(s, a).files + SlidesOutput(s + |a|, b).files
    decreases |a|
  {
    if |a| == 0 {
      assert a + b == b;
    } else {
      var ab := a + b;
      assert ab[0] == a[0] && ab[1..] == a[1..] + b;
      SlidesOutputCons(s, ab);
      SlidesOutputCons(s, a);
      SlideFilesAppend(s + 1, a[1..], b);
      ConsAppendStep(SlidesOutput(s, ab).files, SlidesOutput(s, a).files, ShapesOutput(s, 1, a[0]).files,
                     SlidesOutput(s + 1, a[1..] + b).files, SlidesOutput(s + 1, a[1..]).files, SlidesOutput(s + |a|, b).files);
    }
  }

  lemma {:induction false} SlideTextsAppend(s: nat, a: seq<seq<Shape>>, b: seq<seq<Shape>>)
    ensures SlidesOutput(s, a + b).texts == SlidesOutput(s, a).texts + SlidesOutput(s + |a|, b).texts
    decreases |a|
  {
    if |a| == 0 {
      assert a + b == b;
    } else {
      var ab := a + b;
      assert ab[0] == a[0] && ab[1..] == a[1..] + b;
      SlidesOutputCons(s, ab);
      SlidesOutputCons(s, a);
      SlideTextsAppend(s + 1, a[1..], b);
      ConsAppendStep(SlidesOutput(s, ab).texts, SlidesOutput(s, a).texts, ShapesOutput(s, 1, a[0]).texts,
                     SlidesOutput(s + 1, a[1..] + b).texts, SlidesOutput(s + 1, a[1..]).texts, SlidesOutput(s + |a|, b).texts);
    }
  }

  /** One step of the slide loop. */
  lemma SlidesOutputCons(s: nat, slides: seq<seq<Shape>>)
    requires |slides| > 0
    ensures SlidesOutput(s, slides).files == ShapesOutput(s, 1, slides[0]).files + SlidesOutput(s + 1, slides[1..]).files
    ensures SlidesOutput(s, slides).texts == ShapesOutput(s, 1, slides[0]).texts + SlidesOutput(s + 1, slides[1..]).texts
  {
  }

  /** A single slide's deck gives that slide's shapes, numbered from 1. */
  lemma SlidesOutputSingle(s: nat, shapes: seq<Shape>)
    ensures SlidesOutput(s, [shapes]) == ShapesOutput(s, 1, shapes)
  {
    assert [shapes][1..] == [];
  }

  /** A readable picture's OCR texts reach the slide texts in place: after
      the texts of every earlier slide and every earlier shape of its own
      slide, and before those of the later ones. */
  lemma PictureTextsInPlace(pre: seq<seq<Shape>>, before: seq<Shape>, p: Picture, after: seq<Shape>,
                            post: seq<seq<Shape>>)
    requires p.written && (!IsMetafile(Lower(p.ext)) || p.conversion == Converted(true))
    ensures SlidesOutput(1, pre + [before + [PictureShape(HasImage(p))] + after] + post).texts ==
      SlidesOutput(1, pre).texts + ShapesOutput(|pre| + 1, 1, before).texts + OcrTexts(p.ocr) +
      ShapesOutput(|pre| + 1, |before| + 2, after).texts + SlidesOutput(|pre| + 2, post).texts
  {
    SlideTextsInPlace(pre, before + [PictureShape(HasImage(p))] + after, post);
    ShapeTextsInPlace(|pre| + 1, before, p, after);
  }

  /** Within a slide, a readable picture's OCR texts come between those of
      the shapes before it and those after it. */
  lemma ShapeTextsInPlace(n: nat, before: seq<Shape>, p: Picture, after: seq<Shape>)
    requires p.written && (!IsMetafile(Lower(p.ext)) || p.conversion == Converted(true))
    ensures ShapesOutput(n, 1, before + [PictureShape(HasImage(p))] + after).texts ==
      ShapesOutput(n, 1, before).texts + OcrTexts(p.ocr) + ShapesOutput(n, |before| + 2, after).texts
  {
    var x := PictureShape(HasImage(p));
    ShapeTextsAppend(n, 1, before + [x], after);
    ShapeTextsAppend(n, 1, before, [x]);
    ShapesOutputSingle(n, |before| + 1, x);
  }

  /** Within a deck, a slide's texts come between those of the slides before
      it and those after it. */
  lemma SlideTextsInPlace(pre: seq<seq<Shape>>, slide: seq<Shape>, post: seq<seq<Shape>>)
    ensures SlidesOutput(1, pre + [slide] + post).texts ==
      SlidesOutput(1, pre).texts + ShapesOutput(|pre| + 1, 1, slide).texts + SlidesOutput(|pre| + 2, post).texts
  {
    SlideTextsAppend(1, pre, [slide] + post);
    assert pre + [slide] + post == pre + ([slide] + post);
    SlidesOutputCons(|pre| + 1, [slide] + post);
    assert ([slide] + post)[0] == slide && ([slide] + post)[1..] == post;
  }

  /** What the extractor returns, plus the image files it wrote. */
  datatype Extraction = Extraction(texts: seq<string>, tables: seq<Option<string>>, files: seq<ImageFile>)

  /** `extract_pptx_text_tables_images`: a partition or presentation failure
      is raised; the picture OCR texts come after all partition texts. */
  function Extract(deck: Deck): (r: Attempt<Extraction>)
    ensures r.Raised? <==> deck.elements.Raised? || deck.slides.Raised?
    ensures deck.elements.Raised? ==> r == Raised(deck.elements.message)
    ensures deck.elements.Returned? && deck.slides.Raised? ==> r == Raised(deck.slides.message)
    ensures r.Returned? ==> r.value.tables == Partition(deck.elements.value).tables
    ensures r.Returned? ==>
      r.value.texts == Partition(deck.elements.value).texts + SlidesOutput(1, deck.slides.value).texts
    ensures r.Returned? ==> forall i :: 0 <= i < |r.value.files| ==>
      1 <= r.value.files[i].slide <= |deck.slides.value| && 1 <= r.value.files[i].shape
  {
    match deck.elements
    case Raised(m) => Raised(m)
    case Returned(els) =>
      match deck.slides
      case Raised(m) => Raised(m)
      case Returned(slides) =>
        var p := Partition(els);
        var o := SlidesOutput(1, slides);
        Returned(Extraction(p.texts + o.texts, p.tables, o.files))
  }

  /** A metafile whose conversion fails keeps its written file but yields no
      OCR text, and the shapes after it are still processed. */
  lemma ConversionFailureSkipsOnlyThatImage(s: nat, k: nat, p: Picture, rest: seq<Shape>)
    requires p.written && IsMetafile(Lower(p.ext)) && p.conversion != Converted(true)
    ensures ShapesOutput(s, k, [PictureShape(HasImage(p))] + rest) ==
      Output([ImageFile(s, k, Lower(p.ext))] + ShapesOutput(s, k + 1, rest).files, ShapesOutput(s, k + 1, rest).texts)
  {
    var shapes := [PictureShape(HasImage(p))] + rest;
    assert shapes[1..] == rest;
  }
}
