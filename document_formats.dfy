/** What the document libraries (PyMuPDF, python-docx, python-pptx, the
    markdown package, Whisper) hand the two extraction dispatchers, and the
    string-accumulating loops both dispatchers run over PDF pages and
    PowerPoint shapes (backend/store_data.py and backend/extract_text.py). */
module DocumentFormats {
  import opened Wrappers

  /** A slide shape; `text` is None for a shape without a text attribute. */
  datatype Shape = Shape(text: Option<string>)

  /** The shapes of one slide, in order. */
  type Slide = seq<Shape>

  /** What the libraries report for one uploaded file. A None field means
      that reading the file that way raises. */
  datatype FileView = FileView(
    lenientText: Option<string>,        // open(..., encoding="utf-8", errors="ignore").read()
    strictText: Option<string>,         // open(..., encoding="utf-8").read()
    pdfPages: Option<seq<string>>,      // page.get_text() of each page of fitz.open(...)
    docxParagraphs: Option<seq<string>>, // para.text of each paragraph of docx.Document(...)
    pptxSlides: Option<seq<Slide>>,     // the slides of Presentation(...)
    markdownHtml: Option<string>,       // markdown.markdown of the strict read
    audioTranscript: Option<string>,    // extract_from_audio: None is the None it returns
    videoTranscript: Option<string>)    // extract_from_video: None is the None it returns

  /** "".join(parts): the parts one after the other. */
  function Concat(parts: seq<string>): (s: string)
    ensures parts == [] ==> s == ""
  {
    if parts == [] then "" else Concat(parts[..|parts| - 1]) + parts[|parts| - 1]
  }

  /** Concatenating two runs of parts is concatenating their results. */
  lemma {:induction false} ConcatAppend(a: seq<string>, b: seq<string>)
    ensures Concat(a + b) == Concat(a) + Concat(b)
    decreases |b|
  {
    if b == [] {
      assert a + b == a;
    } else {
      assert (a + b)[..|a + b| - 1] == a + b[..|b| - 1];
      ConcatAppend(a, b[..|b| - 1]);
    }
  }

  /** Every part occurs in the concatenation, at the offset of the parts
      before it. */
  lemma {:induction false} ConcatHoldsParts(parts: seq<string>, i: nat)
    requires i < |parts|
    ensures var before := |Concat(parts[..i])|;
      before + |parts[i]| <= |Concat(parts)| && Concat(parts)[before..before + |parts[i]|] == parts[i]
  {
    assert parts == parts[..i] + ([parts[i]] + parts[i + 1..]);
    ConcatAppend(parts[..i], [parts[i]] + parts[i + 1..]);
    ConcatAppend([parts[i]], parts[i + 1..]);
    assert [parts[i]][..0] == [];
    assert Concat([parts[i]]) == parts[i];
  }

  /** `for page in doc: text += page.get_text()` */
  method ConcatPages(pages: seq<string>) returns (text: string)
    ensures text == Concat(pages)
  {
    text := "";
    var i := 0;
    while i < |pages|
      invariant i <= |pages|
      invariant text == Concat(pages[..i])
    {
      assert pages[..i + 1][..i] == pages[..i];
      text := text + pages[i];
      i := i + 1;
    }
    assert pages[..i] == pages;
  }

  /** The text + "\n" of each shape of one slide that has text, in order. */
  function SlideLines(slide: Slide): seq<string> {
    if slide == [] then []
    else
      SlideLines(slide[..|slide| - 1])
      + (match slide[|slide| - 1].text
         case Some(t) => [t + "\n"]
         case None => [])
  }

  /** The text + "\n" of every shape with text, slide by slide. */
  function ShapeLines(slides: seq<Slide>): seq<string> {
    if slides == [] then [] else ShapeLines(slides[..|slides| - 1]) + SlideLines(slides[|slides| - 1])
  }

  /** A line of a slide is exactly the text of one of its text shapes
      followed by a newline. */
  lemma {:induction false} SlideLinesMembers(slide: Slide, line: string)
    ensures line in SlideLines(slide) <==> exists j :: 0 <= j < |slide| && slide[j].text.Some? && line == slide[j].text.value + "\n"
    decreases |slide|
  {
    if slide != [] {
      var init := slide[..|slide| - 1];
      SlideLinesMembers(init, line);
      if exists j :: 0 <= j < |init| && init[j].text.Some? && line == init[j].text.value + "\n" {
        var j :| 0 <= j < |init| && init[j].text.Some? && line == init[j].text.value + "\n";
        assert slide[j] == init[j];
      }
      if exists j :: 0 <= j < |slide| && slide[j].text.Some? && line == slide[j].text.value + "\n" {
        var j :| 0 <= j < |slide| && slide[j].text.Some? && line == slide[j].text.value + "\n";
        if j < |init| {
          assert init[j] == slide[j];
        }
      }
    }
  }

  /** Shape lines come from text shapes only, and every text shape gives one. */
  lemma {:induction false} ShapeLinesMembers(slides: seq<Slide>, line: string)
    ensures line in ShapeLines(slides) <==>
      exists i, j :: 0 <= i < |slides| && 0 <= j < |slides[i]| && slides[i][j].text.Some? && line == slides[i][j].text.value + "\n"
    decreases |slides|
  {
    if slides != [] {
      var init := slides[..|slides| - 1];
      var last := slides[|slides| - 1];
      assert ShapeLines(slides) == ShapeLines(init) + SlideLines(last);
      ShapeLinesMembers(init, line);
      SlideLinesMembers(last, line);
      if line in ShapeLines(init) {
        var i, j :| 0 <= i < |init| && 0 <= j < |init[i]| && init[i][j].text.Some? && line == init[i][j].text.value + "\n";
        assert slides[i] == init[i];
      } else if line in SlideLines(last) {
        var j :| 0 <= j < |last| && last[j].text.Some? && line == last[j].text.value + "\n";
        assert slides[|slides| - 1] == last;
      } else {
        forall i, j | 0 <= i < |slides| && 0 <= j < |slides[i]| && slides[i][j].text.Some?
          ensures line != slides[i][j].text.value + "\n"
        {
          if i < |init| {
            assert init[i] == slides[i];
          }
        }
      }
    }
  }

  /** The nested loop over slides and shapes: `if hasattr(shape, "text"):
      text += shape.text + "\n"`. */
  method CollectShapeText(slides: seq<Slide>) returns (text: string)
    ensures text == Concat(ShapeLines(slides))
  {
    text := "";
    var i := 0;
    while i < |slides|
      invariant i <= |slides|
      invariant text == Concat(ShapeLines(slides[..i]))
    {
      var slide := slides[i];
      assert slides[..i + 1][..i] == slides[..i];
      ghost var before := ShapeLines(slides[..i]);
      assert slide[..0] == [];
      assert before + SlideLines(slide[..0]) == before;
      var j := 0;
      while j < |slide|
        invariant j <= |slide|
        invariant text == Concat(before + SlideLines(slide[..j]))
      {
        assert slide[..j + 1][..j] == slide[..j];
        var shape := slide[j];
        if shape.text.Some? {
          ConcatAppend(before + SlideLines(slide[..j]), [shape.text.value + "\n"]);
          assert [shape.text.value + "\n"][..0] == [];
          text := text + (shape.text.value + "\n");
          assert before + SlideLines(slide[..j + 1]) == (before + SlideLines(slide[..j])) + [shape.text.value + "\n"];
        } else {
          assert SlideLines(slide[..j + 1]) == SlideLines(slide[..j]);
        }
        j := j + 1;
      }
      assert slide[..j] == slide;
      assert ShapeLines(slides[..i + 1]) == before + SlideLines(slide);
      i := i + 1;
    }
    assert slides[..i] == slides;
  }
}
