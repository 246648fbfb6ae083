/** backend/extract_text.py: a text extractor per document format and a
    dispatcher on the lower-cased file extension. Every extractor answers ""
    instead of raising, and so does the dispatcher for an unknown extension. */
module ExtractText {
  import opened Wrappers
  import opened PyStr
  import opened DocumentFormats

  /** The formats extract_text dispatches on. */
  datatype Format = PdfFormat | DocxFormat | PptxFormat | TxtFormat | MdFormat | OtherFormat

  /** The branch extract_text takes for a lower-cased extension. */
  function FormatOf(ext: string): (f: Format)
    ensures f == OtherFormat <==> ext !in {".pdf", ".docx", ".pptx", ".txt", ".md"}
  {
    if ext == ".pdf" then PdfFormat
    else if ext == ".docx" then DocxFormat
    else if ext == ".pptx" then PptxFormat
    else if ext == ".txt" then TxtFormat
    else if ext == ".md" then MdFormat
    else OtherFormat
  }

  /** extract_from_pdf: the pages' texts in page order, stripped. */
  function FromPdf(pages: Option<seq<string>>): string {
    match pages
    case None => ""
    case Some(p) => Strip(Concat(p))
  }

  /** The paragraphs kept by `if p.text.strip()`, in order: those that are
      not blank (PyStr.Strip is empty exactly for blank text). */
  function NonBlank(paragraphs: seq<string>): (kept: seq<string>)
    ensures forall i :: 0 <= i < |kept| ==> !IsBlank(kept[i])
  {
    if paragraphs == [] then []
    else
      var last := paragraphs[|paragraphs| - 1];
      NonBlank(paragraphs[..|paragraphs| - 1]) + (if !IsBlank(last) then [last] else [])
  }

  /** extract_from_docx: the non-blank paragraphs joined by "\n"; not stripped. */
  function FromDocx(paragraphs: Option<seq<string>>): string {
    match paragraphs
    case None => ""
    case Some(p) => Join("\n", NonBlank(p))
  }

  /** extract_from_pptx: each text shape followed by "\n", stripped. */
  function FromPptx(slides: Option<seq<Slide>>): string {
    match slides
    case None => ""
    case Some(s) => Strip(Concat(ShapeLines(s)))
  }

  /** extract_from_txt and extract_from_md: the read text (or the HTML the
      markdown package makes of it), stripped. */
  function FromRead(read: Option<string>): string {
    match read
    case None => ""
    case Some(t) => Strip(t)
  }

  /** What extract_text(file_path) returns for a file the libraries see as
      `file`. */
  function TextOf(path: string, file: FileView): string {
    match FormatOf(Lower(Extension(path)))
    case PdfFormat => FromPdf(file.pdfPages)
    case DocxFormat => FromDocx(file.docxParagraphs)
    case PptxFormat => FromPptx(file.pptxSlides)
    case TxtFormat => FromRead(file.strictText)
    case MdFormat => FromRead(file.markdownHtml)
    case OtherFormat => ""
  }

  /** extract_from_pdf, with its loop over the pages. */
  method ExtractFromPdf(pages: Option<seq<string>>) returns (text: string)
    ensures text == FromPdf(pages)
  {
    if pages.None? {
      return "";
    }
    text := ConcatPages(pages.value);
    text := Strip(text);
  }

  /** extract_from_pptx, with its loops over slides and shapes. */
  method ExtractFromPptx(slides: Option<seq<Slide>>) returns (text: string)
    ensures text == FromPptx(slides)
  {
    if slides.None? {
      return "";
    }
    text := CollectShapeText(slides.value);
    text := Strip(text);
  }

  /** extract_text: dispatch on the lower-cased extension. */
  method Extract(path: string, file: FileView) returns (text: string)
    ensures text == TextOf(path, file)
  {
    var ext := Lower(Extension(path));
    if ext == ".pdf" {
      text := ExtractFromPdf(file.pdfPages);
    } else if ext == ".docx" {
      text := FromDocx(file.docxParagraphs);
    } else if ext == ".pptx" {
      text := ExtractFromPptx(file.pptxSlides);
    } else if ext == ".txt" {
      text := FromRead(file.strictText);
    } else if ext == ".md" {
      text := FromRead(file.markdownHtml);
    } else {
      text := "";
    }
  }

  /** A paragraph is kept exactly when it is not blank. */
  lemma {:induction false} NonBlankMembers(paragraphs: seq<string>, p: string)
    ensures p in NonBlank(paragraphs) <==> p in paragraphs && !IsBlank(p)
    decreases |paragraphs|
  {
    if paragraphs != [] {
      var init := paragraphs[..|paragraphs| - 1];
      NonBlankMembers(init, p);
      assert paragraphs == init + [paragraphs[|paragraphs| - 1]];
    }
  }

  /** When no paragraph holds a newline, splitting the DOCX text on "\n"
      gives back exactly the non-blank paragraphs: no blank line survives. */
  lemma DocxLines(paragraphs: seq<string>)
    requires forall i :: 0 <= i < |paragraphs| ==> '\n' !in paragraphs[i]
    requires NonBlank(paragraphs) != []
    ensures SplitOn(FromDocx(Some(paragraphs)), '\n') == NonBlank(paragraphs)
  {
    var kept := NonBlank(paragraphs);
    forall i | 0 <= i < |kept| ensures '\n' !in kept[i] {
      NonBlankMembers(paragraphs, kept[i]);
      assert kept[i] in kept;
    }
    SplitOnJoin(kept, '\n');
  }

  /** Unlike the other extractors, the DOCX text is not stripped: a leading
      indent of the first kept paragraph survives. */
  lemma DocxKeepsIndent()
    ensures FromDocx(Some([" a"])) == " a"
  {
    assert [" a"][..0] == [];
    assert !IsSpace(" a"[1]);
  }

  /** The PDF, PPTX, TXT and Markdown extractors return stripped text. */
  lemma StrippedFormats(path: string, file: FileView)
    requires FormatOf(Lower(Extension(path))) != DocxFormat
    ensures Strip(TextOf(path, file)) == TextOf(path, file)
  {
    match FormatOf(Lower(Extension(path)))
    case PdfFormat =>
      if file.pdfPages.Some? { StripIdempotent(Concat(file.pdfPages.value)); }
    case PptxFormat =>
      if file.pptxSlides.Some? { StripIdempotent(Concat(ShapeLines(file.pptxSlides.value))); }
    case TxtFormat =>
      if file.strictText.Some? { StripIdempotent(file.strictText.value); }
    case MdFormat =>
      if file.markdownHtml.Some? { StripIdempotent(file.markdownHtml.value); }
    case OtherFormat =>
  }

  /** An extension outside .pdf/.docx/.pptx/.txt/.md, in any letter case,
      gives "" whatever the file holds. */
  lemma UnsupportedGivesEmpty(path: string, file: FileView)
    requires Lower(Extension(path)) !in {".pdf", ".docx", ".pptx", ".txt", ".md"}
    ensures TextOf(path, file) == ""
  {
  }

  /** Extensions are matched without regard to letter case. */
  lemma UpperCaseExtension(file: FileView)
    ensures TextOf("report.PDF", file) == TextOf("report.pdf", file) == FromPdf(file.pdfPages)
  {
    ExtensionAfterDot("report.PDF", 6);
    ExtensionAfterDot("report.pdf", 6);
    assert Lower(".PDF") == ".pdf";
    assert Lower(".pdf") == ".pdf";
  }

  /** A library failure in any extractor gives "", never an exception. */
  lemma FailuresGiveEmpty(path: string)
    ensures TextOf(path, FileView(None, None, None, None, None, None, None, None)) == ""
  {
  }
}
