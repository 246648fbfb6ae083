/** backend/store_data.py: the upload path. extract_text_from_file picks an
    extractor by the lower-cased extension, strips the result and maps empty
    text to None; process_and_store then stores the document under a fresh
    id and chunks and embeds it with backend/generate_embeddings.py. */
module StoreData {
  import opened Wrappers
  import opened PyStr
  import opened DocumentFormats
  import Db
  import GenerateEmbeddings
  import ExtractText

  /** The branches of extract_text_from_file. */
  datatype Kind = PlainText | Pdf | Word | PowerPoint | Audio | Video | Image | Unsupported

  /** The branch taken for a lower-cased extension. */
  function KindOf(ext: string): (k: Kind)
    ensures k == Unsupported <==>
      ext !in {".txt", ".pdf", ".docx", ".pptx", ".mp3", ".wav", ".mp4", ".mov", ".avi", ".png", ".jpg", ".jpeg"}
  {
    if ext == ".txt" then PlainText
    else if ext == ".pdf" then Pdf
    else if ext == ".docx" then Word
    else if ext == ".pptx" then PowerPoint
    else if ext in {".mp3", ".wav"} then Audio
    else if ext in {".mp4", ".mov", ".avi"} then Video
    else if ext in {".png", ".jpg", ".jpeg"} then Image
    else Unsupported
  }

  const ImagePlaceholder: string := "[Image uploaded \U{2014} OCR not implemented yet.]"

  /** What the try block leaves in `text` for a supported kind: None when it
      raised (caught: the function returns None), Some(None) when the audio or
      video extractor returned None, Some(Some(t)) otherwise. */
  function Raw(kind: Kind, file: FileView): Option<Option<string>>
    requires kind != Unsupported
  {
    match kind
    case PlainText => if file.lenientText.None? then None else Some(file.lenientText)
    case Pdf => if file.pdfPages.None? then None else Some(Some(Concat(file.pdfPages.value)))
    case Word => if file.docxParagraphs.None? then None else Some(Some(Join("\n", file.docxParagraphs.value)))
    case PowerPoint => if file.pptxSlides.None? then None else Some(Some(Concat(ShapeLines(file.pptxSlides.value))))
    case Audio => Some(file.audioTranscript)
    case Video => Some(file.videoTranscript)
    case Image => Some(Some(ImagePlaceholder))
  }

  /** `text.strip()`, then None for empty text. */
  function Finish(text: string): (r: Option<string>)
    ensures r.None? <==> IsBlank(text)
    ensures r.Some? ==> r.value != [] && Strip(r.value) == r.value
    ensures text != [] && Strip(text) == text ==> r == Some(text)
  {
    var s := Strip(text);
    if s == [] then None
    else
      StripIdempotent(text);
      Some(s)
  }

  /** How a call of extract_text_from_file ends as written: it returns a
      value, or `None.strip()` raises AttributeError out of it. */
  datatype Outcome = Returned(value: Option<string>) | Crashed

  /** extract_text_from_file exactly as written: line 67 strips `text` outside
      the try, so the None an audio or video extractor returns raises. */
  function ExtractAsWritten(path: string, file: FileView): Outcome {
    var kind := KindOf(Lower(Extension(path)));
    if kind == Unsupported then Returned(None)
    else
      match Raw(kind, file)
      case None => Returned(None)
      case Some(None) => Crashed
      case Some(Some(t)) => Returned(Finish(t))
  }

  /** extract_text_from_file as evidently intended: a transcript of None is
      "no readable text", like any other empty result. */
  function Extracted(path: string, file: FileView): Option<string> {
    var kind := KindOf(Lower(Extension(path)));
    if kind == Unsupported then None
    else
      match Raw(kind, file)
      case None => None
      case Some(None) => None
      case Some(Some(t)) => Finish(t)
  }

  /** extract_text_from_file, with its loops over PDF pages and PowerPoint
      shapes (the corrected handling of a None transcript). */
  method ExtractTextFromFile(path: string, file: FileView) returns (result: Option<string>)
    ensures result == Extracted(path, file)
  {
    var ext := Lower(Extension(path));
    var text: Option<string> := Some("");
    if ext == ".txt" {
      if file.lenientText.None? {
        return None;
      }
      text := file.lenientText;
    } else if ext == ".pdf" {
      if file.pdfPages.None? {
        return None;
      }
      var pages := ConcatPages(file.pdfPages.value);
      text := Some(pages);
    } else if ext == ".docx" {
      if file.docxParagraphs.None? {
        return None;
      }
      text := Some(Join("\n", file.docxParagraphs.value));
    } else if ext == ".pptx" {
      if file.pptxSlides.None? {
        return None;
      }
      var shapes := CollectShapeText(file.pptxSlides.value);
      text := Some(shapes);
    } else if ext in {".mp3", ".wav"} {
      text := file.audioTranscript;
    } else if ext in {".mp4", ".mov", ".avi"} {
      text := file.videoTranscript;
    } else if ext in {".png", ".jpg", ".jpeg"} {
      text := Some(ImagePlaceholder);
    } else {
      return None;
    }
    if text.None? {
      return None;
    }
    result := Finish(text.value);
  }

  /** As written, the call raises exactly for an audio or video file whose
      extractor returned None. */
  lemma CrashIff(path: string, file: FileView)
    ensures ExtractAsWritten(path, file) == Crashed <==>
      || (KindOf(Lower(Extension(path))) == Audio && file.audioTranscript.None?)
      || (KindOf(Lower(Extension(path))) == Video && file.videoTranscript.None?)
  {
    match KindOf(Lower(Extension(path)))
    case PlainText =>
    case Pdf =>
    case Word =>
    case PowerPoint =>
    case Audio =>
    case Video =>
    case Image =>
    case Unsupported =>
  }

  /** Wherever the code as written does not raise, it returns what the
      corrected function returns. */
  lemma AsWrittenAgrees(path: string, file: FileView)
    requires ExtractAsWritten(path, file) != Crashed
    ensures ExtractAsWritten(path, file) == Returned(Extracted(path, file))
  {
  }

  /** A silent or unreadable recording: "talk.mp3" whose transcription gave
      None makes the function as written raise, where None was meant. */
  lemma SilentAudioCrashes(file: FileView)
    requires file.audioTranscript.None?
    ensures ExtractAsWritten("talk.mp3", file) == Crashed
    ensures Extracted("talk.mp3", file) == None
  {
    Mp3Extension();
    assert KindOf(".mp3") == Audio;
    assert Raw(Audio, file) == Some(None);
  }

  /** The lower-cased extension of "talk.mp3". */
  lemma Mp3Extension()
    ensures Lower(Extension("talk.mp3")) == ".mp3"
  {
    ExtensionAfterDot("talk.mp3", 4);
    assert Lower(".mp3") == ".mp3";
  }

  /** With every library call failing, the corrected extraction gives None
      for every kind but an image. As written, only the failures caught
      inside the try give None: an audio or video extractor's None reaches
      the strip and raises. */
  lemma FailuresGiveNone(path: string)
    requires KindOf(Lower(Extension(path))) != Image
    ensures Extracted(path, FileView(None, None, None, None, None, None, None, None)) == None
    ensures ExtractAsWritten(path, FileView(None, None, None, None, None, None, None, None))
            == if KindOf(Lower(Extension(path))) in {Audio, Video} then Crashed else Returned(None)
  {
  }

  /** A Word file's paragraphs are joined with "\n" before the strip. */
  lemma DocxJoined(path: string, file: FileView)
    requires KindOf(Lower(Extension(path))) == Word && file.docxParagraphs.Some?
    ensures Extracted(path, file) == Finish(Join("\n", file.docxParagraphs.value))
  {
  }

  /** The result is never the empty string and never has whitespace at its
      ends. */
  lemma ExtractedIsStripped(path: string, file: FileView)
    ensures var r := Extracted(path, file);
      r.Some? ==> r.value != [] && Strip(r.value) == r.value
  {
  }

  /** An unsupported extension gives None, whatever the file holds. */
  lemma UnsupportedGivesNone(path: string, file: FileView)
    requires Lower(Extension(path)) !in {".txt", ".pdf", ".docx", ".pptx", ".mp3", ".wav", ".mp4", ".mov", ".avi", ".png", ".jpg", ".jpeg"}
    ensures Extracted(path, file) == None && ExtractAsWritten(path, file) == Returned(None)
  {
  }

  /** Any image extension, in any letter case, gives the placeholder text. */
  lemma ImagesGivePlaceholder(path: string, file: FileView)
    requires Lower(Extension(path)) in {".png", ".jpg", ".jpeg"}
    ensures Extracted(path, file) == Some(ImagePlaceholder)
  {
    assert KindOf(Lower(Extension(path))) == Image;
    PlaceholderTrimmed();
  }

  lemma PlaceholderTrimmed()
    ensures Strip(ImagePlaceholder) == ImagePlaceholder
  {
    var p := ImagePlaceholder;
    assert p[0] == '[' && p[|p| - 1] == ']';
    StripTrimmed(p);
  }

  /** ".JPG" is an image extension too: the extension is lower-cased first. */
  lemma UpperCaseImage(file: FileView)
    ensures Extracted("scan.JPG", file) == Some(ImagePlaceholder)
  {
    ExtensionAfterDot("scan.JPG", 4);
    assert Lower(".JPG") == ".jpg";
    ImagesGivePlaceholder("scan.JPG", file);
  }

  /** For PDF and PowerPoint files both dispatchers read the same text; this
      one answers None where backend/extract_text.py answers "". */
  lemma AgreesWithExtractText(path: string, file: FileView)
    requires KindOf(Lower(Extension(path))) in {Pdf, PowerPoint}
    ensures var t := ExtractText.TextOf(path, file);
      Extracted(path, file) == if t == [] then None else Some(t)
  {
    var ext := Lower(Extension(path));
    if KindOf(ext) == Pdf {
      assert ExtractText.FormatOf(ext) == ExtractText.PdfFormat;
    } else {
      assert ExtractText.FormatOf(ext) == ExtractText.PptxFormat;
    }
  }

  /** Every PowerPoint text shape's text, followed by a newline, occurs in
      the text handed to the final strip, at the offset of the lines
      collected before it. */
  lemma PptxHoldsEveryShape(slides: seq<Slide>, i: nat, j: nat) returns (offset: nat)
    requires i < |slides| && j < |slides[i]| && slides[i][j].text.Some?
    ensures var text := Concat(ShapeLines(slides)); var line := slides[i][j].text.value + "\n";
      offset + |line| <= |text| && text[offset..offset + |line|] == line
  {
    var lines := ShapeLines(slides);
    var line := slides[i][j].text.value + "\n";
    ShapeLinesMembers(slides, line);
    var k :| 0 <= k < |lines| && lines[k] == line;
    ConcatHoldsParts(lines, k);
    offset := |Concat(lines[..k])|;
  }

  /** process_and_store: extracts the text; with none, returns (None, None)
      and stores nothing; otherwise inserts the document under `newDocId`
      (the uuid4 it draws), creates its embeddings with that id and text, and
      returns both. The insert and the embedding loop never raise, so the
      except branch at the end is never taken. */
  method ProcessAndStore(db: Db.Database, path: string, file: FileView, newDocId: string, docWrite: Db.WriteAttempt,
                         encode: string -> Option<Db.Vector>, chunkWrites: int -> Db.WriteAttempt)
    returns (docId: Option<string>, text: Option<string>)
    modifies db
    ensures text == Extracted(path, file)
    ensures docId == if text.Some? then Some(newDocId) else None
    ensures text.None? ==> db.documents == old(db.documents) && db.embeddings == old(db.embeddings)
    ensures text.Some? ==>
      && db.documents == old(db.documents) + (if Db.Lands(docWrite) then [Db.DocumentRow(newDocId, text.value)] else [])
      && db.embeddings == old(db.embeddings) + GenerateEmbeddings.Ingested(newDocId, text.value, encode, chunkWrites)
  {
    var extracted := ExtractTextFromFile(path, file);
    if extracted.None? || extracted.value == [] {
      return None, None;
    }
    db.InsertDocument(newDocId, extracted.value, docWrite);
    GenerateEmbeddings.CreateEmbeddings(db, newDocId, extracted.value, encode, chunkWrites);
    return Some(newDocId), extracted;
  }
}
