/**
 `TextractService`: routing an uploaded document to the right text extractor
 by its file extension, assembling OCR text from Textract's LINE blocks, and
 joining a Word document's paragraphs. The Textract and python-docx calls
 are oracles; what this module models is what is done with their answers.
 */
module Textract {
  import opened Wrappers
  import opened Strings
  import opened Json
  import S3

  /* ---------------------------------------------------------------------- */
  /* OCR line assembly                                                      */
  /* ---------------------------------------------------------------------- */

  /** One block of a DetectDocumentText answer: its BlockType, Text and optional Page. */
  datatype Block = Block(blockType: string, text: string, page: Option<int>)

  predicate IsLine(b: Block) {
    b.blockType == "LINE"
  }

  /** The Text of the LINE blocks, in block order. */
  function LineTexts(blocks: seq<Block>): (lines: seq<string>)
    ensures |lines| <= |blocks|
  {
    if blocks == [] then []
    else
      var rest := LineTexts(blocks[1..]);
      if IsLine(blocks[0]) then [blocks[0].text] + rest else rest
  }

  /** Every LINE block contributes its Text, and there is no text only when there is no LINE block. */
  lemma {:induction false} LineTextsComplete(blocks: seq<Block>)
    ensures forall i :: 0 <= i < |blocks| && IsLine(blocks[i]) ==> blocks[i].text in LineTexts(blocks)
    ensures (forall i :: 0 <= i < |blocks| ==> !IsLine(blocks[i])) <==> LineTexts(blocks) == []
  {
    if blocks != [] {
      LineTextsComplete(blocks[1..]);
      assert forall i :: 1 <= i < |blocks| ==> blocks[i] == blocks[1..][i - 1];
    }
  }

  /** Line assembly is a filter: the lines of two block lists are the lines of each, in order. */
  lemma {:induction false} LineTextsConcat(a: seq<Block>, b: seq<Block>)
    ensures LineTexts(a + b) == LineTexts(a) + LineTexts(b)
  {
    if a == [] {
      assert a + b == b;
    } else {
      assert (a + b)[1..] == a[1..] + b;
      assert (a + b)[0] == a[0];
      LineTextsConcat(a[1..], b);
      if IsLine(a[0]) {
        assert LineTexts(a + b) == [a[0].text] + LineTexts(a[1..] + b);
        assert LineTexts(a) == [a[0].text] + LineTexts(a[1..]);
      } else {
        assert LineTexts(a + b) == LineTexts(a[1..] + b);
        assert LineTexts(a) == LineTexts(a[1..]);
      }
    }
  }

  /** The page a block counts for: its Page, or 1 when it has none. */
  function PageOf(b: Block): int {
    b.page.GetOr(1)
  }

  /** `set(b.get("Page", 1) for b in blocks)`. */
  function Pages(blocks: seq<Block>): (pages: set<int>)
    ensures forall i :: 0 <= i < |blocks| ==> PageOf(blocks[i]) in pages
    ensures forall p :: p in pages ==> exists i :: 0 <= i < |blocks| && PageOf(blocks[i]) == p
  {
    if blocks == [] then {}
    else
      var rest := Pages(blocks[1..]);
      assert forall i :: 1 <= i < |blocks| ==> blocks[i] == blocks[1..][i - 1];
      {PageOf(blocks[0])} + rest
  }

  /** There are never more pages than blocks, and none exactly when there are no blocks. */
  lemma {:induction false} PageCountBound(blocks: seq<Block>)
    ensures |Pages(blocks)| <= |blocks|
    ensures |Pages(blocks)| == 0 <==> blocks == []
  {
    if blocks != [] {
      PageCountBound(blocks[1..]);
      var rest := Pages(blocks[1..]);
      assert Pages(blocks) == {PageOf(blocks[0])} + rest;
      assert PageOf(blocks[0]) in Pages(blocks);
      if PageOf(blocks[0]) in rest {
        assert Pages(blocks) == rest;
      } else {
        assert |Pages(blocks)| == |rest| + 1;
      }
    }
  }

  /** Blocks without a Page field all count as page 1. */
  lemma {:induction false} UnpagedIsOnePage(blocks: seq<Block>)
    requires blocks != []
    requires forall i :: 0 <= i < |blocks| ==> blocks[i].page.None?
    ensures Pages(blocks) == {1}
  {
    if |blocks| > 1 {
      UnpagedIsOnePage(blocks[1..]);
    }
  }

  /** What `process_document_textract` keeps of an answer. */
  datatype Ocr = Ocr(text: string, lineCount: nat, pageCount: nat)

  /** `process_document_textract` on the blocks of a successful call. */
  function ProcessBlocks(blocks: seq<Block>): (r: Ocr)
    ensures r.lineCount <= |blocks| && r.pageCount <= |blocks|
    ensures r.pageCount == 0 <==> blocks == []
    ensures r.text == Join(LineTexts(blocks), "\n")
  {
    PageCountBound(blocks);
    var lines := LineTexts(blocks);
    Ocr(Join(lines, "\n"), |lines|, |Pages(blocks)|)
  }

  /** The OCR text splits back into exactly the LINE texts when no line is empty or holds a newline. */
  lemma OcrLinesRecoverable(blocks: seq<Block>)
    requires forall i :: 0 <= i < |blocks| && IsLine(blocks[i]) ==> blocks[i].text != "" && '\n' !in blocks[i].text
    requires exists i :: 0 <= i < |blocks| && IsLine(blocks[i])
    ensures Split(ProcessBlocks(blocks).text, '\n') == LineTexts(blocks)
    ensures ProcessBlocks(blocks).lineCount == |Split(ProcessBlocks(blocks).text, '\n')|
  {
    LineTextsComplete(blocks);
    LineTextsKeep(blocks, (t: string) => t != "" && '\n' !in t);
    SplitJoin(LineTexts(blocks), '\n');
  }

  /** A property every LINE block's Text has, every assembled line has. */
  lemma {:induction false} LineTextsKeep(blocks: seq<Block>, p: string -> bool)
    requires forall i :: 0 <= i < |blocks| && IsLine(blocks[i]) ==> p(blocks[i].text)
    ensures forall j :: 0 <= j < |LineTexts(blocks)| ==> p(LineTexts(blocks)[j])
  {
    if blocks != [] {
      assert forall i :: 0 <= i < |blocks[1..]| ==> blocks[1..][i] == blocks[i + 1];
      LineTextsKeep(blocks[1..], p);
    }
  }

  /* ---------------------------------------------------------------------- */
  /* Word documents                                                         */
  /* ---------------------------------------------------------------------- */

  /** `convert_docx_to_text` / `convert_docx_bytes_to_text` on the paragraphs python-docx read. */
  function DocxText(paragraphs: seq<string>): string {
    Join(NonBlankStripped(paragraphs), "\n")
  }

  /** No paragraph survives exactly when every paragraph is blank. */
  lemma {:induction false} NoneKeptIffBlank(paragraphs: seq<string>)
    ensures NonBlankStripped(paragraphs) == [] <==> forall i :: 0 <= i < |paragraphs| ==> Strip(paragraphs[i]) == ""
  {
    if paragraphs != [] {
      var tail := paragraphs[1..];
      NoneKeptIffBlank(tail);
      assert forall i :: 1 <= i < |paragraphs| ==> paragraphs[i] == tail[i - 1];
      if Strip(paragraphs[0]) != "" {
        assert NonBlankStripped(paragraphs) == [Strip(paragraphs[0])] + NonBlankStripped(tail);
      } else {
        assert NonBlankStripped(paragraphs) == NonBlankStripped(tail);
      }
    }
  }

  /** Joining non-empty parts gives the empty string only when there are no parts. */
  lemma JoinEmptyIffNoParts(parts: seq<string>, sep: string)
    requires forall i :: 0 <= i < |parts| ==> parts[i] != ""
    ensures Join(parts, sep) == "" <==> parts == []
  {
    if |parts| > 1 {
      assert Join(parts, sep) == parts[0] + sep + Join(parts[1..], sep);
    }
  }

  /** A document of blank paragraphs gives no text; any other document gives some. */
  lemma DocxTextEmptyIffBlank(paragraphs: seq<string>)
    ensures DocxText(paragraphs) == "" <==> forall i :: 0 <= i < |paragraphs| ==> Strip(paragraphs[i]) == ""
  {
    NoneKeptIffBlank(paragraphs);
    var kept := NonBlankStripped(paragraphs);
    NonBlankStrippedAreStripped(paragraphs);
    assert forall i :: 0 <= i < |kept| ==> StrippedLine(kept[i]) ==> kept[i] != "";
    JoinEmptyIffNoParts(kept, "\n");
  }

  /** The docx text splits back into the kept paragraphs when no paragraph holds a newline. */
  lemma DocxParagraphsRecoverable(paragraphs: seq<string>)
    requires forall i :: 0 <= i < |paragraphs| ==> AllChars(paragraphs[i], NotNewline)
    requires NonBlankStripped(paragraphs) != []
    ensures Split(DocxText(paragraphs), '\n') == NonBlankStripped(paragraphs)
  {
    NonBlankStrippedKeepsChars(paragraphs, NotNewline);
    var kept := NonBlankStripped(paragraphs);
    forall i | 0 <= i < |kept|
      ensures '\n' !in kept[i]
    {
      assert AllChars(kept[i], NotNewline);
    }
    SplitJoin(kept, '\n');
  }

  /* ---------------------------------------------------------------------- */
  /* Routing                                                                */
  /* ---------------------------------------------------------------------- */

  /** `filename.lower().rsplit(".", 1)[-1] if "." in filename else ""`. */
  function Extension(filename: string): (ext: string)
    ensures '.' !in ext
    ensures '.' !in filename ==> ext == ""
  {
    if '.' in filename then
      LastSegmentShape(Lower(filename), '.');
      LastSegment(Lower(filename), '.')
    else ""
  }

  /** The extension is the lower-cased text after the last dot. */
  lemma ExtensionAfterLastDot(stem: string, tail: string)
    requires '.' !in tail
    ensures Extension(stem + "." + tail) == Lower(tail)
  {
    var f := stem + "." + tail;
    assert '.' in f by { assert f[|stem|] == '.'; }
    LowerConcat(stem + ".", tail);
    LowerConcat(stem, ".");
    assert Lower(".") == ".";
    LowerKeeps(tail, '.');
    LastSegmentAppend(Lower(stem), '.', Lower(tail));
  }

  /** The three ways `upload_and_process` can go. */
  datatype Method = PythonDocx | Textract | Unsupported

  /** The `method` string each route reports. */
  function MethodName(m: Method): string {
    match m
    case PythonDocx => "python-docx"
    case Textract => "textract"
    case Unsupported => "unsupported"
  }

  const OCR_EXTENSIONS: seq<string> := ["pdf", "png", "jpg", "jpeg", "tiff"]

  function Route(ext: string): (m: Method)
    ensures m == PythonDocx <==> ext == "docx"
    ensures m == Textract <==> ext in OCR_EXTENSIONS
  {
    if ext == "docx" then PythonDocx
    else if ext in OCR_EXTENSIONS then Textract
    else Unsupported
  }

  /* ---------------------------------------------------------------------- */
  /* upload_and_process                                                     */
  /* ---------------------------------------------------------------------- */

  /** The result dict of `upload_and_process`; page and line counts only on the OCR route, error only on the unsupported one. */
  datatype Extraction = Extraction(
    text: string,
    via: string,
    filename: Value,
    s3Key: string,
    pageCount: Option<nat>,
    lineCount: Option<nat>,
    error: Option<string>)

  /** `f"uploads/{session_id}/{filename}"`. */
  function UploadKey(sessionId: Value, filename: Value): string {
    S3.ObjectKey(S3.UPLOADS, Display(sessionId), Display(filename))
  }

  /**
   The extension of whatever value the caller passed as the filename: `"." in
   filename` is evaluated first, which raises for numbers, booleans and None, is
   a membership test for lists and dicts, and `.lower()` then raises for
   anything that is not a string.
   */
  function ExtensionOf(filename: Value): (r: Result<string>)
    ensures filename.Str? ==> r == Ok(Extension(filename.s))
  {
    match filename
    case Str(s) => Ok(Extension(s))
    case Arr(items) => if Str(".") in items then Err("'list' object has no attribute 'lower'") else Ok("")
    case Obj(fields) => if Lookup(fields, ".").Some? then Err("'dict' object has no attribute 'lower'") else Ok("")
    case _ => Err("argument of type is not iterable")
  }

  /**
   `upload_and_process`: the file is stored under the uploads key before the
   extension is looked at, then routed. `docx` and `ocr` stand for python-docx
   and Textract; their errors propagate.
   */
  function UploadAndProcess(
    store: S3.Store,
    file: S3.Payload,
    filename: Value,
    sessionId: Value,
    docx: S3.Payload -> Result<seq<string>>,
    ocr: string -> Result<seq<Block>>
  ): (r: (S3.Store, Result<Extraction>))
    ensures r.0 == store[UploadKey(sessionId, filename) := S3.Blob(file, None)]
    ensures r.1.Ok? ==> r.1.value.s3Key == UploadKey(sessionId, filename) && r.1.value.filename == filename
    ensures r.1.Ok? ==> r.1.value.via in {"python-docx", "textract", "unsupported"}
    ensures r.1.Ok? ==> (r.1.value.error.Some? <==> r.1.value.via == "unsupported")
    ensures r.1.Ok? ==> (r.1.value.pageCount.Some? <==> r.1.value.via == "textract")
  {
    var key := UploadKey(sessionId, filename);
    var store' := store[key := S3.Blob(file, None)];
    match ExtensionOf(filename)
    case Err(e) => (store', Err(e))
    case Ok(ext) =>
      match Route(ext)
      case PythonDocx =>
        (match docx(file)
         case Err(e) => (store', Err(e))
         case Ok(paragraphs) =>
           (store', Ok(Extraction(DocxText(paragraphs), "python-docx", filename, key, None, None, None))))
      case Textract =>
        (match ocr(key)
         case Err(e) => (store', Err(e))
         case Ok(blocks) =>
           var o := ProcessBlocks(blocks);
           (store', Ok(Extraction(o.text, "textract", filename, key, Some(o.pageCount), Some(o.lineCount), None))))
      case Unsupported =>
        (store', Ok(Extraction("", "unsupported", filename, key, None, None, Some("Unsupported file type: ." + ext))))
  }

  /** Every route that succeeds reports the method its extension selects and the same key. */
  lemma RoutingSpec(
    store: S3.Store, file: S3.Payload, filename: string, sessionId: Value,
    docx: S3.Payload -> Result<seq<string>>, ocr: string -> Result<seq<Block>>)
    ensures var (store', r) := UploadAndProcess(store, file, Str(filename), sessionId, docx, ocr);
      var ext := Extension(filename);
      && UploadKey(sessionId, Str(filename)) in store'
      && (ext == "docx" ==> (r.Ok? <==> docx(file).Ok?) && (r.Ok? ==> r.value.via == "python-docx" && r.value.text == DocxText(docx(file).value)))
      && (ext in OCR_EXTENSIONS ==> (r.Ok? <==> ocr(UploadKey(sessionId, Str(filename))).Ok?) && (r.Ok? ==> r.value.via == "textract"))
      && (ext != "docx" && ext !in OCR_EXTENSIONS ==>
            r == Ok(Extraction("", "unsupported", Str(filename), UploadKey(sessionId, Str(filename)), None, None, Some("Unsupported file type: ." + ext))))
  {
  }

  /** The OCR route reports the assembled LINE text and the line and page counts. */
  lemma OcrRouteSpec(
    store: S3.Store, file: S3.Payload, stem: string, ext: string, sessionId: Value,
    docx: S3.Payload -> Result<seq<string>>, ocr: string -> Result<seq<Block>>)
    requires ext in OCR_EXTENSIONS
    requires ocr(UploadKey(sessionId, Str(stem + "." + ext))).Ok?
    ensures var blocks := ocr(UploadKey(sessionId, Str(stem + "." + ext))).value;
      UploadAndProcess(store, file, Str(stem + "." + ext), sessionId, docx, ocr).1
      == Ok(Extraction(Join(LineTexts(blocks), "\n"), "textract", Str(stem + "." + ext),
                       UploadKey(sessionId, Str(stem + "." + ext)),
                       Some(|Pages(blocks)|), Some(|LineTexts(blocks)|), None))
  {
    OcrExtension(stem, ext);
    OcrRoute(store, file, stem + "." + ext, sessionId, docx, ocr);
  }

  /** A file named with one of the OCR extensions, in lower case, is routed to OCR. */
  lemma OcrExtension(stem: string, ext: string)
    requires ext in OCR_EXTENSIONS
    ensures Extension(stem + "." + ext) == ext
  {
    ExtensionAfterLastDot(stem, ext);
    assert Lower(ext) == ext;
  }

  /** `OcrRouteSpec` for any filename whose extension selects OCR. */
  lemma OcrRoute(
    store: S3.Store, file: S3.Payload, filename: string, sessionId: Value,
    docx: S3.Payload -> Result<seq<string>>, ocr: string -> Result<seq<Block>>)
    requires Extension(filename) in OCR_EXTENSIONS
    requires ocr(UploadKey(sessionId, Str(filename))).Ok?
    ensures var blocks := ocr(UploadKey(sessionId, Str(filename))).value;
      UploadAndProcess(store, file, Str(filename), sessionId, docx, ocr).1
      == Ok(Extraction(Join(LineTexts(blocks), "\n"), "textract", Str(filename),
                       UploadKey(sessionId, Str(filename)),
                       Some(|Pages(blocks)|), Some(|LineTexts(blocks)|), None))
  {
  }
}
