/**
 The `parse_document` function: takes a document as base64 content or as an
 S3 key, extracts its text through the Textract service, and records the
 document on the session.
 */
module ParseDocumentHandler {
  import opened Wrappers
  import opened Json
  import Text = Strings
  import Dynamo
  import S3
  import Textract
  import opened Responses
  import opened Lambda

  /** How many characters of the text the result previews. */
  const PREVIEW: nat := 500

  /**
   The file's bytes: base64 content when truthy, else the object under a
   truthy `s3Key`; `None` when neither is given. A key that is not a string
   is refused by the S3 client.
   */
  function FileSource(bucket: S3.Store, content: Value, s3Key: Value, b64decode: Value -> Result<seq<bv8>>): (r: Option<Result<S3.Payload>>)
    ensures r.None? <==> !Truthy(content) && !Truthy(s3Key)
    ensures Truthy(content) ==> r == Some(if b64decode(content).Ok? then Ok(S3.Bytes(b64decode(content).value)) else Err(b64decode(content).error))
    ensures !Truthy(content) && Truthy(s3Key) && s3Key.Str? ==> r == Some(S3.GetDocument(bucket, s3Key.s))
  {
    if Truthy(content) then
      Some(match b64decode(content)
           case Ok(bytes) => Ok(S3.Bytes(bytes))
           case Err(e) => Err(e))
    else if Truthy(s3Key) then
      Some(if s3Key.Str? then S3.GetDocument(bucket, s3Key.s) else Err("Parameter validation failed: Key must be a string"))
    else None
  }

  /** Content wins: when `fileContent` is given, `s3Key` is never looked at. */
  lemma ContentWins(bucket: S3.Store, content: Value, key1: Value, key2: Value, b64decode: Value -> Result<seq<bv8>>)
    requires Truthy(content)
    ensures FileSource(bucket, content, key1, b64decode) == FileSource(bucket, content, key2, b64decode)
  {
  }

  /** The entry appended to the session's `parsedDocuments`. */
  function DocumentEntry(filename: Value, x: Textract.Extraction): Value {
    Obj([ ("filename", filename),
          ("method", Str(x.via)),
          ("text_length", Num(|x.text|)),
          ("s3_key", Str(x.s3Key)) ])
  }

  /** The result: the document's method, text length, preview and key. */
  function ResultFields(sessionId: Value, filename: Value, x: Textract.Extraction): seq<(string, Value)> {
    [ ("sessionId", sessionId),
      ("filename", filename),
      ("method", Str(x.via)),
      ("text_length", Num(|x.text|)),
      ("text_preview", Str(Text.Take(x.text, PREVIEW))),
      ("s3_key", Str(x.s3Key)) ]
  }

  /** `lambda_handler`: nothing is started; sessions change only on a 200. */
  function Handle(w: World, event: Value, env: Env): (r: (World, Reply))
    ensures r.0.started == w.started
    ensures r.0.sessions != w.sessions ==> r.1.Responded? && r.1.response.statusCode == 200
  {
    match ParseBody(event, env.decode)
    case Err(e) => (w, Responded(BadBody(e)))
    case Ok(body) =>
      match Get(body, "sessionId", Null)
      case None => (w, Raised(NOT_A_DICT))
      case Some(sessionId) =>
        var filename := GetOr(body.fields, "filename", Null);
        if !Truthy(sessionId) || !Truthy(filename) then (w, Fail("sessionId and filename are required", 400))
        else
          match FileSource(w.bucket, GetOr(body.fields, "fileContent", Null), GetOr(body.fields, "s3Key", Null), env.b64decode)
          case None => (w, Fail("Either fileContent or s3Key is required", 400))
          case Some(Err(e)) => (w, Crash("Document parsing failed", e))
          case Some(Ok(file)) => Process(w, sessionId, filename, file, env)
  }

  /**
   Extraction and the session write. The file is uploaded before anything can
   fail, so the bucket holds it under the uploads key whatever the reply.
   */
  function Process(w: World, sessionId: Value, filename: Value, file: S3.Payload, env: Env): (r: (World, Reply))
    ensures r.0.started == w.started
    ensures r.0.bucket == w.bucket[Textract.UploadKey(sessionId, filename) := S3.Blob(file, None)]
    ensures r.0.sessions != w.sessions ==> r.1.Responded? && r.1.response.statusCode == 200
  {
    var (bucket, extracted) := Textract.UploadAndProcess(w.bucket, file, filename, sessionId, env.docx, env.ocr);
    match extracted
    case Err(e) => (w.(bucket := bucket), Crash("Document parsing failed", e))
    case Ok(x) =>
      var (sessions, reply) := Record(w.sessions, sessionId, filename, x, env.now);
      (w.(bucket := bucket, sessions := sessions), reply)
  }

  /** The session write for an extracted document, and the reply; a session that does not exist is not written. */
  function Record(table: Dynamo.Table, sessionId: Value, filename: Value, x: Textract.Extraction, now: string): (r: (Dynamo.Table, Reply))
    ensures r.0 != table ==> SucceededWith(r.1, ResultFields(sessionId, filename, x))
  {
    match Dynamo.GetSession(table, sessionId)
    case Err(e) => (table, Crash("Document parsing failed", e))
    case Ok(None) => (table, Succeed(Obj(ResultFields(sessionId, filename, x))))
    case Ok(Some(item)) =>
      var docs := ItemGet(item, "parsedDocuments", Arr([]));
      if !docs.Arr? then (table, Crash("Document parsing failed", "object has no attribute 'append'"))
      else
        match UpdateRead(table, sessionId, item, [("parsedDocuments", Arr(docs.items + [DocumentEntry(filename, x)]))], now)
        case Err(e) => (table, Crash("Document parsing failed", e))
        case Ok(table') => (table', Succeed(Obj(ResultFields(sessionId, filename, x))))
  }

  /** A missing or falsy session id or filename is a 400, and nothing changes. */
  lemma ParseNeedsIds(w: World, event: Value, env: Env, body: seq<(string, Value)>)
    requires ParseBody(event, env.decode) == Ok(Obj(body))
    requires !Truthy(GetOr(body, "sessionId", Null)) || !Truthy(GetOr(body, "filename", Null))
    ensures Handle(w, event, env) == (w, Fail("sessionId and filename are required", 400))
  {
  }

  /** Neither content nor key is a 400, and nothing is uploaded or written. */
  lemma ParseNeedsSource(w: World, event: Value, env: Env, body: seq<(string, Value)>)
    requires ParseBody(event, env.decode) == Ok(Obj(body))
    requires Truthy(GetOr(body, "sessionId", Null)) && Truthy(GetOr(body, "filename", Null))
    requires !Truthy(GetOr(body, "fileContent", Null)) && !Truthy(GetOr(body, "s3Key", Null))
    ensures Handle(w, event, env) == (w, Fail("Either fileContent or s3Key is required", 400))
  {
  }

  /** The preview is the text's first 500 characters, or all of a shorter text. */
  lemma PreviewSpec(sessionId: Value, filename: Value, x: Textract.Extraction)
    ensures var preview := ResultFields(sessionId, filename, x)[4];
      && preview.0 == "text_preview" && preview.1.Str?
      && preview.1.s <= x.text
      && |preview.1.s| == if |x.text| < PREVIEW then |x.text| else PREVIEW
  {
  }

  /**
   For a session whose newest record has a creation time and a list of parsed
   documents, exactly one entry is appended after the existing ones, and it
   records the filename, method, text length and key of the extraction.
   */
  lemma DocumentAppended(table: Dynamo.Table, sessionId: string, filename: Value, x: Textract.Extraction, now: string)
    requires sessionId != ""
    requires Dynamo.Latest(table, sessionId).Some? && Dynamo.Latest(table, sessionId).value.createdAt != ""
    requires ItemGet(Dynamo.FullItem(Dynamo.Latest(table, sessionId).value), "parsedDocuments", Arr([])).Arr?
    requires Dynamo.Serializable(ItemGet(Dynamo.FullItem(Dynamo.Latest(table, sessionId).value), "parsedDocuments", Arr([])))
    requires Dynamo.Serializable(filename)
    ensures var rec := Dynamo.Latest(table, sessionId).value;
      var before := ItemGet(Dynamo.FullItem(rec), "parsedDocuments", Arr([])).items;
      var after := Arr(before + [DocumentEntry(filename, x)]);
      Record(table, Str(sessionId), filename, x, now)
      == (Dynamo.Put(table, Dynamo.Updated(table, sessionId, rec.createdAt, [("parsedDocuments", after)], now)),
          Succeed(Obj(ResultFields(Str(sessionId), filename, x))))
  {
    var rec := Dynamo.Latest(table, sessionId).value;
    var item := Dynamo.FullItem(rec);
    var before := ItemGet(item, "parsedDocuments", Arr([])).items;
    var after := Arr(before + [DocumentEntry(filename, x)]);
    assert Dynamo.GetSession(table, Str(sessionId)) == Ok(Some(item));
    assert Dynamo.Serializable(DocumentEntry(filename, x));
    assert Dynamo.Serializable(after) by {
      assert forall i :: 0 <= i < |before| ==> after.items[i] == before[i];
    }
    UpdateReadSpec(table, sessionId, [("parsedDocuments", after)], now);
  }

  /** A document for a session that does not exist is extracted and reported, and no session is written. */
  lemma NoSessionNoWrite(table: Dynamo.Table, sessionId: string, filename: Value, x: Textract.Extraction, now: string)
    requires sessionId != ""
    requires forall i :: 0 <= i < |table| ==> table[i].sessionId != sessionId
    ensures Record(table, Str(sessionId), filename, x, now) == (table, Succeed(Obj(ResultFields(Str(sessionId), filename, x))))
  {
    match Dynamo.GetSession(table, Str(sessionId))
    case Ok(Some(item)) =>
      assert false;
    case _ =>
  }

  /** The updated record holds the old entries, in order, followed by the new one. */
  lemma AppendedEntryStored(table: Dynamo.Table, sessionId: string, createdAt: string, before: seq<Value>, entry: Value, now: string)
    ensures var attrs := Dynamo.Updated(table, sessionId, createdAt, [("parsedDocuments", Arr(before + [entry]))], now).attrs;
      && "parsedDocuments" in attrs
      && attrs["parsedDocuments"].Arr?
      && |attrs["parsedDocuments"].items| == |before| + 1
      && attrs["parsedDocuments"].items[..|before|] == before
      && attrs["parsedDocuments"].items[|before|] == entry
  {
    var updates := [("parsedDocuments", Arr(before + [entry]))];
    Dynamo.UpdatedHoldsUpdates(table, sessionId, createdAt, updates, now);
    assert updates[0].0 != "updatedAt";
    assert (before + [entry])[..|before|] == before;
  }

  /** The appended entry's `text_length` is the length of the extracted text. */
  lemma EntryLength(filename: Value, x: Textract.Extraction)
    ensures Lookup(DocumentEntry(filename, x).fields, "text_length") == Some(Num(|x.text|))
  {
    var f := DocumentEntry(filename, x).fields;
    assert f[0].0 == "filename" && f[1].0 == "method";
    LookupAt(f, 2);
  }
}
