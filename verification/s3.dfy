/**
 `S3Service`: where session documents are stored and how they are found.
 The bucket is a map from object key to blob; listing returns the keys under
 the search prefix as a set.
 */
module S3 {
  import opened Wrappers
  import opened Strings
  import opened Json

  /** An object's body: raw bytes, or the UTF-8 text of a JSON document as `json.dumps` wrote it. */
  datatype Payload = Bytes(data: seq<bv8>) | JsonText(doc: Value)

  /** A stored object and the ContentType it was given, if any. */
  datatype Blob = Blob(payload: Payload, contentType: Option<string>)

  type Store = map<string, Blob>

  /** The prefix `upload_document` uses by default. */
  const UPLOADS: string := "uploads"

  /** `f"{prefix}/{session_id}/{filename}"`. */
  function ObjectKey(prefix: string, sessionId: string, filename: string): string {
    prefix + "/" + sessionId + "/" + filename
  }

  /** `upload_document`: the store with the object written, and the key it was written under. */
  function UploadDocument(
    store: Store, payload: Payload, sessionId: string, filename: string, prefix: string, contentType: Option<string>
  ): (r: (Store, string))
    ensures r.1 == ObjectKey(prefix, sessionId, filename)
    ensures r.1 in r.0 && r.0 == store[r.1 := r.0[r.1]]
    ensures r.0[r.1].payload == payload
    ensures r.0[r.1].contentType.Some? <==> contentType.Some? && contentType.value != ""
  {
    var key := ObjectKey(prefix, sessionId, filename);
    var extra := if contentType.Some? && contentType.value != "" then contentType else None;
    (store[key := Blob(payload, extra)], key)
  }

  /** `get_document`: the object's body; reading a missing key raises NoSuchKey. */
  function GetDocument(store: Store, key: string): (r: Result<Payload>)
    ensures r.Ok? <==> key in store
    ensures r.Ok? ==> r.value == store[key].payload
  {
    if key in store then Ok(store[key].payload) else Err("An error occurred (NoSuchKey) when calling the GetObject operation: The specified key does not exist.")
  }

  /** What was uploaded is what is read back. */
  lemma UploadThenGet(store: Store, payload: Payload, sessionId: string, filename: string, prefix: string, contentType: Option<string>)
    ensures var (store', key) := UploadDocument(store, payload, sessionId, filename, prefix, contentType);
      GetDocument(store', key) == Ok(payload)
  {
  }

  /** An upload leaves every other object as it was. */
  lemma UploadKeepsOthers(store: Store, payload: Payload, sessionId: string, filename: string, prefix: string, contentType: Option<string>, other: string)
    requires other != ObjectKey(prefix, sessionId, filename)
    ensures GetDocument(UploadDocument(store, payload, sessionId, filename, prefix, contentType).0, other) == GetDocument(store, other)
  {
  }

  /** The search prefix of `list_session_files`: uploads when no prefix is given. */
  function ListPrefix(sessionId: string, prefix: string): string {
    if prefix != "" then prefix + "/" + sessionId + "/" else UPLOADS + "/" + sessionId + "/"
  }

  /** `list_session_files`: every key under the search prefix. */
  function ListSessionFiles(store: Store, sessionId: string, prefix: string): (keys: set<string>)
    ensures forall k :: k in keys <==> k in store && ListPrefix(sessionId, prefix) <= k
  {
    set k | k in store && ListPrefix(sessionId, prefix) <= k
  }

  /** A document uploaded under a prefix and session is listed for that prefix and session. */
  lemma UploadIsListed(store: Store, payload: Payload, sessionId: string, filename: string, prefix: string, contentType: Option<string>)
    requires prefix != ""
    ensures var (store', key) := UploadDocument(store, payload, sessionId, filename, prefix, contentType);
      ListPrefix(sessionId, prefix) <= key && key in ListSessionFiles(store', sessionId, prefix)
  {
    var key := ObjectKey(prefix, sessionId, filename);
    assert key == ListPrefix(sessionId, prefix) + filename;
  }

  /** Listing with no prefix finds what was uploaded with the default prefix. */
  lemma DefaultUploadIsListed(store: Store, payload: Payload, sessionId: string, filename: string, contentType: Option<string>)
    ensures var (store', key) := UploadDocument(store, payload, sessionId, filename, UPLOADS, contentType);
      key in ListSessionFiles(store', sessionId, "")
  {
    var key := ObjectKey(UPLOADS, sessionId, filename);
    assert key == ListPrefix(sessionId, "") + filename;
  }
}
