/**
 What every Lambda handler shares: the state the handlers act on, the
 services they call, and the replies they build. A handler is a pure
 transition from a world and an API Gateway event to a new world and a reply.
 */
module Lambda {
  import opened Wrappers
  import opened Json
  import Dynamo
  import S3
  import Textract
  import Comprehend
  import Scraper
  import opened Responses

  /** What `describe_execution` reports about a Step Functions execution; `startDate` already in ISO form. */
  datatype Execution = Execution(
    executionArn: string,
    status: string,
    startDate: string,
    output: Option<string>,
    error: Option<string>,
    cause: Option<string>)

  /**
   The state the handlers change: the sessions table, the documents bucket, and
   the executions started so far, as (state machine ARN, input) pairs.
   */
  datatype World = World(sessions: Dynamo.Table, bucket: S3.Store, started: seq<(string, Value)>)

  /**
   Everything a handler calls and cannot be looked into: JSON and base64
   decoding, python-docx, Textract, Comprehend, the web, Step Functions, the
   STATE_MACHINE_ARN setting, and the fresh id and clock reading of this invocation.
   */
  datatype Env = Env(
    decode: string -> Result<Value>,
    decodeBytes: seq<bv8> -> Result<Value>,
    b64decode: Value -> Result<seq<bv8>>,
    docx: S3.Payload -> Result<seq<string>>,
    ocr: string -> Result<seq<Textract.Block>>,
    entities: string -> Option<seq<Comprehend.Entity>>,
    phrases: string -> Option<seq<Comprehend.KeyPhrase>>,
    sentiment: string -> Result<(string, Comprehend.Scores)>,
    mocks: seq<(string, Value)>,
    fetch: string -> Scraper.Fetch,
    origin: string -> string,
    stateMachineArn: Option<string>,
    startExecution: (string, Value) -> Result<string>,
    describe: string -> Result<Execution>,
    newId: string,
    now: string)

  /** The exception `.get` raises on a value that is not a dict. */
  const NOT_A_DICT: string := "AttributeError: object has no attribute 'get'"

  /** A reply with `error_response(message, status)` and no details. */
  function Fail(message: string, status: int): Reply {
    Responded(ErrorResponse(message, status, Null))
  }

  /** A 500 reply carrying the exception text as details. */
  function Crash(message: string, error: string): Reply {
    Responded(ErrorResponse(message, 500, Str(error)))
  }

  /** A reply with `success_response(body)`. */
  function Succeed(body: Value): Reply {
    Responded(SuccessResponse(body, 200))
  }

  /** A successful reply's body fields. */
  predicate SucceededWith(r: Reply, fields: seq<(string, Value)>) {
    r.Responded? && r.response.statusCode == 200 && r.response.body == Obj(fields)
  }

  /** `f"Session {session_id} not found"`. */
  function NotFound(sessionId: Value): string {
    "Session " + Display(sessionId) + " not found"
  }

  /** `session.get(key, default)` on an item read from the table. */
  function ItemGet(item: Dynamo.Item, key: string, default: Value): (v: Value)
    ensures key in item ==> v == item[key]
    ensures key !in item ==> v == default
  {
    if key in item then item[key] else default
  }

  /** `session["createdAt"]`: a KeyError, whose text is the quoted key, when the item lacks it. */
  function CreatedAt(item: Dynamo.Item): (r: Result<Value>)
    ensures r.Ok? <==> "createdAt" in item
    ensures r.Ok? ==> r.value == item["createdAt"]
  {
    if "createdAt" in item then Ok(item["createdAt"]) else Err("'createdAt'")
  }

  /**
   `db.update_session(session_id, session["createdAt"], updates)` on the
   session item just read.
   */
  function UpdateRead(table: Dynamo.Table, sessionId: Value, item: Dynamo.Item, updates: seq<(string, Value)>, now: string): (r: Result<Dynamo.Table>)
    requires DistinctKeys(updates)
    ensures "createdAt" !in item ==> r.Err?
  {
    match CreatedAt(item)
    case Err(e) => Err(e)
    case Ok(createdAt) =>
      match Dynamo.UpdateSession(table, sessionId, createdAt, updates, now)
      case Err(e) => Err(e)
      case Ok((table', _)) => Ok(table')
  }

  /** Any item `get_session` returns has its creation time, so the update goes to that record. */
  lemma UpdateReadSpec(table: Dynamo.Table, sessionId: string, updates: seq<(string, Value)>, now: string)
    requires DistinctKeys(updates) && sessionId != ""
    requires forall i :: 0 <= i < |updates| ==> updates[i].0 !in Dynamo.KEY_ATTRIBUTES
    requires Dynamo.AllSerializable(updates)
    requires Dynamo.Latest(table, sessionId).Some? && Dynamo.Latest(table, sessionId).value.createdAt != ""
    ensures var rec := Dynamo.Latest(table, sessionId).value;
      UpdateRead(table, Str(sessionId), Dynamo.FullItem(rec), updates, now)
      == Ok(Dynamo.Put(table, Dynamo.Updated(table, sessionId, rec.createdAt, updates, now)))
  {
    var rec := Dynamo.Latest(table, sessionId).value;
    Dynamo.UpdateSessionSpec(table, sessionId, rec.createdAt, updates, now);
  }
}
