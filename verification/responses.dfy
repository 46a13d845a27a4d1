/**
 `response_helpers`: the API Gateway envelope every handler returns, and the
 request-body parsing every handler starts with. A response body is kept as
 the JSON value that `json.dumps` would serialise.
 */
module Responses {
  import opened Wrappers
  import opened Json

  /** The CORS headers sent with every response. */
  const CORS_HEADERS: seq<(string, string)> := [
    ("Content-Type", "application/json"),
    ("Access-Control-Allow-Origin", "*"),
    ("Access-Control-Allow-Methods", "GET,POST,PUT,DELETE,OPTIONS"),
    ("Access-Control-Allow-Headers", "Content-Type,X-Amz-Date,Authorization,X-Api-Key")
  ]

  /**
   An API Gateway proxy response. `sessionId` is the extra top-level key the
   create-session handler adds for Step Functions; no other handler sets it.
   */
  datatype Response = Response(statusCode: int, headers: seq<(string, string)>, body: Value, sessionId: Option<Value>)

  /** What a handler invocation ends in: a response, or an exception that escapes the handler. */
  datatype Reply = Responded(response: Response) | Raised(error: string)

  /** `success_response(body, status_code)`. */
  function SuccessResponse(body: Value, status: int): (r: Response)
    ensures r.statusCode == status && r.headers == CORS_HEADERS && r.body == body && r.sessionId.None?
  {
    Response(status, CORS_HEADERS, body, None)
  }

  /** The error body: `error` and `statusCode`, then `details` only when it is truthy. */
  function ErrorBody(message: string, status: int, details: Value): Value {
    Obj([("error", Str(message)), ("statusCode", Num(status))] + (if Truthy(details) then [("details", details)] else []))
  }

  /** `error_response(message, status_code, details)`. */
  function ErrorResponse(message: string, status: int, details: Value): (r: Response)
    ensures r.statusCode == status && r.headers == CORS_HEADERS && r.sessionId.None?
  {
    Response(status, CORS_HEADERS, ErrorBody(message, status, details), None)
  }

  /** A reply that is an error response with this status and message. */
  predicate IsError(r: Reply, status: int, message: string) {
    r.Responded? && r.response.statusCode == status && r.response.body.Obj?
    && Lookup(r.response.body.fields, "error") == Some(Str(message))
  }

  /**
   The error body names the message and repeats the envelope's status code; it
   carries `details` exactly when the details are truthy, and then verbatim.
   */
  lemma ErrorResponseSpec(message: string, status: int, details: Value)
    ensures var r := ErrorResponse(message, status, details);
      && r.body.Obj?
      && Lookup(r.body.fields, "error") == Some(Str(message))
      && Lookup(r.body.fields, "statusCode") == Some(Num(r.statusCode))
      && (Lookup(r.body.fields, "details").Some? <==> Truthy(details))
      && (Truthy(details) ==> Lookup(r.body.fields, "details") == Some(details))
      && |r.body.fields| == if Truthy(details) then 3 else 2
  {
    var fields := ErrorBody(message, status, details).fields;
    assert fields[0].0 == "error" && fields[1].0 == "statusCode";
    if Truthy(details) {
      assert fields[2].0 == "details";
      LookupAt(fields, 2);
    }
  }

  /** An error reply built by `error_response` is recognised as that error. */
  lemma ErrorIsError(message: string, status: int, details: Value)
    ensures IsError(Responded(ErrorResponse(message, status, details)), status, message)
  {
    ErrorResponseSpec(message, status, details);
  }

  /**
   `parse_body(event)`: the event's `body` (default ""), refused when falsy,
   decoded when it is a string, and returned unchanged otherwise. `decode` is
   `json.loads`. An event that is not a dict fails on `.get`, inside the same
   `try` the handlers wrap around this call.
   */
  function ParseBody(event: Value, decode: string -> Result<Value>): (r: Result<Value>)
    ensures !event.Obj? ==> r.Err?
    ensures event.Obj? ==> var body := GetOr(event.fields, "body", Str(""));
      && (!Truthy(body) ==> r == Err("Request body is required"))
      && (Truthy(body) && body.Str? ==> r == decode(body.s))
      && (Truthy(body) && !body.Str? ==> r == Ok(body))
  {
    if !event.Obj? then Err("'" + "event' object has no attribute 'get'")
    else
      var body := GetOr(event.fields, "body", Str(""));
      if !Truthy(body) then Err("Request body is required")
      else if body.Str? then decode(body.s)
      else Ok(body)
  }

  /** A body is parsed back to the value it encodes, whether it arrives as JSON text or already decoded. */
  lemma ParseBodyRoundTrip(v: Value, encode: Value -> string, decode: string -> Result<Value>, asText: bool)
    requires Truthy(v) && !v.Str?
    requires decode(encode(v)) == Ok(v) && encode(v) != ""
    ensures ParseBody(Obj([("body", if asText then Str(encode(v)) else v)]), decode) == Ok(v)
  {
  }

  /** The 400 a handler answers when its body cannot be parsed. */
  function BadBody(error: string): Response {
    ErrorResponse("Invalid request body: " + error, 400, Null)
  }
}
