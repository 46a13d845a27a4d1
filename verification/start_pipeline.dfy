/**
 The `start_pipeline` function: POST starts a Step Functions execution of the
 intelligence pipeline, GET reports the status of one by its execution id.
 */
module StartPipelineHandler {
  import opened Wrappers
  import opened Json
  import Text = Strings
  import opened Responses
  import opened Lambda

  /** `lambda_handler`: "GET" asks for a status; any other method, or none, starts a pipeline. */
  function Handle(w: World, event: Value, env: Env): (r: (World, Reply))
    ensures !event.Obj? ==> r == (w, Raised(NOT_A_DICT))
    ensures event.Obj? && GetOr(event.fields, "httpMethod", Str("POST")) == Str("GET") ==> r == (w, Status(event, env))
    ensures event.Obj? && GetOr(event.fields, "httpMethod", Str("POST")) != Str("GET") ==> r == Start(w, event, env)
  {
    match Get(event, "httpMethod", Str("POST"))
    case None => (w, Raised(NOT_A_DICT))
    case Some(m) => if m == Str("GET") then (w, Status(event, env)) else Start(w, event, env)
  }

  /* ---------------------------------------------------------------------- */
  /* Starting                                                               */
  /* ---------------------------------------------------------------------- */

  /** The state machine input: the company name, and the URL and documents or their defaults. */
  function PipelineInput(companyName: Value, body: seq<(string, Value)>): Value {
    Obj([ ("companyName", companyName),
          ("companyUrl", GetOr(body, "companyUrl", Str(""))),
          ("documents", GetOr(body, "documents", Arr([]))) ])
  }

  /** `execution_arn.split(":")[-1]`. */
  function ExecutionId(executionArn: string): string {
    Text.LastSegment(executionArn, ':')
  }

  /** The result of a started execution. */
  function StartedBody(executionArn: string, companyName: Value): seq<(string, Value)> {
    [ ("executionArn", Str(executionArn)),
      ("executionId", Str(ExecutionId(executionArn))),
      ("status", Str("RUNNING")),
      ("companyName", companyName) ]
  }

  /**
   `_start_pipeline`: validates the body, then starts one execution with the
   pipeline input. An execution is recorded exactly when the reply is a 200,
   and the sessions and the bucket are never touched.
   */
  function Start(w: World, event: Value, env: Env): (r: (World, Reply))
    ensures r.0.sessions == w.sessions && r.0.bucket == w.bucket
    ensures w.started <= r.0.started && |r.0.started| <= |w.started| + 1
    ensures r.0.started != w.started <==> r.1.Responded? && r.1.response.statusCode == 200
  {
    match ParseBody(event, env.decode)
    case Err(e) => (w, Responded(BadBody(e)))
    case Ok(body) =>
      match Get(body, "companyName", Null)
      case None => (w, Raised(NOT_A_DICT))
      case Some(name) =>
        if !Truthy(name) then (w, Fail("companyName is required", 400))
        else if env.stateMachineArn.None? || env.stateMachineArn.value == "" then
          (w, Fail("Pipeline not configured (STATE_MACHINE_ARN missing)", 500))
        else
          var machine := env.stateMachineArn.value;
          var input := PipelineInput(name, body.fields);
          match env.startExecution(machine, input)
          case Err(e) => (w, Crash("Failed to start pipeline", e))
          case Ok(arn) => (w.(started := w.started + [(machine, input)]), Succeed(Obj(StartedBody(arn, name))))
  }

  /** A missing or falsy company name is a 400 and starts nothing. */
  lemma StartNeedsName(w: World, event: Value, env: Env, body: seq<(string, Value)>)
    requires ParseBody(event, env.decode) == Ok(Obj(body))
    requires !Truthy(GetOr(body, "companyName", Null))
    ensures Start(w, event, env) == (w, Fail("companyName is required", 400))
  {
  }

  /** Without a state machine configured the handler answers 500 before calling Step Functions. */
  lemma StartNeedsMachine(w: World, event: Value, env: Env, body: seq<(string, Value)>)
    requires ParseBody(event, env.decode) == Ok(Obj(body))
    requires Truthy(GetOr(body, "companyName", Null))
    requires env.stateMachineArn.None? || env.stateMachineArn == Some("")
    ensures Start(w, event, env) == (w, Fail("Pipeline not configured (STATE_MACHINE_ARN missing)", 500))
  {
  }

  /**
   A started pipeline receives the company name with the URL defaulting to ""
   and the documents to [], and the reply names the execution by the last
   segment of its ARN with status RUNNING.
   */
  lemma StartedSpec(w: World, event: Value, env: Env, body: seq<(string, Value)>, arn: string)
    requires ParseBody(event, env.decode) == Ok(Obj(body))
    requires Truthy(GetOr(body, "companyName", Null))
    requires env.stateMachineArn.Some? && env.stateMachineArn.value != ""
    requires env.startExecution(env.stateMachineArn.value, PipelineInput(GetOr(body, "companyName", Null), body)) == Ok(arn)
    ensures var (w', reply) := Start(w, event, env);
      var input := w'.started[|w.started|].1;
      && |w'.started| == |w.started| + 1
      && w'.started[|w.started|].0 == env.stateMachineArn.value
      && input.Obj? && |input.fields| == 3
      && input.fields[0] == ("companyName", GetOr(body, "companyName", Null))
      && input.fields[1] == ("companyUrl", if Lookup(body, "companyUrl").Some? then Lookup(body, "companyUrl").value else Str(""))
      && input.fields[2] == ("documents", if Lookup(body, "documents").Some? then Lookup(body, "documents").value else Arr([]))
      && reply.Responded? && reply.response.statusCode == 200 && reply.response.body.Obj?
      && Lookup(reply.response.body.fields, "executionId") == Some(Str(ExecutionId(arn)))
      && Lookup(reply.response.body.fields, "status") == Some(Str("RUNNING"))
  {
    var fields := StartedBody(arn, GetOr(body, "companyName", Null));
    assert fields[0].0 == "executionArn" && fields[1].0 == "executionId";
    LookupAt(fields, 2);
  }

  /* ---------------------------------------------------------------------- */
  /* Status                                                                 */
  /* ---------------------------------------------------------------------- */

  /** The statuses whose result carries `error` and `cause`. */
  const FAILURE_STATUSES: seq<string> := ["FAILED", "TIMED_OUT", "ABORTED"]

  /** `f"{state_machine_arn.replace(':stateMachine:', ':execution:')}:{execution_id}"`. */
  function ExecutionArn(stateMachineArn: string, executionId: Value): string {
    Text.ReplaceAll(stateMachineArn, ":stateMachine:", ":execution:") + ":" + Display(executionId)
  }

  /** The fields every status result has. */
  function StatusBase(x: Execution, executionId: Value): seq<(string, Value)> {
    [ ("executionArn", Str(x.executionArn)),
      ("executionId", executionId),
      ("status", Str(x.status)),
      ("startDate", Str(x.startDate)) ]
  }

  /**
   The fields that depend on the status: the decoded output (default "{}") of
   a SUCCEEDED execution, the error and cause of a failed one, nothing otherwise.
   */
  function StatusExtra(x: Execution, decode: string -> Result<Value>): (r: Result<seq<(string, Value)>>)
    ensures r.Ok? && x.status == "SUCCEEDED" ==> |r.value| == 1 && r.value[0].0 == "output"
    ensures r.Ok? && x.status in FAILURE_STATUSES ==> |r.value| == 2 && r.value[0].0 == "error" && r.value[1].0 == "cause"
    ensures x.status != "SUCCEEDED" && x.status !in FAILURE_STATUSES ==> r == Ok([])
    ensures x.status != "SUCCEEDED" ==> r.Ok?
  {
    if x.status == "SUCCEEDED" then
      match decode(x.output.GetOr("{}"))
      case Err(e) => Err(e)
      case Ok(v) => Ok([("output", v)])
    else if x.status in FAILURE_STATUSES then
      Ok([("error", Str(x.error.GetOr("Unknown error"))), ("cause", Str(x.cause.GetOr("")))])
    else Ok([])
  }

  /** `_get_pipeline_status`: describes the execution the id names under the configured state machine. */
  function Status(event: Value, env: Env): (r: Reply)
    ensures r.Responded? && r.response.statusCode == 200 ==> r.response.body.Obj? && |r.response.body.fields| >= 4
  {
    match Get(event, "pathParameters", Obj([]))
    case None => Raised(NOT_A_DICT)
    case Some(params) =>
      match Get(params, "executionId", Null)
      case None => Raised(NOT_A_DICT)
      case Some(id) =>
        if !Truthy(id) then Fail("executionId path parameter is required", 400)
        else Described(env.describe(ExecutionArn(env.stateMachineArn.GetOr(""), id)), id, env.decode)
  }

  /** The reply for what `describe_execution` answered. */
  function Described(described: Result<Execution>, executionId: Value, decode: string -> Result<Value>): (r: Reply)
    ensures r.Responded? && r.response.statusCode == 200 ==> r.response.body.Obj? && |r.response.body.fields| >= 4
  {
    match described
    case Err(e) => Crash("Failed to get pipeline status", e)
    case Ok(x) =>
      match StatusExtra(x, decode)
      case Err(e) => Crash("Failed to get pipeline status", e)
      case Ok(extra) => Succeed(Obj(StatusBase(x, executionId) + extra))
  }

  /** The event API Gateway passes for `GET .../{executionId}`. */
  function StatusRequest(executionId: string): Value {
    Obj([("httpMethod", Str("GET")), ("pathParameters", Obj([("executionId", Str(executionId))]))])
  }

  /** No base field is named like a status-dependent one. */
  lemma BaseLacksExtras(x: Execution, executionId: Value)
    ensures Lookup(StatusBase(x, executionId), "output").None?
    ensures Lookup(StatusBase(x, executionId), "error").None?
    ensures Lookup(StatusBase(x, executionId), "cause").None?
  {
    assert "output"[0] != "status"[0];
  }

  /**
   A status result carries `output` exactly for a SUCCEEDED execution, and
   `error` and `cause` exactly for a FAILED, TIMED_OUT or ABORTED one.
   */
  lemma StatusFieldsSpec(x: Execution, executionId: Value, decode: string -> Result<Value>)
    requires StatusExtra(x, decode).Ok?
    ensures var fields := StatusBase(x, executionId) + StatusExtra(x, decode).value;
      && (Lookup(fields, "output").Some? <==> x.status == "SUCCEEDED")
      && (Lookup(fields, "error").Some? <==> x.status in FAILURE_STATUSES)
      && (Lookup(fields, "cause").Some? <==> x.status in FAILURE_STATUSES)
  {
    var base := StatusBase(x, executionId);
    var extra := StatusExtra(x, decode).value;
    BaseLacksExtras(x, executionId);
    LookupAppend(base, extra, "output");
    LookupAppend(base, extra, "error");
    LookupAppend(base, extra, "cause");
    if x.status in FAILURE_STATUSES {
      assert x.status != "SUCCEEDED";
      assert extra[0].0 != "output" && extra[1].0 != "output";
    }
  }

  /** A failed execution's result reports its error and cause, or "Unknown error" and "". */
  lemma FailedStatusSpec(x: Execution, executionId: Value, decode: string -> Result<Value>)
    requires x.status in FAILURE_STATUSES
    ensures var fields := StatusBase(x, executionId) + StatusExtra(x, decode).value;
      && Lookup(fields, "error") == Some(Str(x.error.GetOr("Unknown error")))
      && Lookup(fields, "cause") == Some(Str(x.cause.GetOr("")))
  {
    var base := StatusBase(x, executionId);
    var extra := StatusExtra(x, decode).value;
    BaseLacksExtras(x, executionId);
    LookupAppend(base, extra, "error");
    LookupAppend(base, extra, "cause");
  }

  /**
   The id a start reports leads back to the execution: for an execution named
   without ':' under the configured machine, rebuilding the ARN from the
   reported id gives the ARN Step Functions returned, and taking the id of the
   rebuilt ARN gives the id back.
   */
  lemma ExecutionArnRoundTrip(stateMachineArn: string, name: string)
    requires ':' !in name
    ensures var arn := Text.ReplaceAll(stateMachineArn, ":stateMachine:", ":execution:") + ":" + name;
      && ExecutionId(arn) == name
      && ExecutionArn(stateMachineArn, Str(ExecutionId(arn))) == arn
  {
    var prefix := Text.ReplaceAll(stateMachineArn, ":stateMachine:", ":execution:");
    assert prefix + ":" + name == prefix + [':'] + name;
    Text.LastSegmentAppend(prefix, ':', name);
  }

  /**
   A status request for the id a start reported describes exactly the started
   execution, whatever Step Functions then says about it.
   */
  lemma StatusFindsStarted(w: World, env: Env, name: string)
    requires env.stateMachineArn.Some? && env.stateMachineArn.value != ""
    requires name != "" && ':' !in name
    ensures var arn := Text.ReplaceAll(env.stateMachineArn.value, ":stateMachine:", ":execution:") + ":" + name;
      Handle(w, StatusRequest(ExecutionId(arn)), env) == (w, Described(env.describe(arn), Str(name), env.decode))
  {
    var arn := Text.ReplaceAll(env.stateMachineArn.value, ":stateMachine:", ":execution:") + ":" + name;
    ExecutionArnRoundTrip(env.stateMachineArn.value, name);
    var event := StatusRequest(name);
    assert event.fields[0].0 == "httpMethod" && event.fields[1].0 == "pathParameters";
    LookupAt(event.fields, 1);
    var params := [("executionId", Str(name))];
    assert Get(event, "pathParameters", Obj([])) == Some(Obj(params));
    assert Get(Obj(params), "executionId", Null) == Some(Str(name));
    assert Handle(w, event, env) == (w, Status(event, env));
  }
}
