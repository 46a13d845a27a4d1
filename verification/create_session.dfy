/**
 The `create_session` function: validates the company name and creates a new
 interview session with the invocation's fresh id and time.
 */
module CreateSessionHandler {
  import opened Wrappers
  import opened Json
  import Dynamo
  import opened Responses
  import opened Lambda

  /** The 201 envelope, with the item's `sessionId` repeated at top level for Step Functions. */
  function Created(fields: seq<(string, Value)>): Response {
    Response(201, CORS_HEADERS, Obj(fields), Some(GetOr(fields, "sessionId", Null)))
  }

  /** `lambda_handler`: only the sessions table changes, and only on a 201. */
  function Handle(w: World, event: Value, env: Env): (r: (World, Reply))
    ensures r.0.bucket == w.bucket && r.0.started == w.started
    ensures r.0 != w ==> r.1.Responded? && r.1.response.statusCode == 201
  {
    match ParseBody(event, env.decode)
    case Err(e) => (w, Responded(BadBody(e)))
    case Ok(body) =>
      match Get(body, "companyName", Null)
      case None => (w, Raised(NOT_A_DICT))
      case Some(name) =>
        if !Truthy(name) then (w, Fail("companyName is required", 400))
        else
          var url := GetOr(body.fields, "companyUrl", Str(""));
          var metadata := GetOr(body.fields, "metadata", Obj([]));
          match Dynamo.CreateSession(w.sessions, env.newId, env.now, name, url, metadata)
          case Err(e) => (w, Crash("Failed to create session", e))
          case Ok((table', fields)) => (w.(sessions := table'), Responded(Created(fields)))
  }

  /** A missing or falsy company name is a 400 and creates nothing. */
  lemma CreateNeedsName(w: World, event: Value, env: Env, body: seq<(string, Value)>)
    requires ParseBody(event, env.decode) == Ok(Obj(body))
    requires !Truthy(GetOr(body, "companyName", Null))
    ensures Handle(w, event, env) == (w, Fail("companyName is required", 400))
  {
  }

  /**
   Metadata holding a float (as `json.loads` gives for `1.5`) is refused by
   `put_item`: a 500, and nothing is created.
   */
  lemma FloatIs500(w: World, event: Value, env: Env, body: seq<(string, Value)>)
    requires ParseBody(event, env.decode) == Ok(Obj(body))
    requires Truthy(GetOr(body, "companyName", Null))
    requires !Dynamo.Serializable(Or(GetOr(body, "metadata", Obj([])), Obj([])))
    ensures Handle(w, event, env) == (w, Crash("Failed to create session", Dynamo.FLOAT_ERROR))
  {
    var metadata := GetOr(body, "metadata", Obj([]));
    Dynamo.NewSessionSerializable(env.newId, env.now, GetOr(body, "companyName", Null), GetOr(body, "companyUrl", Str("")), metadata);
  }

  /**
   With a company name and no float among the inputs, the reply is a 201 whose
   top-level `sessionId` and body `sessionId` are both the new id, and the body
   is the created item: status CREATED, the URL or "", the metadata or `{}`.
   */
  lemma CreateSpec(w: World, event: Value, env: Env, body: seq<(string, Value)>)
    requires ParseBody(event, env.decode) == Ok(Obj(body))
    requires Truthy(GetOr(body, "companyName", Null))
    requires Dynamo.Serializable(GetOr(body, "companyName", Null))
    requires Dynamo.Serializable(Or(GetOr(body, "companyUrl", Str("")), Str("")))
    requires Dynamo.Serializable(Or(GetOr(body, "metadata", Obj([])), Obj([])))
    ensures var (w', reply) := Handle(w, event, env);
      var url := GetOr(body, "companyUrl", Str(""));
      var metadata := GetOr(body, "metadata", Obj([]));
      var fields := Dynamo.NewSession(env.newId, env.now, GetOr(body, "companyName", Null), url, metadata);
      && reply == Responded(Response(201, CORS_HEADERS, Obj(fields), Some(Str(env.newId))))
      && Lookup(fields, "sessionId") == Some(Str(env.newId))
      && Lookup(fields, "status") == Some(Str("CREATED"))
      && Lookup(fields, "companyUrl") == Some(if Truthy(url) then url else Str(""))
      && Lookup(fields, "metadata") == Some(if Truthy(metadata) then metadata else Obj([]))
  {
    var url := GetOr(body, "companyUrl", Str(""));
    var metadata := GetOr(body, "metadata", Obj([]));
    var fields := Dynamo.NewSession(env.newId, env.now, GetOr(body, "companyName", Null), url, metadata);
    HandleStores(w, event, env, body);
    Dynamo.NewSessionLookups(env.newId, env.now, GetOr(body, "companyName", Null), url, metadata);
  }

  /** With a serializable name, URL and metadata, `put_item` succeeds and the reply is the 201 for the new item. */
  lemma HandleStores(w: World, event: Value, env: Env, body: seq<(string, Value)>)
    requires ParseBody(event, env.decode) == Ok(Obj(body))
    requires Truthy(GetOr(body, "companyName", Null))
    requires Dynamo.Serializable(GetOr(body, "companyName", Null))
    requires Dynamo.Serializable(Or(GetOr(body, "companyUrl", Str("")), Str("")))
    requires Dynamo.Serializable(Or(GetOr(body, "metadata", Obj([])), Obj([])))
    ensures var c := Dynamo.CreateSession(w.sessions, env.newId, env.now, GetOr(body, "companyName", Null),
        GetOr(body, "companyUrl", Str("")), GetOr(body, "metadata", Obj([])));
      && c.Ok?
      && Handle(w, event, env) == (w.(sessions := c.value.0), Responded(Created(c.value.1)))
  {
    Dynamo.NewSessionSerializable(env.newId, env.now, GetOr(body, "companyName", Null),
      GetOr(body, "companyUrl", Str("")), GetOr(body, "metadata", Obj([])));
  }

  /**
   Under a fresh id, what the handler returns is what `get_session` then finds
   for that id.
   */
  lemma CreateThenGet(w: World, event: Value, env: Env, body: seq<(string, Value)>)
    requires ParseBody(event, env.decode) == Ok(Obj(body))
    requires Truthy(GetOr(body, "companyName", Null))
    requires Dynamo.KeysUnique(w.sessions) && env.newId != ""
    requires forall i :: 0 <= i < |w.sessions| ==> w.sessions[i].sessionId != env.newId
    requires Dynamo.Serializable(GetOr(body, "companyName", Null))
    requires Dynamo.Serializable(Or(GetOr(body, "companyUrl", Str("")), Str("")))
    requires Dynamo.Serializable(Or(GetOr(body, "metadata", Obj([])), Obj([])))
    ensures var (w', reply) := Handle(w, event, env);
      && Dynamo.KeysUnique(w'.sessions)
      && reply.Responded? && reply.response.body.Obj?
      && Dynamo.GetSession(w'.sessions, Str(env.newId)) == Ok(Some(Dynamo.ToItem(reply.response.body.fields)))
  {
    var url := GetOr(body, "companyUrl", Str(""));
    var metadata := GetOr(body, "metadata", Obj([]));
    Dynamo.NewSessionSerializable(env.newId, env.now, GetOr(body, "companyName", Null), url, metadata);
    Dynamo.CreateThenGet(w.sessions, env.newId, env.now, GetOr(body, "companyName", Null), url, metadata);
  }
}
