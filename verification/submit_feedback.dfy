/**
 The `submit_feedback` function: stores the interviewee's corrections,
 selected questions and notes on the session named in the path.
 */
module SubmitFeedbackHandler {
  import opened Wrappers
  import opened Json
  import Dynamo
  import opened Responses
  import opened Lambda

  const NO_PATH_ID: string := "sessionId path parameter is required"
  const FAILED: string := "Failed to store feedback"

  /** `event.get("pathParameters", {}).get("sessionId")`; `None` where a `.get` meets a value that is not a dict. */
  function PathSessionId(event: Value): (r: Option<Value>)
    ensures event.Obj? && Lookup(event.fields, "pathParameters").None? ==> r == Some(Null)
    ensures !event.Obj? ==> r.None?
  {
    match Get(event, "pathParameters", Obj([]))
    case None => None
    case Some(params) => Get(params, "sessionId", Null)
  }

  /** The result: the session, FEEDBACK_RECEIVED and the two counts. */
  function ResultFields(sessionId: Value, corrections: nat, selected: nat): seq<(string, Value)> {
    [ ("sessionId", sessionId),
      ("status", Str("FEEDBACK_RECEIVED")),
      ("corrections_count", Num(corrections)),
      ("selected_questions_count", Num(selected)) ]
  }

  /**
   `lambda_handler`: the path's session id is checked before the body is
   parsed; only the sessions table can change.
   */
  function Handle(w: World, event: Value, env: Env): (r: (World, Reply))
    ensures r.0.bucket == w.bucket && r.0.started == w.started
  {
    match PathSessionId(event)
    case None => (w, Raised(NOT_A_DICT))
    case Some(sessionId) =>
      if !Truthy(sessionId) then (w, Fail(NO_PATH_ID, 400))
      else
        match ParseBody(event, env.decode)
        case Err(e) => (w, Responded(BadBody(e)))
        case Ok(body) =>
          if !body.Obj? then (w, Raised(NOT_A_DICT))
          else
            var corrections := GetOr(body.fields, "corrections", Arr([]));
            var selected := GetOr(body.fields, "selectedQuestions", Arr([]));
            var notes := GetOr(body.fields, "notes", Str(""));
            var (sessions, reply) := Submit(w.sessions, sessionId, corrections, selected, notes, env.now);
            (w.(sessions := sessions), reply)
  }

  /**
   The body of the handler's `try`: every failure is a 500 "Failed to store
   feedback". The counts are taken after the write, so a value without a
   length is a 500 for feedback that was stored; the table changes only for a
   session that exists.
   */
  function Submit(table: Dynamo.Table, sessionId: Value, corrections: Value, selected: Value, notes: Value, now: string): (r: (Dynamo.Table, Reply))
    ensures r.0 != table ==> Dynamo.GetSession(table, sessionId).Ok? && Dynamo.GetSession(table, sessionId).value.Some?
    ensures r.0 != table && Size(corrections).Some? && Size(selected).Some? ==>
      SucceededWith(r.1, ResultFields(sessionId, Size(corrections).value, Size(selected).value))
  {
    match Dynamo.GetSession(table, sessionId)
    case Err(e) => (table, Crash(FAILED, e))
    case Ok(None) => (table, Fail(NotFound(sessionId), 404))
    case Ok(Some(item)) =>
      match CreatedAt(item)
      case Err(e) => (table, Crash(FAILED, e))
      case Ok(createdAt) =>
        match Dynamo.StoreFeedback(table, sessionId, createdAt, corrections, selected, notes, now, now)
        case Err(e) => (table, Crash(FAILED, e))
        case Ok((table', _)) => (table', Counted(sessionId, corrections, selected))
  }

  /** The reply after the write: the counts, or a 500 when either value has no length. */
  function Counted(sessionId: Value, corrections: Value, selected: Value): (r: Reply)
    ensures Size(corrections).Some? && Size(selected).Some? <==> r.Responded? && r.response.statusCode == 200
    ensures r.Responded? && r.response.statusCode == 200 ==>
      SucceededWith(r, ResultFields(sessionId, Size(corrections).value, Size(selected).value))
  {
    match (Size(corrections), Size(selected))
    case (Some(c), Some(q)) => Succeed(Obj(ResultFields(sessionId, c, q)))
    case _ => Crash(FAILED, "object has no len()")
  }

  /** A missing or falsy path session id is a 400 whatever the body holds, and nothing changes. */
  lemma FeedbackNeedsPathId(w: World, event: Value, env: Env)
    requires event.Obj?
    requires GetOr(event.fields, "pathParameters", Obj([])).Obj?
    requires !Truthy(GetOr(GetOr(event.fields, "pathParameters", Obj([])).fields, "sessionId", Null))
    ensures Handle(w, event, env) == (w, Fail(NO_PATH_ID, 400))
  {
  }

  /** With a path session id and a dict body, missing fields default to `[]`, `[]` and "". */
  lemma FeedbackDefaults(w: World, event: Value, env: Env, sessionId: Value, body: seq<(string, Value)>)
    requires PathSessionId(event) == Some(sessionId) && Truthy(sessionId)
    requires ParseBody(event, env.decode) == Ok(Obj(body))
    requires Lookup(body, "corrections").None? && Lookup(body, "selectedQuestions").None? && Lookup(body, "notes").None?
    ensures var (sessions, reply) := Submit(w.sessions, sessionId, Arr([]), Arr([]), Str(""), env.now);
      Handle(w, event, env) == (w.(sessions := sessions), reply)
  {
  }

  /** Feedback for a session the table does not hold is a 404, and nothing is written. */
  lemma UnknownSessionIs404(table: Dynamo.Table, sessionId: string, corrections: Value, selected: Value, notes: Value, now: string)
    requires sessionId != ""
    requires forall i :: 0 <= i < |table| ==> table[i].sessionId != sessionId
    ensures Submit(table, Str(sessionId), corrections, selected, notes, now) == (table, Fail(NotFound(Str(sessionId)), 404))
  {
    match Dynamo.GetSession(table, Str(sessionId))
    case Ok(Some(item)) =>
      assert false;
    case _ =>
  }

  /**
   For a session whose newest record has a creation time, the record is
   updated with the feedback (stamped with the time of the call) and status
   FEEDBACK_RECEIVED, whatever the feedback's values as long as they hold no
   float; only then are the corrections and the selected questions counted.
   */
  lemma SubmitSpec(table: Dynamo.Table, sessionId: string, corrections: Value, selected: Value, notes: Value, now: string)
    requires sessionId != ""
    requires Dynamo.Latest(table, sessionId).Some? && Dynamo.Latest(table, sessionId).value.createdAt != ""
    requires Dynamo.Serializable(Dynamo.Feedback(corrections, selected, notes, now))
    ensures var rec := Dynamo.Latest(table, sessionId).value;
      var feedback := Dynamo.Feedback(corrections, selected, notes, now);
      var (table', reply) := Submit(table, Str(sessionId), corrections, selected, notes, now);
      && table' == Dynamo.Put(table, Dynamo.Updated(table, sessionId, rec.createdAt, Dynamo.FeedbackUpdates(feedback), now))
      && reply == Counted(Str(sessionId), corrections, selected)
  {
    var rec := Dynamo.Latest(table, sessionId).value;
    var feedback := Dynamo.Feedback(corrections, selected, notes, now);
    assert Dynamo.GetSession(table, Str(sessionId)) == Ok(Some(Dynamo.FullItem(rec)));
    assert CreatedAt(Dynamo.FullItem(rec)) == Ok(Str(rec.createdAt));
    Dynamo.UpdateSessionSpec(table, sessionId, rec.createdAt, Dynamo.FeedbackUpdates(feedback), now);
  }

  /** Feedback holding a float (as `json.loads` gives for `1.5`) is refused by the write: a 500, and nothing changes. */
  lemma FloatFeedbackIs500(table: Dynamo.Table, sessionId: string, corrections: Value, selected: Value, notes: Value, now: string)
    requires sessionId != ""
    requires Dynamo.Latest(table, sessionId).Some? && Dynamo.Latest(table, sessionId).value.createdAt != ""
    requires !Dynamo.Serializable(Dynamo.Feedback(corrections, selected, notes, now))
    ensures Submit(table, Str(sessionId), corrections, selected, notes, now) == (table, Crash(FAILED, Dynamo.FLOAT_ERROR))
  {
    var rec := Dynamo.Latest(table, sessionId).value;
    assert Dynamo.GetSession(table, Str(sessionId)) == Ok(Some(Dynamo.FullItem(rec)));
    assert CreatedAt(Dynamo.FullItem(rec)) == Ok(Str(rec.createdAt));
    var feedback := Dynamo.Feedback(corrections, selected, notes, now);
    Dynamo.UpdateRefusesFloat(table, Str(sessionId), Str(rec.createdAt), Dynamo.FeedbackUpdates(feedback), now, 0);
  }

  /** The counts are the lengths of the lists as given, with `[]` counting zero. */
  lemma CountsSpec(sessionId: Value, corrections: seq<Value>, selected: seq<Value>)
    ensures var f := ResultFields(sessionId, |corrections|, |selected|);
      && Lookup(f, "corrections_count") == Some(Num(|corrections|))
      && Lookup(f, "selected_questions_count") == Some(Num(|selected|))
  {
    var f := ResultFields(sessionId, |corrections|, |selected|);
    assert f[0].0 == "sessionId" && f[1].0 == "status";
    LookupAt(f, 2);
    assert f[2].0 == "corrections_count";
    LookupAt(f, 3);
  }
}
