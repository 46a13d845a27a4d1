/**
 The `generate_brief` function: loads a session, runs the generation chain
 profile → questions → brief → packet, stores brief and packet in the bucket
 and marks the session READY.
 */
module GenerateBriefHandler {
  import opened Wrappers
  import opened Json
  import Dynamo
  import S3
  import Bedrock
  import opened Responses
  import opened Lambda

  /**
   The session id: `body.sessionId` when truthy, otherwise
   `body.sessionResult.sessionId` as Step Functions passes it. `None` where a
   `.get` meets a value that is not a dict.
   */
  function SessionIdOf(body: Value): (r: Option<Value>)
    ensures body.Obj? && Truthy(GetOr(body.fields, "sessionId", Null)) ==> r == Some(GetOr(body.fields, "sessionId", Null))
    ensures body.Obj? && !Truthy(GetOr(body.fields, "sessionId", Null)) ==>
      r == Get(GetOr(body.fields, "sessionResult", Obj([])), "sessionId", Null)
    ensures !body.Obj? ==> r.None?
  {
    match Get(body, "sessionId", Null)
    case None => None
    case Some(direct) =>
      if Truthy(direct) then Some(direct)
      else Get(GetOr(body.fields, "sessionResult", Obj([])), "sessionId", Null)
  }

  const BRIEF_FILE: string := "interviewer_brief.json"
  const PACKET_FILE: string := "interviewee_packet.json"
  const JSON_TYPE: Option<string> := Some("application/json")

  /** The updates the handler writes to the session. */
  function BriefUpdates(brief: Value, packet: Value): (u: seq<(string, Value)>)
    ensures DistinctKeys(u)
  {
    [("interviewerBrief", brief), ("intervieweePacket", packet), ("status", Str("READY"))]
  }

  /** The result: the session, READY, the brief's section names and the number of questions. */
  function ResultFields(sessionId: Value, brief: Value, questions: Value): seq<(string, Value)>
    requires brief.Obj? && questions.Arr?
  {
    [ ("sessionId", sessionId),
      ("status", Str("READY")),
      ("brief_sections", Strings(Keys(brief.fields))),
      ("questions_count", Num(|questions.items|)) ]
  }

  /** The bucket with the brief stored under `briefs/` and then the packet under `packets/`. */
  function StoreBoth(bucket: S3.Store, sessionId: Value, brief: Value, packet: Value): S3.Store {
    var (b1, _) := S3.UploadDocument(bucket, S3.JsonText(brief), Display(sessionId), BRIEF_FILE, "briefs", JSON_TYPE);
    S3.UploadDocument(b1, S3.JsonText(packet), Display(sessionId), PACKET_FILE, "packets", JSON_TYPE).0
  }

  /** `lambda_handler`: nothing is started, and nothing changes unless a session was found. */
  function Handle(w: World, event: Value, env: Env): (r: (World, Reply))
    ensures r.0.started == w.started
  {
    match ParseBody(event, env.decode)
    case Err(e) => (w, Responded(BadBody(e)))
    case Ok(body) =>
      match SessionIdOf(body)
      case None => (w, Raised(NOT_A_DICT))
      case Some(sessionId) =>
        if !Truthy(sessionId) then (w, Fail("sessionId is required", 400))
        else Generate(w, sessionId, env)
  }

  /** The body of the handler's `try`: every failure is a 500 "Brief generation failed". */
  function Generate(w: World, sessionId: Value, env: Env): (r: (World, Reply))
    ensures r.0.started == w.started
    ensures r.0.sessions != w.sessions ==> r.1.Responded? && r.1.response.statusCode == 200
  {
    match Dynamo.GetSession(w.sessions, sessionId)
    case Err(e) => (w, Crash("Brief generation failed", e))
    case Ok(None) => (w, Fail(NotFound(sessionId), 404))
    case Ok(Some(item)) =>
      var scraped := ItemGet(item, "scrapedData", Obj([]));
      var analysis := ItemGet(item, "analysisResults", Obj([]));
      match Bedrock.GenerateProfile(scraped)
      case Err(e) => (w, Crash("Brief generation failed", e))
      case Ok(profile) =>
        var questions := Bedrock.GenerateQuestions(profile, analysis);
        var brief := Bedrock.GenerateBrief(profile, questions, analysis);
        var packet := Bedrock.GeneratePacket(profile, questions);
        var bucket := StoreBoth(w.bucket, sessionId, brief, packet);
        match UpdateRead(w.sessions, sessionId, item, BriefUpdates(brief, packet), env.now)
        case Err(e) => (w.(bucket := bucket), Crash("Brief generation failed", e))
        case Ok(table) => (w.(sessions := table, bucket := bucket), Succeed(Obj(ResultFields(sessionId, brief, questions))))
  }

  /** Neither a direct nor a Step Functions session id is a 400, and nothing changes. */
  lemma BriefNeedsSessionId(w: World, event: Value, env: Env, body: seq<(string, Value)>)
    requires ParseBody(event, env.decode) == Ok(Obj(body))
    requires !Truthy(GetOr(body, "sessionId", Null))
    requires Lookup(body, "sessionResult").None?
    ensures Handle(w, event, env) == (w, Fail("sessionId is required", 400))
  {
  }

  /** A session id the table does not know is a 404: nothing is generated, stored or written. */
  lemma UnknownSessionIs404(w: World, sessionId: string, env: Env)
    requires sessionId != ""
    requires forall i :: 0 <= i < |w.sessions| ==> w.sessions[i].sessionId != sessionId
    ensures Generate(w, Str(sessionId), env) == (w, Fail(NotFound(Str(sessionId)), 404))
  {
    match Dynamo.GetSession(w.sessions, Str(sessionId))
    case Ok(Some(item)) =>
      assert false;
    case _ =>
  }

  /**
   For a session whose newest record has a creation time, the brief and the
   packet are stored under `briefs/` and `packets/`, the record is updated with
   both and status READY, and the result lists the brief's sections and
   counts the (empty) questions.
   */
  lemma GenerateSpec(w: World, sessionId: string, env: Env)
    requires sessionId != ""
    requires Dynamo.Latest(w.sessions, sessionId).Some? && Dynamo.Latest(w.sessions, sessionId).value.createdAt != ""
    requires Bedrock.GenerateProfile(ItemGet(Dynamo.FullItem(Dynamo.Latest(w.sessions, sessionId).value), "scrapedData", Obj([]))).Ok?
    requires Dynamo.Serializable(ItemGet(Dynamo.FullItem(Dynamo.Latest(w.sessions, sessionId).value), "scrapedData", Obj([])))
    ensures var rec := Dynamo.Latest(w.sessions, sessionId).value;
      var item := Dynamo.FullItem(rec);
      var analysis := ItemGet(item, "analysisResults", Obj([]));
      var profile := Bedrock.GenerateProfile(ItemGet(item, "scrapedData", Obj([]))).value;
      var brief := Bedrock.GenerateBrief(profile, Arr([]), analysis);
      var packet := Bedrock.GeneratePacket(profile, Arr([]));
      var (w', reply) := Generate(w, Str(sessionId), env);
      && w'.bucket == StoreBoth(w.bucket, Str(sessionId), brief, packet)
      && w'.sessions == Dynamo.Put(w.sessions, Dynamo.Updated(w.sessions, sessionId, rec.createdAt, BriefUpdates(brief, packet), env.now))
      && SucceededWith(reply, [ ("sessionId", Str(sessionId)), ("status", Str("READY")),
                                ("brief_sections", Strings(Bedrock.BRIEF_SECTIONS)), ("questions_count", Num(0)) ])
  {
    var rec := Dynamo.Latest(w.sessions, sessionId).value;
    var item := Dynamo.FullItem(rec);
    var analysis := ItemGet(item, "analysisResults", Obj([]));
    var profile := Bedrock.GenerateProfile(ItemGet(item, "scrapedData", Obj([]))).value;
    var brief := Bedrock.GenerateBrief(profile, Arr([]), analysis);
    var packet := Bedrock.GeneratePacket(profile, Arr([]));
    GenerateWrites(w, sessionId, env);
    assert Keys(brief.fields) == Bedrock.BRIEF_SECTIONS;
  }

  /** The found session's write, the stored documents and the reply, in terms of the generated brief and packet. */
  lemma GenerateWrites(w: World, sessionId: string, env: Env)
    requires sessionId != ""
    requires Dynamo.Latest(w.sessions, sessionId).Some? && Dynamo.Latest(w.sessions, sessionId).value.createdAt != ""
    requires Bedrock.GenerateProfile(ItemGet(Dynamo.FullItem(Dynamo.Latest(w.sessions, sessionId).value), "scrapedData", Obj([]))).Ok?
    requires Dynamo.Serializable(ItemGet(Dynamo.FullItem(Dynamo.Latest(w.sessions, sessionId).value), "scrapedData", Obj([])))
    ensures var rec := Dynamo.Latest(w.sessions, sessionId).value;
      var item := Dynamo.FullItem(rec);
      var analysis := ItemGet(item, "analysisResults", Obj([]));
      var profile := Bedrock.GenerateProfile(ItemGet(item, "scrapedData", Obj([]))).value;
      var brief := Bedrock.GenerateBrief(profile, Arr([]), analysis);
      var packet := Bedrock.GeneratePacket(profile, Arr([]));
      Generate(w, Str(sessionId), env)
      == (w.(sessions := Dynamo.Put(w.sessions, Dynamo.Updated(w.sessions, sessionId, rec.createdAt, BriefUpdates(brief, packet), env.now)),
             bucket := StoreBoth(w.bucket, Str(sessionId), brief, packet)),
          Succeed(Obj(ResultFields(Str(sessionId), brief, Arr([])))))
  {
    var rec := Dynamo.Latest(w.sessions, sessionId).value;
    var item := Dynamo.FullItem(rec);
    var analysis := ItemGet(item, "analysisResults", Obj([]));
    var profile := Bedrock.GenerateProfile(ItemGet(item, "scrapedData", Obj([]))).value;
    var brief := Bedrock.GenerateBrief(profile, Arr([]), analysis);
    var packet := Bedrock.GeneratePacket(profile, Arr([]));
    var table := Dynamo.Put(w.sessions, Dynamo.Updated(w.sessions, sessionId, rec.createdAt, BriefUpdates(brief, packet), env.now));
    assert Dynamo.GetSession(w.sessions, Str(sessionId)) == Ok(Some(item));
    BriefWrite(w.sessions, sessionId, env.now);
    GenerateFound(w, Str(sessionId), item, env, table);
  }

  /** The brief and packet generated from a found record's scrape can be written to that record. */
  lemma BriefWrite(sessions: Dynamo.Table, sessionId: string, now: string)
    requires sessionId != ""
    requires Dynamo.Latest(sessions, sessionId).Some? && Dynamo.Latest(sessions, sessionId).value.createdAt != ""
    requires Bedrock.GenerateProfile(ItemGet(Dynamo.FullItem(Dynamo.Latest(sessions, sessionId).value), "scrapedData", Obj([]))).Ok?
    requires Dynamo.Serializable(ItemGet(Dynamo.FullItem(Dynamo.Latest(sessions, sessionId).value), "scrapedData", Obj([])))
    ensures var rec := Dynamo.Latest(sessions, sessionId).value;
      var item := Dynamo.FullItem(rec);
      var analysis := ItemGet(item, "analysisResults", Obj([]));
      var profile := Bedrock.GenerateProfile(ItemGet(item, "scrapedData", Obj([]))).value;
      var updates := BriefUpdates(Bedrock.GenerateBrief(profile, Arr([]), analysis), Bedrock.GeneratePacket(profile, Arr([])));
      UpdateRead(sessions, Str(sessionId), item, updates, now) == Ok(Dynamo.Put(sessions, Dynamo.Updated(sessions, sessionId, rec.createdAt, updates, now)))
  {
    var item := Dynamo.FullItem(Dynamo.Latest(sessions, sessionId).value);
    var analysis := ItemGet(item, "analysisResults", Obj([]));
    var profile := Bedrock.GenerateProfile(ItemGet(item, "scrapedData", Obj([]))).value;
    BriefUpdatesSerializable(ItemGet(item, "scrapedData", Obj([])), analysis);
    UpdateReadSpec(sessions, sessionId, BriefUpdates(Bedrock.GenerateBrief(profile, Arr([]), analysis), Bedrock.GeneratePacket(profile, Arr([]))), now);
  }

  /** A found item whose update succeeds: both documents are stored, the table is the updated one, and the reply is a 200. */
  lemma GenerateFound(w: World, sessionId: Value, item: Dynamo.Item, env: Env, table: Dynamo.Table)
    requires Dynamo.GetSession(w.sessions, sessionId) == Ok(Some(item))
    requires Bedrock.GenerateProfile(ItemGet(item, "scrapedData", Obj([]))).Ok?
    requires var profile := Bedrock.GenerateProfile(ItemGet(item, "scrapedData", Obj([]))).value;
      var analysis := ItemGet(item, "analysisResults", Obj([]));
      UpdateRead(w.sessions, sessionId, item,
        BriefUpdates(Bedrock.GenerateBrief(profile, Arr([]), analysis), Bedrock.GeneratePacket(profile, Arr([]))), env.now) == Ok(table)
    ensures var profile := Bedrock.GenerateProfile(ItemGet(item, "scrapedData", Obj([]))).value;
      var analysis := ItemGet(item, "analysisResults", Obj([]));
      var brief := Bedrock.GenerateBrief(profile, Arr([]), analysis);
      var packet := Bedrock.GeneratePacket(profile, Arr([]));
      Generate(w, sessionId, env)
      == (w.(sessions := table, bucket := StoreBoth(w.bucket, sessionId, brief, packet)), Succeed(Obj(ResultFields(sessionId, brief, Arr([])))))
  {
  }

  /** Scraped data without a float gives a brief and a packet without one: the stubs add only strings and lists. */
  lemma BriefUpdatesSerializable(scraped: Value, analysis: Value)
    requires scraped.Obj? && Dynamo.Serializable(scraped)
    ensures var profile := Bedrock.GenerateProfile(scraped).value;
      Dynamo.AllSerializable(BriefUpdates(Bedrock.GenerateBrief(profile, Arr([]), analysis), Bedrock.GeneratePacket(profile, Arr([]))))
  {
    var name := GetOr(scraped.fields, "company_name", Str("Unknown"));
    Dynamo.SerializableGetOr(scraped.fields, "company_name", Str("Unknown"));
    ProfileSerializable(name);
    var profile := Obj(Bedrock.ProfileFields(name));
    BriefSerializable(profile, analysis);
  }

  lemma ProfileSerializable(name: Value)
    requires Dynamo.Serializable(name)
    ensures Dynamo.Serializable(Obj(Bedrock.ProfileFields(name)))
  {
    var pf := Bedrock.ProfileFields(name);
    forall i | 0 <= i < |pf|
      ensures Dynamo.Serializable(pf[i].1)
    {
      if i > 0 {
        assert pf[i].1.Str? || pf[i].1 == Obj([]) || pf[i].1 == Arr([]);
      }
    }
  }

  lemma BriefSerializable(profile: Value, analysis: Value)
    requires Dynamo.Serializable(profile)
    ensures Dynamo.AllSerializable(BriefUpdates(Bedrock.GenerateBrief(profile, Arr([]), analysis), Bedrock.GeneratePacket(profile, Arr([]))))
  {
    var brief := Bedrock.GenerateBrief(profile, Arr([]), analysis);
    var packet := Bedrock.GeneratePacket(profile, Arr([]));
    forall i | 0 <= i < |brief.fields|
      ensures Dynamo.Serializable(brief.fields[i].1)
    {
      assert brief.fields[i].1 == profile || brief.fields[i].1.Str? || brief.fields[i].1 == Arr([]);
    }
    forall i | 0 <= i < |packet.fields|
      ensures Dynamo.Serializable(packet.fields[i].1)
    {
      assert packet.fields[i].1 == profile || packet.fields[i].1.Str? || packet.fields[i].1 == Arr([]);
    }
  }

  /**
   What the interviewer reads and what the interviewee reviews come from the
   same profile and questions: the stored brief's overview and questions are
   the stored packet's findings and menu.
   */
  lemma StoredBriefAndPacketAgree(bucket: S3.Store, sessionId: Value, profile: Value, questions: Value, analysis: Value)
    ensures var brief := Bedrock.GenerateBrief(profile, questions, analysis);
      var packet := Bedrock.GeneratePacket(profile, questions);
      var stored := StoreBoth(bucket, sessionId, brief, packet);
      var b := S3.GetDocument(stored, S3.ObjectKey("briefs", Display(sessionId), BRIEF_FILE));
      var p := S3.GetDocument(stored, S3.ObjectKey("packets", Display(sessionId), PACKET_FILE));
      && b == Ok(S3.JsonText(brief)) && p == Ok(S3.JsonText(packet))
      && Lookup(brief.fields, "company_overview") == Lookup(packet.fields, "ai_findings") == Some(profile)
      && Lookup(brief.fields, "questions") == Lookup(packet.fields, "questions_menu") == Some(questions)
  {
    var k1 := S3.ObjectKey("briefs", Display(sessionId), BRIEF_FILE);
    var k2 := S3.ObjectKey("packets", Display(sessionId), PACKET_FILE);
    assert k1[0] != k2[0];
    Bedrock.BriefAndPacketAgree(profile, questions, analysis);
    Bedrock.BriefEmbeds(profile, questions, analysis);
  }
}
