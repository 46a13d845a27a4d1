/**
 The `analyze_company` function: runs the Comprehend analysis over the text
 in the request, or over the combined content of the session's stored
 scrape, and records the analysis on the session.
 */
module AnalyzeCompanyHandler {
  import opened Wrappers
  import opened Json
  import Text = Strings
  import Dynamo
  import S3
  import Comprehend
  import Scraper
  import Chunking
  import ScrapeCompanyHandler
  import opened Responses
  import opened Lambda

  /** How many entities and key phrases the result lists. */
  const TOP: nat := 10

  /** `f"scraped/{session_id}/scraped_data.json"`. */
  function ScrapedKey(sessionId: Value): string {
    "scraped/" + Display(sessionId) + "/scraped_data.json"
  }

  /** The analyze handler reads exactly the key the scrape handler writes. */
  lemma ScrapedKeyShared(sessionId: Value)
    ensures ScrapedKey(sessionId) == ScrapeCompanyHandler.ScrapedKey(sessionId)
  {
    var d := Display(sessionId);
    assert "scraped/" + d + "/scraped_data.json" == "scraped" + "/" + d + "/" + "scraped_data.json";
  }

  /** `json.loads` of a stored object: a JSON document reads back as itself. */
  function Load(payload: S3.Payload, decodeBytes: seq<bv8> -> Result<Value>): Result<Value> {
    match payload
    case JsonText(doc) => Ok(doc)
    case Bytes(data) => decodeBytes(data)
  }

  /**
   `summary.combined_content` of the session's stored scrape, or `fallback`
   when any step fails (a missing object, undecodable JSON, a non-dict), as
   the handler's inner `try` swallows every exception.
   */
  function ScrapedText(bucket: S3.Store, sessionId: Value, decodeBytes: seq<bv8> -> Result<Value>, fallback: Value): (t: Value)
    ensures ScrapedKey(sessionId) !in bucket ==> t == fallback
  {
    match S3.GetDocument(bucket, ScrapedKey(sessionId))
    case Err(_) => fallback
    case Ok(payload) =>
      match Load(payload, decodeBytes)
      case Err(_) => fallback
      case Ok(data) =>
        match Get(data, "summary", Obj([]))
        case None => fallback
        case Some(summary) =>
          match Get(summary, "combined_content", Str(""))
          case None => fallback
          case Some(text) => text
  }

  /** The text to analyse: the request's when truthy, otherwise the stored scrape's. */
  function TextSource(bucket: S3.Store, sessionId: Value, text: Value, decodeBytes: seq<bv8> -> Result<Value>): (t: Value)
    ensures Truthy(text) ==> t == text
  {
    if Truthy(text) then text else ScrapedText(bucket, sessionId, decodeBytes, text)
  }

  /** The updates the handler writes to the session. */
  function AnalysisUpdates(analysis: Value): (u: seq<(string, Value)>)
    ensures DistinctKeys(u)
  {
    [("analysisResults", analysis), ("status", Str("ANALYSIS_COMPLETE"))]
  }

  /** The result: the counts, the sentiment and the first ten entities and key phrases. */
  function ResultFields(sessionId: Value, a: Comprehend.Analysis): seq<(string, Value)> {
    [ ("sessionId", sessionId),
      ("entities_count", Num(|a.entities|)),
      ("key_phrases_count", Num(|a.keyPhrases|)),
      ("sentiment", Comprehend.SentimentJson(a.sentiment)),
      ("top_entities", Arr(Text.Take(Comprehend.EntitiesJson(a.entities).items, TOP))),
      ("top_key_phrases", Arr(Text.Take(Comprehend.PhrasesJson(a.keyPhrases).items, TOP))) ]
  }

  /** `lambda_handler`: nothing is stored in the bucket or started; sessions change only on a 200. */
  function Handle(w: World, event: Value, env: Env): (r: (World, Reply))
    ensures r.0.bucket == w.bucket && r.0.started == w.started
    ensures r.0.sessions != w.sessions ==> r.1.Responded? && r.1.response.statusCode == 200
  {
    match ParseBody(event, env.decode)
    case Err(e) => (w, Responded(BadBody(e)))
    case Ok(body) =>
      match Get(body, "sessionId", Null)
      case None => (w, Raised(NOT_A_DICT))
      case Some(sessionId) =>
        if !Truthy(sessionId) then (w, Fail("sessionId is required", 400))
        else Analyze(w, sessionId, GetOr(body.fields, "text", Str("")), env)
  }

  const NO_TEXT: string := "No text available for analysis. Scrape or provide text first."

  /** The body of the handler's `try`: every failure is a 500 "Analysis failed". */
  function Analyze(w: World, sessionId: Value, text: Value, env: Env): (r: (World, Reply))
    ensures r.0.bucket == w.bucket && r.0.started == w.started
    ensures r.0.sessions != w.sessions ==> r.1.Responded? && r.1.response.statusCode == 200
  {
    var source := TextSource(w.bucket, sessionId, text, env.decodeBytes);
    if !Truthy(source) then (w, Fail(NO_TEXT, 400))
    else if !source.Str? then (w, Crash("Analysis failed", "object has no attribute 'encode'"))
    else
      var a := Comprehend.AnalyzeText(source.s, env.entities, env.phrases, env.sentiment);
      var (sessions, reply) := Record(w.sessions, sessionId, a, env.now);
      (w.(sessions := sessions), reply)
  }

  /**
   The session write of `stored` as the analysis, and the reply about `a`; a
   session that does not exist is not written.
   */
  function RecordWith(table: Dynamo.Table, sessionId: Value, a: Comprehend.Analysis, stored: Value, now: string): (r: (Dynamo.Table, Reply))
    ensures r.0 != table ==> SucceededWith(r.1, ResultFields(sessionId, a))
  {
    match Dynamo.GetSession(table, sessionId)
    case Err(e) => (table, Crash("Analysis failed", e))
    case Ok(None) => (table, Succeed(Obj(ResultFields(sessionId, a))))
    case Ok(Some(item)) =>
      match UpdateRead(table, sessionId, item, AnalysisUpdates(stored), now)
      case Err(e) => (table, Crash("Analysis failed", e))
      case Ok(table') => (table', Succeed(Obj(ResultFields(sessionId, a))))
  }

  /**
   The session write as the code is written: the analysis dict goes to
   `update_session` with its float scores.
   */
  function RecordAsWritten(table: Dynamo.Table, sessionId: Value, a: Comprehend.Analysis, now: string): (r: (Dynamo.Table, Reply))
    ensures r.0 != table ==> SucceededWith(r.1, ResultFields(sessionId, a))
  {
    RecordWith(table, sessionId, a, Comprehend.AnalysisJson(a), now)
  }

  /** The session write with the scores converted to decimals, which DynamoDB accepts. */
  function Record(table: Dynamo.Table, sessionId: Value, a: Comprehend.Analysis, now: string): (r: (Dynamo.Table, Reply))
    ensures r.0 != table ==> SucceededWith(r.1, ResultFields(sessionId, a))
  {
    RecordWith(table, sessionId, a, Dynamo.ToDecimals(Comprehend.AnalysisJson(a)), now)
  }

  const INDEX_ERROR: string := "list index out of range"

  /**
   The body of the handler's `try` as the code is written: the analysis with
   the character cut and the unchecked `[0]`, then the write of the float
   scores.
   */
  function AnalyzeAsWritten(w: World, sessionId: Value, text: Value, env: Env): (r: (World, Reply))
    ensures r.0.bucket == w.bucket && r.0.started == w.started
    ensures r.0.sessions != w.sessions ==> r.1.Responded? && r.1.response.statusCode == 200
  {
    var source := TextSource(w.bucket, sessionId, text, env.decodeBytes);
    if !Truthy(source) then (w, Fail(NO_TEXT, 400))
    else if !source.Str? then (w, Crash("Analysis failed", "object has no attribute 'encode'"))
    else
      match Comprehend.AnalyzeTextAsWritten(source.s, env.entities, env.phrases, env.sentiment)
      case None => (w, Crash("Analysis failed", INDEX_ERROR))
      case Some(a) =>
        var (sessions, reply) := RecordAsWritten(w.sessions, sessionId, a, env.now);
        (w.(sessions := sessions), reply)
  }

  /** The analysis dict holds a float exactly when the analysis carries a score. */
  lemma AnalysisSerializable(a: Comprehend.Analysis)
    ensures Dynamo.Serializable(Comprehend.AnalysisJson(a)) <==> !Comprehend.Scored(a)
  {
    var f := Comprehend.AnalysisJson(a).fields;
    assert f[0].1 == Comprehend.EntitiesJson(a.entities);
    assert f[1].1 == Comprehend.PhrasesJson(a.keyPhrases);
    assert f[2].1 == Comprehend.SentimentJson(a.sentiment);
    EntitiesSerializable(a.entities);
    PhrasesSerializable(a.keyPhrases);
    SentimentSerializable(a.sentiment);
  }

  /** A list of entities holds a float exactly when it is not empty. */
  lemma EntitiesSerializable(es: seq<Comprehend.Entity>)
    ensures Dynamo.Serializable(Comprehend.EntitiesJson(es)) <==> es == []
  {
    var v := Comprehend.EntitiesJson(es);
    if es != [] {
      assert v.items[0].fields[2].1.Float?;
      assert !Dynamo.Serializable(v.items[0]);
    } else {
      assert v == Arr([]);
    }
  }

  /** A list of key phrases holds a float exactly when it is not empty. */
  lemma PhrasesSerializable(ps: seq<Comprehend.KeyPhrase>)
    ensures Dynamo.Serializable(Comprehend.PhrasesJson(ps)) <==> ps == []
  {
    var v := Comprehend.PhrasesJson(ps);
    if ps != [] {
      assert v.items[0].fields[1].1.Float?;
      assert !Dynamo.Serializable(v.items[0]);
    } else {
      assert v == Arr([]);
    }
  }

  /** A sentiment dict holds a float exactly when it carries scores. */
  lemma SentimentSerializable(s: Comprehend.Sentiment)
    ensures Dynamo.Serializable(Comprehend.SentimentJson(s)) <==> s.scores.None?
  {
    var st := Comprehend.SentimentJson(s);
    assert st.fields[1].1 == Comprehend.ScoresJson(s.scores);
    if s.scores.Some? {
      assert st.fields[1].1.fields[0].1.Float?;
      assert !Dynamo.Serializable(st.fields[1].1);
    } else {
      assert st.fields[1].1 == Obj([]);
    }
  }

  /**
   As written, an analysis that carries any score cannot be stored: for a
   session that exists the reply is a 500 "Analysis failed" and nothing is
   written.
   */
  lemma RecordAsWrittenRefusesScores(table: Dynamo.Table, sessionId: string, a: Comprehend.Analysis, now: string)
    requires sessionId != ""
    requires Dynamo.Latest(table, sessionId).Some?
    requires Comprehend.Scored(a)
    ensures RecordAsWritten(table, Str(sessionId), a, now) == (table, Crash("Analysis failed", Dynamo.FLOAT_ERROR))
  {
    var rec := Dynamo.Latest(table, sessionId).value;
    var item := Dynamo.FullItem(rec);
    assert Dynamo.GetSession(table, Str(sessionId)) == Ok(Some(item));
    AnalysisSerializable(a);
    var u := AnalysisUpdates(Comprehend.AnalysisJson(a));
    Dynamo.UpdateRefusesFloat(table, Str(sessionId), item["createdAt"], u, now, 0);
  }

  /** An analysis without scores is stored the same way by the code and by the corrected write. */
  lemma RecordAsWrittenUnscored(table: Dynamo.Table, sessionId: Value, a: Comprehend.Analysis, now: string)
    requires !Comprehend.Scored(a)
    ensures RecordAsWritten(table, sessionId, a, now) == Record(table, sessionId, a, now)
  {
    AnalysisSerializable(a);
    Dynamo.ToDecimalsKeeps(Comprehend.AnalysisJson(a));
  }

  /**
   `"\n" * 5001` as the request text: the code answers 500 with the
   IndexError, while the corrected analysis is empty and NEUTRAL and, for a
   session with no record, answers 200.
   */
  lemma NewlineRunIs500(w: World, sessionId: string, env: Env)
    requires sessionId != ""
    requires forall i :: 0 <= i < |w.sessions| ==> w.sessions[i].sessionId != sessionId
    ensures var text := Str(Comprehend.NewlineRun());
      && AnalyzeAsWritten(w, Str(sessionId), text, env) == (w, Crash("Analysis failed", INDEX_ERROR))
      && Analyze(w, Str(sessionId), text, env) == (w, Succeed(Obj(ResultFields(Str(sessionId), Comprehend.Analysis([], [], Comprehend.Neutral)))))
  {
    var t := Comprehend.NewlineRun();
    assert |t| == Chunking.MAX_BYTES + 1;
    Comprehend.NewlineRunAnalysisRaises(env.entities, env.phrases, env.sentiment);
    AsWrittenRaises(w, Str(sessionId), t, env);
    NoSessionAnalysis(w, sessionId, t, env);
  }

  /** Where the code's analysis raises, the reply is a 500 with the IndexError and nothing changes. */
  lemma AsWrittenRaises(w: World, sessionId: Value, t: string, env: Env)
    requires t != ""
    requires Comprehend.AnalyzeTextAsWritten(t, env.entities, env.phrases, env.sentiment).None?
    ensures AnalyzeAsWritten(w, sessionId, Str(t), env) == (w, Crash("Analysis failed", INDEX_ERROR))
  {
    assert Truthy(Str(t));
    assert TextSource(w.bucket, sessionId, Str(t), env.decodeBytes) == Str(t);
  }

  /** For a session with no record, the analysis of request text is reported and nothing is written. */
  lemma NoSessionAnalysis(w: World, sessionId: string, t: string, env: Env)
    requires sessionId != "" && t != ""
    requires forall i :: 0 <= i < |w.sessions| ==> w.sessions[i].sessionId != sessionId
    ensures var a := Comprehend.AnalyzeText(t, env.entities, env.phrases, env.sentiment);
      Analyze(w, Str(sessionId), Str(t), env) == (w, Succeed(Obj(ResultFields(Str(sessionId), a))))
  {
    var a := Comprehend.AnalyzeText(t, env.entities, env.phrases, env.sentiment);
    AnalyzeRequestText(w, Str(sessionId), t, env);
    RecordNoSession(w.sessions, sessionId, a, env.now);
  }

  /** Request text is analysed as given, and the analysis is recorded. */
  lemma AnalyzeRequestText(w: World, sessionId: Value, t: string, env: Env)
    requires t != ""
    ensures var r := Record(w.sessions, sessionId, Comprehend.AnalyzeText(t, env.entities, env.phrases, env.sentiment), env.now);
      Analyze(w, sessionId, Str(t), env) == (w.(sessions := r.0), r.1)
  {
    assert TextSource(w.bucket, sessionId, Str(t), env.decodeBytes) == Str(t);
  }

  /** A session with no record is not written, and the reply reports the analysis. */
  lemma RecordNoSession(table: Dynamo.Table, sessionId: string, a: Comprehend.Analysis, now: string)
    requires sessionId != ""
    requires forall i :: 0 <= i < |table| ==> table[i].sessionId != sessionId
    ensures Record(table, Str(sessionId), a, now) == (table, Succeed(Obj(ResultFields(Str(sessionId), a))))
  {
    match Dynamo.GetSession(table, Str(sessionId))
    case Ok(Some(item)) =>
      assert false;
    case _ =>
  }

  /** A missing or falsy session id is a 400, and nothing changes. */
  lemma AnalyzeNeedsSessionId(w: World, event: Value, env: Env, body: seq<(string, Value)>)
    requires ParseBody(event, env.decode) == Ok(Obj(body))
    requires !Truthy(GetOr(body, "sessionId", Null))
    ensures Handle(w, event, env) == (w, Fail("sessionId is required", 400))
  {
  }

  /** Request text wins: the stored scrape is not looked at, so the reply does not depend on the bucket. */
  lemma RequestTextWins(w: World, sessionId: Value, text: Value, env: Env, other: S3.Store)
    requires Truthy(text)
    ensures Analyze(w, sessionId, text, env).1 == Analyze(w.(bucket := other), sessionId, text, env).1
  {
  }

  /** No request text and no stored scrape is a 400, and nothing changes. */
  lemma NoTextIs400(w: World, sessionId: Value, text: Value, env: Env)
    requires !Truthy(text) && ScrapedKey(sessionId) !in w.bucket
    ensures Analyze(w, sessionId, text, env) == (w, Fail(NO_TEXT, 400))
  {
  }

  /**
   After the scrape handler stored a live scrape for a session, an analysis
   request without text analyses the scrape's combined content.
   */
  lemma AnalyzeReadsScrape(w: World, sessionId: Value, data: Scraper.CompanyData, now: string, decodeBytes: seq<bv8> -> Result<Value>, fallback: Value)
    requires data.summary.Aggregated?
    ensures var bucket := ScrapeCompanyHandler.Store(w, sessionId, data, now).0.bucket;
      ScrapedText(bucket, sessionId, decodeBytes, fallback) == Str(data.summary.summary.combinedContent)
  {
    var bucket := ScrapeCompanyHandler.Store(w, sessionId, data, now).0.bucket;
    ScrapedKeyShared(sessionId);
    assert S3.GetDocument(bucket, ScrapedKey(sessionId)) == Ok(S3.JsonText(Scraper.CompanyDataJson(data)));
    CombinedContent(data);
  }

  /** The stored scrape document's `summary.combined_content` is the aggregated combined content. */
  lemma CombinedContent(data: Scraper.CompanyData)
    requires data.summary.Aggregated?
    ensures Get(Scraper.CompanyDataJson(data), "summary", Obj([])) == Some(Scraper.SummaryJson(data.summary.summary))
    ensures Get(Scraper.SummaryJson(data.summary.summary), "combined_content", Str("")) == Some(Str(data.summary.summary.combinedContent))
  {
    var f := Scraper.CompanyDataJson(data).fields;
    assert f[0].0 == "company_name" && f[1].0 == "company_url" && f[2].0 == "pages" && f[3].0 == "summary";
    LookupAt(f, 3);
    var g := Scraper.SummaryJson(data.summary.summary).fields;
    assert g[0].0 == "name" && g[1].0 == "description" && g[2].0 == "combined_content";
    LookupAt(g, 2);
  }

  /**
   With the scores converted to decimals, for a session whose newest record
   has a creation time, the record is updated with the analysis and status
   ANALYSIS_COMPLETE, and the reply is a 200, whatever the analysis holds.
   */
  lemma RecordSpec(table: Dynamo.Table, sessionId: string, a: Comprehend.Analysis, now: string)
    requires sessionId != ""
    requires Dynamo.Latest(table, sessionId).Some? && Dynamo.Latest(table, sessionId).value.createdAt != ""
    ensures var rec := Dynamo.Latest(table, sessionId).value;
      Record(table, Str(sessionId), a, now)
      == (Dynamo.Put(table, Dynamo.Updated(table, sessionId, rec.createdAt, AnalysisUpdates(Dynamo.ToDecimals(Comprehend.AnalysisJson(a))), now)),
          Succeed(Obj(ResultFields(Str(sessionId), a))))
  {
    var rec := Dynamo.Latest(table, sessionId).value;
    var stored := Dynamo.ToDecimals(Comprehend.AnalysisJson(a));
    assert Dynamo.GetSession(table, Str(sessionId)) == Ok(Some(Dynamo.FullItem(rec)));
    assert Dynamo.AllSerializable(AnalysisUpdates(stored));
    UpdateReadSpec(table, sessionId, AnalysisUpdates(stored), now);
  }

  /** The top lists are the first ten entities and key phrases, in order, and the counts are the full lengths. */
  lemma TopTen(sessionId: Value, a: Comprehend.Analysis)
    ensures var f := ResultFields(sessionId, a);
      var entities := Comprehend.EntitiesJson(a.entities).items;
      var phrases := Comprehend.PhrasesJson(a.keyPhrases).items;
      && f[1].1 == Num(|a.entities|) && f[2].1 == Num(|a.keyPhrases|)
      && f[4].1.items <= entities && |f[4].1.items| == (if |entities| < TOP then |entities| else TOP)
      && f[5].1.items <= phrases && |f[5].1.items| == (if |phrases| < TOP then |phrases| else TOP)
  {
  }
}
