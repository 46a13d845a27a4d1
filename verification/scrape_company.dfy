/**
 The `scrape_company` function: scrapes (or looks up) a company, stores the
 raw result in the bucket and the summary on the session.
 */
module ScrapeCompanyHandler {
  import opened Wrappers
  import opened Json
  import Dynamo
  import S3
  import Scraper
  import Bedrock
  import opened Responses
  import opened Lambda

  const SCRAPED_FILE: string := "scraped_data.json"

  /** Where the raw scrape of a session is stored. */
  function ScrapedKey(sessionId: Value): string {
    S3.ObjectKey("scraped", Display(sessionId), SCRAPED_FILE)
  }

  /**
   The URL the scraper receives: a falsy one means no URL; a truthy value that
   is not a string fails inside the scraper's `requests`/`urlparse` calls.
   */
  function UrlOf(companyUrl: Value): Result<string> {
    if !Truthy(companyUrl) then Ok("")
    else if companyUrl.Str? then Ok(companyUrl.s)
    else Err("URL must be a string")
  }

  /** The updates the handler writes to the session. */
  function ScrapeUpdates(summary: Value): (u: seq<(string, Value)>)
    ensures DistinctKeys(u)
  {
    [("scrapedData", summary), ("status", Str("SCRAPING_COMPLETE"))]
  }

  /** The result: the source, the number of pages and the summary. */
  function ResultFields(sessionId: Value, data: Scraper.CompanyData): seq<(string, Value)> {
    [ ("sessionId", sessionId),
      ("source", Str(data.source)),
      ("pages_count", Num(|data.pages|)),
      ("summary", Scraper.ProfileJson(data.summary)) ]
  }

  /** `lambda_handler`: nothing is started; sessions change only on a 200. */
  function Handle(w: World, event: Value, env: Env): (r: (World, Reply))
    ensures r.0.started == w.started
    ensures r.0.sessions != w.sessions ==> r.1.Responded? && r.1.response.statusCode == 200
  {
    match ParseBody(event, env.decode)
    case Err(e) => (w, Responded(BadBody(e)))
    case Ok(body) =>
      match Get(body, "sessionId", Null)
      case None => (w, Raised(NOT_A_DICT))
      case Some(sessionId) =>
        var companyName := GetOr(body.fields, "companyName", Null);
        if !Truthy(sessionId) || !Truthy(companyName) then (w, Fail("sessionId and companyName are required", 400))
        else Scrape(w, sessionId, companyName, GetOr(body.fields, "companyUrl", Str("")), env)
  }

  /** The body of the handler's `try`: every failure is a 500 "Scraping failed". */
  function Scrape(w: World, sessionId: Value, companyName: Value, companyUrl: Value, env: Env): (r: (World, Reply))
    ensures r.0.started == w.started
    ensures r.0.sessions != w.sessions ==> r.1.Responded? && r.1.response.statusCode == 200
  {
    if !companyName.Str? then (w, Crash("Scraping failed", "object has no attribute 'lower'"))
    else
      match UrlOf(companyUrl)
      case Err(e) => (w, Crash("Scraping failed", e))
      case Ok(url) =>
        Store(w, sessionId, Scraper.ScrapeCompany(companyName.s, url, env.mocks, env.fetch, env.origin), env.now)
  }

  /** The raw result goes to the bucket, then the summary to the session if there is one. */
  function Store(w: World, sessionId: Value, data: Scraper.CompanyData, now: string): (r: (World, Reply))
    ensures r.0.started == w.started
    ensures r.0.bucket == w.bucket[ScrapedKey(sessionId) := S3.Blob(S3.JsonText(Scraper.CompanyDataJson(data)), Some("application/json"))]
    ensures r.0.sessions != w.sessions ==> SucceededWith(r.1, ResultFields(sessionId, data))
  {
    var (bucket, _) := S3.UploadDocument(w.bucket, S3.JsonText(Scraper.CompanyDataJson(data)), Display(sessionId), SCRAPED_FILE, "scraped", Some("application/json"));
    var w1 := w.(bucket := bucket);
    match Dynamo.GetSession(w.sessions, sessionId)
    case Err(e) => (w1, Crash("Scraping failed", e))
    case Ok(None) => (w1, Succeed(Obj(ResultFields(sessionId, data))))
    case Ok(Some(item)) =>
      match UpdateRead(w.sessions, sessionId, item, ScrapeUpdates(Scraper.ProfileJson(data.summary)), now)
      case Err(e) => (w1, Crash("Scraping failed", e))
      case Ok(table) => (w1.(sessions := table), Succeed(Obj(ResultFields(sessionId, data))))
  }

  /** A missing or falsy session id or company name is a 400, and nothing changes. */
  lemma ScrapeNeedsIds(w: World, event: Value, env: Env, body: seq<(string, Value)>)
    requires ParseBody(event, env.decode) == Ok(Obj(body))
    requires !Truthy(GetOr(body, "sessionId", Null)) || !Truthy(GetOr(body, "companyName", Null))
    ensures Handle(w, event, env) == (w, Fail("sessionId and companyName are required", 400))
  {
  }

  /** A missing, empty or null URL all scrape as the default "": by name only. */
  lemma ScrapeUrlDefault(w: World, sessionId: Value, companyName: string, companyUrl: Value, env: Env)
    requires !Truthy(companyUrl)
    ensures Scrape(w, sessionId, Str(companyName), companyUrl, env) == Scrape(w, sessionId, Str(companyName), Str(""), env)
  {
  }

  /**
   For a session whose newest record has a creation time, the record is
   updated with the summary as `scrapedData` and status SCRAPING_COMPLETE.
   */
  lemma StoreSpec(w: World, sessionId: string, data: Scraper.CompanyData, now: string)
    requires sessionId != ""
    requires Dynamo.Latest(w.sessions, sessionId).Some? && Dynamo.Latest(w.sessions, sessionId).value.createdAt != ""
    requires Dynamo.Serializable(Scraper.ProfileJson(data.summary))
    ensures var rec := Dynamo.Latest(w.sessions, sessionId).value;
      var (w', reply) := Store(w, Str(sessionId), data, now);
      && w'.sessions == Dynamo.Put(w.sessions, Dynamo.Updated(w.sessions, sessionId, rec.createdAt, ScrapeUpdates(Scraper.ProfileJson(data.summary)), now))
      && SucceededWith(reply, ResultFields(Str(sessionId), data))
  {
    var rec := Dynamo.Latest(w.sessions, sessionId).value;
    assert Dynamo.GetSession(w.sessions, Str(sessionId)) == Ok(Some(Dynamo.FullItem(rec)));
    UpdateReadSpec(w.sessions, sessionId, ScrapeUpdates(Scraper.ProfileJson(data.summary)), now);
  }

  /** A live summary holds only strings and integers, so it can always be stored. */
  lemma LiveSummarySerializable(s: Scraper.Summary)
    ensures Dynamo.Serializable(Scraper.SummaryJson(s))
  {
    var h := Scraper.HeadingsJson(s.headings);
    forall i | 0 <= i < |h.items|
      ensures Dynamo.Serializable(h.items[i])
    {
      assert h.items[i] == Scraper.HeadingJson(s.headings[i]);
    }
  }

  /**
   Mock data holding a float cannot be stored on the session: a 500 "Scraping
   failed" after the raw result was put in the bucket, and the table is unchanged.
   */
  lemma FloatMockIs500(w: World, sessionId: string, data: Scraper.CompanyData, now: string)
    requires sessionId != ""
    requires Dynamo.Latest(w.sessions, sessionId).Some?
    requires !Dynamo.Serializable(Scraper.ProfileJson(data.summary))
    ensures var (w', reply) := Store(w, Str(sessionId), data, now);
      w'.sessions == w.sessions && reply == Crash("Scraping failed", Dynamo.FLOAT_ERROR)
  {
    var item := Dynamo.FullItem(Dynamo.Latest(w.sessions, sessionId).value);
    assert Dynamo.GetSession(w.sessions, Str(sessionId)) == Ok(Some(item));
    Dynamo.UpdateRefusesFloat(w.sessions, Str(sessionId), item["createdAt"], ScrapeUpdates(Scraper.ProfileJson(data.summary)), now, 0);
  }

  /** `pages_count` is the number of pages in the scraper's result. */
  lemma PagesCount(sessionId: Value, data: Scraper.CompanyData)
    ensures Lookup(ResultFields(sessionId, data), "pages_count") == Some(Num(|data.pages|))
  {
    var f := ResultFields(sessionId, data);
    assert f[0].0 == "sessionId" && f[1].0 == "source";
    LookupAt(f, 2);
  }

  /** The updated record holds the summary and SCRAPING_COMPLETE. */
  lemma ScrapeUpdatesStored(table: Dynamo.Table, sessionId: string, createdAt: string, summary: Value, now: string)
    ensures var attrs := Dynamo.Updated(table, sessionId, createdAt, ScrapeUpdates(summary), now).attrs;
      && "scrapedData" in attrs && attrs["scrapedData"] == summary
      && "status" in attrs && attrs["status"] == Str("SCRAPING_COMPLETE")
  {
    var u := ScrapeUpdates(summary);
    Dynamo.UpdatedHoldsUpdates(table, sessionId, createdAt, u, now);
    assert u[0].0 != "updatedAt" && u[1].0 != "updatedAt";
  }

  /**
   The brief's profile stub looks for `company_name` in the session's scraped
   data, but a live scrape stores a summary that names the company under
   `name`: after a live scrape the profile is always named "Unknown".
   */
  lemma LiveScrapeProfileIsUnknown(s: Scraper.Summary)
    ensures var p := Bedrock.GenerateProfile(Scraper.SummaryJson(s));
      p.Ok? && p.value.fields[0] == ("name", Str("Unknown"))
  {
    var f := Scraper.SummaryJson(s).fields;
    assert forall i :: 0 <= i < |f| ==> |f[i].0| != |"company_name"|;
  }
}
