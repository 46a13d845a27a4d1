/**
 `ScraperService`: page extraction after HTML parsing, the demo-data match,
 the live scrape of a company site and the aggregation of its pages.

 The HTTP request is an oracle from a URL to a `Fetch` outcome, and what
 BeautifulSoup finds in a page is given as an `Extracted` record; only the
 string work done on it afterwards is modelled.
 */
module Scraper {
  import opened Wrappers
  import opened Strings
  import opened Json

  /** At most this many characters of page content are kept. */
  const CONTENT_CAP: nat := 10000

  /** At most this many headings are kept per page. */
  const HEADINGS_CAP: nat := 20

  /** Separator between the contents of successive pages. */
  const PAGE_SEPARATOR: string := "\n\n---\n\n"

  datatype Heading = Heading(level: string, text: string)

  /**
   What the parser finds in a page: title and meta description text, the
   h1, h2, h3 headings in that order with their stripped text, and the text of
   the main element (`None` when there is no main, article or body).
   */
  datatype Extracted = Extracted(title: string, description: string, headings: seq<Heading>, mainText: Option<string>)

  /** The dict `parse_company_page` returns. */
  datatype PageData = PageData(title: string, description: string, content: string, headings: seq<Heading>)

  /** The dict `scrape_url` returns: a parsed page, or the error that stopped it. */
  datatype Page =
    | Scraped(url: string, data: PageData, statusCode: int)
    | Failed(url: string, error: string)

  /** How the GET request ended. */
  datatype Fetch =
    | Fetched(statusCode: int, page: Extracted)
    | TimedOut
    | HttpError(code: int)
    | RequestFailed(message: string)

  /** `_aggregate_scraped_data`'s summary. */
  datatype Summary = Summary(
    name: string,
    description: string,
    combinedContent: string,
    headings: seq<Heading>,
    pagesScraped: nat,
    totalContentLength: nat)

  /** The scrape summary: aggregated from live pages, or a demo profile as stored. */
  datatype Profile = Aggregated(summary: Summary) | Mock(data: Value)

  /** The dict `scrape_company` returns. */
  datatype CompanyData = CompanyData(companyName: string, companyUrl: string, pages: seq<Page>, summary: Profile, source: string)

  /* ---------------------------------------------------------------------- */
  /* One page                                                               */
  /* ---------------------------------------------------------------------- */

  /** The text with every line stripped and blank lines dropped. */
  function CleanText(text: string): string {
    Join(NonBlankStripped(Split(text, '\n')), "\n")
  }

  /**
   The cleaned text is exactly its non-blank stripped lines: splitting it on
   "\n" gives them back, so it has no blank line and every line is stripped.
   */
  lemma CleanTextLines(text: string)
    ensures var lines := NonBlankStripped(Split(text, '\n'));
      && (lines == [] ==> CleanText(text) == "")
      && (lines != [] ==> Split(CleanText(text), '\n') == lines)
    ensures CleanText(text) != "" ==> forall i :: 0 <= i < |Split(CleanText(text), '\n')| ==>
      Split(CleanText(text), '\n')[i] != "" && Strip(Split(CleanText(text), '\n')[i]) == Split(CleanText(text), '\n')[i]
  {
    var parts := Split(text, '\n');
    var lines := NonBlankStripped(parts);
    forall i | 0 <= i < |parts| ensures AllChars(parts[i], NotNewline) {
      assert '\n' !in parts[i];
    }
    NonBlankStrippedKeepsChars(parts, NotNewline);
    NonBlankStrippedAreStripped(parts);
    if lines != [] {
      forall i | 0 <= i < |lines| ensures '\n' !in lines[i] {
        assert AllChars(lines[i], NotNewline);
      }
      SplitJoin(lines, '\n');
    }
  }

  /** The headings with non-empty text, in order. */
  function NonEmptyHeadings(hs: seq<Heading>): (r: seq<Heading>)
    ensures |r| <= |hs|
    ensures forall i :: 0 <= i < |r| ==> r[i].text != "" && r[i] in hs
    ensures forall h :: h in hs && h.text != "" ==> h in r
  {
    if hs == [] then []
    else
      var rest := NonEmptyHeadings(hs[1..]);
      assert forall h :: h in hs ==> h == hs[0] || h in hs[1..];
      if hs[0].text != "" then [hs[0]] + rest else rest
  }

  /** `parse_company_page` after extraction: cleaned content and headings, both capped. */
  function ParsePage(x: Extracted): (d: PageData)
    ensures d.title == x.title && d.description == x.description
    ensures var clean := if x.mainText.Some? then CleanText(x.mainText.value) else "";
      && d.content <= clean
      && |d.content| == if |clean| <= CONTENT_CAP then |clean| else CONTENT_CAP
    ensures d.headings <= NonEmptyHeadings(x.headings)
    ensures |d.headings| == if |NonEmptyHeadings(x.headings)| <= HEADINGS_CAP then |NonEmptyHeadings(x.headings)| else HEADINGS_CAP
  {
    var content := if x.mainText.Some? then CleanText(x.mainText.value) else "";
    PageData(x.title, x.description, Take(content, CONTENT_CAP), Take(NonEmptyHeadings(x.headings), HEADINGS_CAP))
  }

  /** Short pages lose nothing to the caps. */
  lemma ParsePageUncapped(x: Extracted)
    requires x.mainText.Some? && |CleanText(x.mainText.value)| <= CONTENT_CAP
    requires |NonEmptyHeadings(x.headings)| <= HEADINGS_CAP
    ensures ParsePage(x).content == CleanText(x.mainText.value)
    ensures ParsePage(x).headings == NonEmptyHeadings(x.headings)
  {
  }

  /** `scrape_url`: the parsed page on success, the error text otherwise. */
  function ScrapeUrl(url: string, fetch: string -> Fetch): (p: Page)
    ensures p.url == url
    ensures p.Scraped? <==> fetch(url).Fetched?
  {
    match fetch(url)
    case Fetched(code, x) => Scraped(url, ParsePage(x), code)
    case TimedOut => Failed(url, "Request timed out")
    case HttpError(code) => Failed(url, "HTTP " + IntToString(code))
    case RequestFailed(message) => Failed(url, message)
  }

  /** `page.get("success")`. */
  predicate Succeeded(p: Page) {
    p.Scraped?
  }

  /** `page.get("description", "")`: a failed page has none. */
  function DescriptionOf(p: Page): string {
    if p.Scraped? then p.data.description else ""
  }

  /* ---------------------------------------------------------------------- */
  /* Aggregation                                                            */
  /* ---------------------------------------------------------------------- */

  /** The successful pages, in order. */
  function Successes(pages: seq<Page>): (r: seq<Page>)
    ensures |r| <= |pages|
    ensures forall i :: 0 <= i < |r| ==> Succeeded(r[i]) && r[i] in pages
    ensures forall p :: p in pages && Succeeded(p) ==> p in r
  {
    if pages == [] then []
    else
      var rest := Successes(pages[1..]);
      assert forall p :: p in pages ==> p == pages[0] || p in pages[1..];
      if Succeeded(pages[0]) then [pages[0]] + rest else rest
  }

  /** The contents of the successful pages, in order. */
  function Contents(pages: seq<Page>): (r: seq<string>)
    ensures |r| == |Successes(pages)|
    ensures forall i :: 0 <= i < |r| ==> r[i] == Successes(pages)[i].data.content
  {
    if pages == [] then []
    else if Succeeded(pages[0]) then [pages[0].data.content] + Contents(pages[1..])
    else Contents(pages[1..])
  }

  /** The headings of the successful pages, concatenated in order. */
  function AllHeadings(pages: seq<Page>): seq<Heading> {
    if pages == [] then []
    else (if Succeeded(pages[0]) then pages[0].data.headings else []) + AllHeadings(pages[1..])
  }

  /** `len([p for p in pages if p.get("success")])`, counted on its own. */
  function CountSucceeded(pages: seq<Page>): nat {
    if pages == [] then 0
    else (if Succeeded(pages[0]) then 1 else 0) + CountSucceeded(pages[1..])
  }

  /** `_aggregate_scraped_data`. */
  function Aggregate(name: string, pages: seq<Page>): (s: Summary)
    ensures s.name == name
    ensures s.description == if pages != [] then DescriptionOf(pages[0]) else ""
  {
    var contents := Contents(pages);
    Summary(
      name,
      if pages != [] then DescriptionOf(pages[0]) else "",
      Join(contents, PAGE_SEPARATOR),
      AllHeadings(pages),
      CountSucceeded(pages),
      TotalLength(contents))
  }

  /** The count of successful pages is the number of contents joined. */
  lemma {:induction false} CountIsSuccesses(pages: seq<Page>)
    ensures CountSucceeded(pages) == |Successes(pages)| == |Contents(pages)|
  {
    if pages != [] {
      CountIsSuccesses(pages[1..]);
    }
  }

  /**
   The summary counts the successful pages, joins exactly their contents, and
   its combined content is the total content length plus one separator between
   each two pages.
   */
  lemma AggregateSpec(name: string, pages: seq<Page>)
    ensures var s := Aggregate(name, pages);
      && s.pagesScraped == |Successes(pages)| <= |pages|
      && s.totalContentLength == TotalLength(Contents(pages))
      && s.combinedContent == Join(Contents(pages), PAGE_SEPARATOR)
      && (s.pagesScraped > 0 ==> |s.combinedContent| == s.totalContentLength + |PAGE_SEPARATOR| * (s.pagesScraped - 1))
      && (s.pagesScraped == 0 ==> s.combinedContent == "" && s.totalContentLength == 0)
  {
    CountIsSuccesses(pages);
    if Contents(pages) != [] {
      JoinLength(Contents(pages), PAGE_SEPARATOR);
    }
  }

  /** Pages that all failed contribute nothing but the first one's (empty) description. */
  lemma {:induction false} AllFailedAggregate(name: string, pages: seq<Page>)
    requires forall i :: 0 <= i < |pages| ==> !Succeeded(pages[i])
    ensures Aggregate(name, pages) == Summary(name, "", "", [], 0, 0)
  {
    if pages != [] {
      AllFailedAggregate(name, pages[1..]);
    }
  }

  /* ---------------------------------------------------------------------- */
  /* The demo-data match                                                    */
  /* ---------------------------------------------------------------------- */

  /** `company_name.lower().replace(" ", "_")`. */
  function NormalizeName(name: string): string {
    ReplaceChar(Lower(name), ' ', '_')
  }

  /** Either of the lower-cased key and the normalized name contains the other. */
  predicate MockMatches(key: string, normalized: string) {
    Contains(normalized, Lower(key)) || Contains(Lower(key), normalized)
  }

  /** The first demo profile, in file order, whose key matches. */
  function FindMock(mocks: seq<(string, Value)>, normalized: string): (r: Option<Value>)
    ensures r.None? <==> forall i :: 0 <= i < |mocks| ==> !MockMatches(mocks[i].0, normalized)
    ensures r.Some? ==> exists i :: (0 <= i < |mocks| && MockMatches(mocks[i].0, normalized) && mocks[i].1 == r.value
      && forall j :: 0 <= j < i ==> !MockMatches(mocks[j].0, normalized))
  {
    if mocks == [] then None
    else if MockMatches(mocks[0].0, normalized) then Some(mocks[0].1)
    else
      var r := FindMock(mocks[1..], normalized);
      assert forall i :: 1 <= i < |mocks| ==> mocks[i] == mocks[1..][i - 1];
      if r.Some? then
        var i :| 0 <= i < |mocks[1..]| && MockMatches(mocks[1..][i].0, normalized) && mocks[1..][i].1 == r.value
          && forall j :: 0 <= j < i ==> !MockMatches(mocks[1..][j].0, normalized);
        assert forall j :: 0 <= j < i + 1 ==> !MockMatches(mocks[j].0, normalized) by {
          forall j | 0 <= j < i + 1 ensures !MockMatches(mocks[j].0, normalized) {
            if j > 0 {
              assert mocks[j] == mocks[1..][j - 1];
            }
          }
        }
        r
      else r
  }

  /**
   A company named exactly as a demo key (up to case, the key holding no
   space) finds a demo profile: the first matching key's, which need not be
   that key's own.
   */
  lemma SameNameMatches(mocks: seq<(string, Value)>, key: string, v: Value)
    requires (key, v) in mocks
    requires NormalizeName(key) == Lower(key)
    ensures FindMock(mocks, NormalizeName(key)).Some?
  {
    var i :| 0 <= i < |mocks| && mocks[i] == (key, v);
    assert OccursAt(Lower(key), Lower(key), 0);
    assert MockMatches(mocks[i].0, NormalizeName(key));
  }

  /* ---------------------------------------------------------------------- */
  /* The whole scrape                                                       */
  /* ---------------------------------------------------------------------- */

  /** The two about pages tried after the given URL, in order, on the URL's origin. */
  function AboutUrls(origin: string): seq<string> {
    [origin + "/about", origin + "/about-us"]
  }

  /**
   The live pages: none without a URL; with one, the given page always
   (whether it worked or not), then each about page that worked.
   */
  function LivePages(url: string, fetch: string -> Fetch, origin: string -> string): (pages: seq<Page>)
    ensures url == "" ==> pages == []
    ensures url != "" ==> 1 <= |pages| <= 3 && pages[0] == ScrapeUrl(url, fetch)
    ensures forall i :: 1 <= i < |pages| ==> Succeeded(pages[i])
    ensures url != "" ==> pages[1..] == Successes([ScrapeUrl(origin(url) + "/about", fetch), ScrapeUrl(origin(url) + "/about-us", fetch)])
  {
    if url == "" then []
    else
      var abouts := AboutUrls(origin(url));
      var first := ScrapeUrl(url, fetch);
      var extras := Keep(ScrapeUrl(abouts[0], fetch)) + Keep(ScrapeUrl(abouts[1], fetch));
      assert forall i :: 0 <= i < |extras| ==> Succeeded(extras[i]);
      [first] + extras
  }

  /** An about page is added only when it worked. */
  function Keep(p: Page): (r: seq<Page>)
    ensures |r| <= 1 && forall i :: 0 <= i < |r| ==> Succeeded(r[i])
  {
    if Succeeded(p) then [p] else []
  }

  /**
   `scrape_company(name, url)`: the first matching demo profile with no pages,
   or the live pages and their summary. `mocks` is the demo data in file order.
   */
  function ScrapeCompany(
    name: string,
    url: string,
    mocks: seq<(string, Value)>,
    fetch: string -> Fetch,
    origin: string -> string
  ): (r: CompanyData)
    ensures r.companyName == name && r.companyUrl == url
    ensures r.source == "mock_data" <==> FindMock(mocks, NormalizeName(name)).Some?
    ensures r.source == "mock_data" ==> r.pages == [] && r.summary == Mock(FindMock(mocks, NormalizeName(name)).value)
    ensures r.source != "mock_data" ==> r.source == "live_scrape" && r.summary == Aggregated(Aggregate(name, r.pages))
  {
    match FindMock(mocks, NormalizeName(name))
    case Some(mock) => CompanyData(name, url, [], Mock(mock), "mock_data")
    case None =>
      var pages := LivePages(url, fetch, origin);
      CompanyData(name, url, pages, Aggregated(Aggregate(name, pages)), "live_scrape")
  }

  /**
   A live scrape counts every page but perhaps the first as scraped, and takes
   its description from the given URL's page.
   */
  lemma LiveScrapeSpec(name: string, url: string, mocks: seq<(string, Value)>, fetch: string -> Fetch, origin: string -> string)
    requires FindMock(mocks, NormalizeName(name)).None? && url != ""
    ensures var r := ScrapeCompany(name, url, mocks, fetch, origin);
      var s := r.summary.summary;
      && |r.pages| - 1 <= s.pagesScraped <= |r.pages| <= 3
      && s.description == DescriptionOf(ScrapeUrl(url, fetch))
  {
    var pages := LivePages(url, fetch, origin);
    AggregateSpec(name, pages);
    assert pages == [pages[0]] + pages[1..];
    SuccessesOfTail(pages);
  }

  /** Every page after the first is scraped: at most one page is left out. */
  lemma SuccessesOfTail(pages: seq<Page>)
    requires pages != [] && forall i :: 1 <= i < |pages| ==> Succeeded(pages[i])
    ensures |Successes(pages)| >= |pages| - 1
  {
    AllSucceeded(pages[1..]);
  }

  lemma {:induction false} AllSucceeded(pages: seq<Page>)
    requires forall i :: 0 <= i < |pages| ==> Succeeded(pages[i])
    ensures Successes(pages) == pages
  {
    if pages != [] {
      AllSucceeded(pages[1..]);
    }
  }

  /** Without a URL and a demo match there is nothing scraped. */
  lemma NoUrlNoPages(name: string, mocks: seq<(string, Value)>, fetch: string -> Fetch, origin: string -> string)
    requires FindMock(mocks, NormalizeName(name)).None?
    ensures ScrapeCompany(name, "", mocks, fetch, origin).summary == Aggregated(Summary(name, "", "", [], 0, 0))
  {
  }

  /* ---------------------------------------------------------------------- */
  /* As JSON                                                                */
  /* ---------------------------------------------------------------------- */

  function HeadingJson(h: Heading): Value {
    Obj([("level", Str(h.level)), ("text", Str(h.text))])
  }

  function HeadingsJson(hs: seq<Heading>): (v: Value)
    ensures v.Arr? && |v.items| == |hs|
  {
    Arr(seq(|hs|, i requires 0 <= i < |hs| => HeadingJson(hs[i])))
  }

  function PageJson(p: Page): Value {
    match p
    case Scraped(url, d, code) =>
      Obj([("title", Str(d.title)), ("description", Str(d.description)), ("content", Str(d.content)),
           ("headings", HeadingsJson(d.headings)), ("url", Str(url)), ("success", Bool(true)),
           ("status_code", Num(code))])
    case Failed(url, error) =>
      Obj([("url", Str(url)), ("success", Bool(false)), ("error", Str(error))])
  }

  function PagesJson(ps: seq<Page>): (v: Value)
    ensures v.Arr? && |v.items| == |ps|
  {
    Arr(seq(|ps|, i requires 0 <= i < |ps| => PageJson(ps[i])))
  }

  function SummaryJson(s: Summary): Value {
    Obj([("name", Str(s.name)), ("description", Str(s.description)),
         ("combined_content", Str(s.combinedContent)), ("headings", HeadingsJson(s.headings)),
         ("pages_scraped", Num(s.pagesScraped)), ("total_content_length", Num(s.totalContentLength))])
  }

  function ProfileJson(p: Profile): Value {
    match p
    case Aggregated(s) => SummaryJson(s)
    case Mock(v) => v
  }

  function CompanyDataJson(r: CompanyData): Value {
    Obj([("company_name", Str(r.companyName)), ("company_url", Str(r.companyUrl)),
         ("pages", PagesJson(r.pages)), ("summary", ProfileJson(r.summary)), ("source", Str(r.source))])
  }
}
