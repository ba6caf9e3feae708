/**
 Web search connector (`backend/connectors/web_search.py`): mapping the
 search API's JSON answer to result records, cleaning up and truncating the
 text of a scraped page, and keeping the results whose page yielded text.
 The HTTP requests and the HTML-to-text conversion are foreign calls: the
 search answer and the page text arrive as parameters, `None` when the
 request, status check or decoding raised.
 */
module WebSearch {
  import opened Wrappers
  import opened Text
  import opened Json

  const MissingKeyMessage: string := "BRAVE_API_KEY not set"
  const DefaultCount: int := 3
  const DefaultMaxLength: int := 5000
  const Ellipsis: string := "..."

  /** One search result: the raw `title`, `url` and `description` values, `""` when absent. */
  datatype WebResult = WebResult(title: Json, url: Json, description: Json)

  /** A search result with the text of its page. */
  datatype Enriched = Enriched(title: Json, url: Json, description: Json, content: string)

  // ---------------------------------------------------------------------------
  // search
  // ---------------------------------------------------------------------------

  /** `{"title": item.get("title", ""), ...}` for one item. */
  function ResultOf(item: Dict): WebResult {
    WebResult(Get(item, "title", JStr("")), Get(item, "url", JStr("")), Get(item, "description", JStr("")))
  }

  /** The result loop: `None` as soon as an item is not a `dict` (its `.get` raises). */
  function MapItems(items: seq<Json>): (r: Option<seq<WebResult>>)
    ensures r.Some? <==> forall i :: 0 <= i < |items| ==> items[i].JObj?
    ensures r.Some? ==> |r.value| == |items|
    ensures r.Some? ==> forall i :: 0 <= i < |items| ==> r.value[i] == ResultOf(items[i].fields)
  {
    if |items| == 0 then Some([])
    else
      match items[0]
      case JObj(m) =>
        (match MapItems(items[1..])
         case Some(rest) => Some([ResultOf(m)] + rest)
         case None => None)
      case _ => None
  }

  /**
    `data.get("web", {}).get("results", [])[:count]` and the loop over it.
    Every shape other than a `dict` holding a `dict` holding a list raises
    somewhere, or, for a string, slices to items that raise or to nothing.
   */
  function ResultsOf(data: Json, count: int): (r: seq<WebResult>)
  {
    match data
    case JObj(d) =>
      (match Get(d, "web", JObj(map[]))
       case JObj(w) =>
         (match Get(w, "results", JArr([]))
          case JArr(items) => MapItems(PySlice(items, 0, count)).GetOr([])
          case _ => [])
       case _ => [])
    case _ => []
  }

  /**
    `search(query, count)` given the API key and the decoded answer of the
    search request. A missing or empty key raises before any request; a
    failed request gives `[]`.
   */
  function Search(apiKey: Option<string>, count: int, response: Option<Json>): (r: Result<seq<WebResult>, PyError>)
    ensures r.Failure? <==> apiKey.None? || apiKey.value == ""
    ensures r.Failure? ==> r.error == ValueError(MissingKeyMessage)
    ensures r.Success? && response.None? ==> r.value == []
  {
    if apiKey.None? || apiKey.value == "" then Failure(ValueError(MissingKeyMessage))
    else
      match response
      case None => Success([])
      case Some(data) => Success(ResultsOf(data, count))
  }

  /**
    For a well-shaped answer the results are the first `count` items, in the
    API's order, each reduced to its three fields.
   */
  lemma SearchTakesFirstItems(apiKey: string, count: nat, d: Dict, w: Dict, items: seq<Json>)
    requires apiKey != ""
    requires "web" in d && d["web"] == JObj(w) && "results" in w && w["results"] == JArr(items)
    requires forall i :: 0 <= i < |items| ==> items[i].JObj?
    ensures var r := Search(Some(apiKey), count, Some(JObj(d)));
      && r.Success?
      && |r.value| == Min(count, |items|)
      && forall i :: 0 <= i < |r.value| ==> r.value[i] == ResultOf(items[i].fields)
  {
    var taken := PySlice(items, 0, count);
    assert taken == items[..Min(count, |items|)];
    assert forall i :: 0 <= i < |taken| ==> taken[i] == items[i];
    assert Get(d, "web", JObj(map[])) == JObj(w);
    assert Get(w, "results", JArr([])) == JArr(items);
  }

  /** One item that is not an object discards the whole answer. */
  lemma NonObjectItemDiscardsAll(items: seq<Json>, k: nat)
    requires k < |items| && !items[k].JObj?
    ensures MapItems(items) == None
  {
  }

  // ---------------------------------------------------------------------------
  // scrape_content
  // ---------------------------------------------------------------------------

  /** The stripped, non-empty lines of `lines`, in order. */
  function KeptLines(lines: seq<string>): (kept: seq<string>)
    ensures |kept| <= |lines|
    ensures forall i :: 0 <= i < |kept| ==> kept[i] != ""
  {
    if |lines| == 0 then []
    else
      var l := Strip(lines[0]);
      (if l != "" then [l] else []) + KeptLines(lines[1..])
  }

  /** `'\n'.join([line.strip() for line in text.splitlines() if line.strip()])`. */
  function CleanLines(text: string): string {
    Join(KeptLines(SplitLines(text)), "\n")
  }

  /** A stripped piece of a line still has no line boundary. */
  lemma StripKeepsNoLineBreak(s: string)
    requires NoLineBreak(s)
    ensures NoLineBreak(Strip(s))
  {
    var a := StripIsInfix(s);
    var r := Strip(s);
    forall i | 0 <= i < |r| ensures !IsLineBreak(r[i]) {
      assert r[i] == s[a + i];
    }
  }

  /** Every kept line is already stripped and free of line boundaries. */
  lemma {:induction false} KeptLinesClean(lines: seq<string>)
    requires forall i :: 0 <= i < |lines| ==> NoLineBreak(lines[i])
    ensures forall i :: 0 <= i < |KeptLines(lines)| ==>
              NoLineBreak(KeptLines(lines)[i]) && Strip(KeptLines(lines)[i]) == KeptLines(lines)[i]
  {
    if |lines| > 0 {
      KeptLinesClean(lines[1..]);
      StripKeepsNoLineBreak(lines[0]);
      StripIdempotent(lines[0]);
    }
  }

  /** Clean lines are kept as they are. */
  lemma {:induction false} KeptLinesOfClean(lines: seq<string>)
    requires forall i :: 0 <= i < |lines| ==> lines[i] != "" && Strip(lines[i]) == lines[i]
    ensures KeptLines(lines) == lines
  {
    if |lines| > 0 {
      KeptLinesOfClean(lines[1..]);
    }
  }

  /**
    The cleaned text splits back into the kept lines: one per non-blank
    line of the input, stripped.
   */
  lemma CleanLinesSplit(text: string)
    ensures SplitLines(CleanLines(text)) == KeptLines(SplitLines(text))
  {
    KeptLinesClean(SplitLines(text));
    SplitLinesOfJoin(KeptLines(SplitLines(text)));
  }

  /** Cleaning is idempotent: cleaned text has no blank lines and no surrounding whitespace on any line. */
  lemma CleanLinesIdempotent(text: string)
    ensures CleanLines(CleanLines(text)) == CleanLines(text)
  {
    var kept := KeptLines(SplitLines(text));
    CleanLinesSplit(text);
    KeptLinesClean(SplitLines(text));
    KeptLinesOfClean(kept);
  }

  /** `if len(text) > max_length: text = text[:max_length] + "..."`. */
  function Truncate(text: string, maxLength: int): (r: string)
    ensures |text| <= maxLength ==> r == text
    ensures |text| > maxLength >= 0 ==> r == text[..maxLength] + Ellipsis
    ensures |text| > maxLength && maxLength < 0 ==> r == PySlice(text, 0, maxLength) + Ellipsis
  {
    if |text| > maxLength then PySlice(text, 0, maxLength) + Ellipsis else text
  }

  /** A truncated text is never longer than `max_length` plus the three dots. */
  lemma TruncateBound(text: string, maxLength: nat)
    ensures |Truncate(text, maxLength)| <= maxLength + |Ellipsis|
    ensures Truncate(text, maxLength)[..Min(|text|, maxLength)] == text[..Min(|text|, maxLength)]
  {
  }

  /**
    `scrape_content(url, max_length)` given the text BeautifulSoup extracted
    from the page, `None` when fetching or parsing raised (which yields `""`).
   */
  function ScrapeContent(pageText: Option<string>, maxLength: int): (r: string)
    ensures pageText.None? ==> r == ""
    ensures pageText.Some? && |CleanLines(pageText.value)| <= maxLength ==> r == CleanLines(pageText.value)
  {
    match pageText
    case None => ""
    case Some(t) => Truncate(CleanLines(t), maxLength)
  }

  /** A page whose text is blank gives no content. */
  lemma BlankPageGivesNothing(text: string, maxLength: nat)
    requires forall i :: 0 <= i < |SplitLines(text)| ==> Strip(SplitLines(text)[i]) == ""
    ensures ScrapeContent(Some(text), maxLength) == ""
  {
    assert KeptLines(SplitLines(text)) == [] by { KeptLinesBlank(SplitLines(text)); }
  }

  lemma {:induction false} KeptLinesBlank(lines: seq<string>)
    requires forall i :: 0 <= i < |lines| ==> Strip(lines[i]) == ""
    ensures KeptLines(lines) == []
  {
    if |lines| > 0 {
      KeptLinesBlank(lines[1..]);
    }
  }

  // ---------------------------------------------------------------------------
  // search_and_scrape
  // ---------------------------------------------------------------------------

  /** The content `search_and_scrape` attaches to a result. */
  function ContentOf(r: WebResult, fetch: Json -> Option<string>): string {
    ScrapeContent(fetch(r.url), DefaultMaxLength)
  }

  /** What one pass of the loop appends for result `r`: its record if its page gave content, else nothing. */
  function Kept(r: WebResult, fetch: Json -> Option<string>): (e: seq<Enriched>)
    ensures |e| <= 1
    ensures forall i :: 0 <= i < |e| ==> e[i].content != ""
  {
    var content := ContentOf(r, fetch);
    if content != "" then [Enriched(r.title, r.url, r.description, content)] else []
  }

  /**
    The enrichment loop: scrape each result's url with the default length
    and keep the results whose content is not empty. `fetch(url)` is the
    page text of `url`.
   */
  function Enrich(results: seq<WebResult>, fetch: Json -> Option<string>): (out: seq<Enriched>)
    ensures |out| <= |results|
    ensures forall i :: 0 <= i < |out| ==> out[i].content != ""
  {
    if |results| == 0 then []
    else Kept(results[0], fetch) + Enrich(results[1..], fetch)
  }

  /** `search_and_scrape(query, count)`: a missing key still raises; otherwise the enriched results. */
  function SearchAndScrape(apiKey: Option<string>, count: int, response: Option<Json>,
                           fetch: Json -> Option<string>): (r: Result<seq<Enriched>, PyError>)
    ensures r.Failure? <==> Search(apiKey, count, response).Failure?
    ensures r.Failure? ==> r.error == Search(apiKey, count, response).error
    ensures r.Success? ==> r.value == Enrich(Search(apiKey, count, response).value, fetch)
  {
    match Search(apiKey, count, response)
    case Failure(e) => Failure(e)
    case Success(results) => Success(Enrich(results, fetch))
  }

  /** How many results have a page with content. */
  function CountWithContent(results: seq<WebResult>, fetch: Json -> Option<string>): nat {
    if |results| == 0 then 0
    else (if ContentOf(results[0], fetch) != "" then 1 else 0) + CountWithContent(results[1..], fetch)
  }

  /** One enriched record per result with content, and no other. */
  lemma {:induction false} EnrichCount(results: seq<WebResult>, fetch: Json -> Option<string>)
    ensures |Enrich(results, fetch)| == CountWithContent(results, fetch)
  {
    if |results| > 0 {
      EnrichCount(results[1..], fetch);
    }
  }

  /**
    An enriched record is exactly a result whose page gave content, carrying
    that result's fields and that content.
   */
  lemma {:induction false} EnrichMembership(results: seq<WebResult>, fetch: Json -> Option<string>, e: Enriched)
    ensures e in Enrich(results, fetch)
        <==> WebResult(e.title, e.url, e.description) in results
             && e.content == ContentOf(WebResult(e.title, e.url, e.description), fetch)
             && e.content != ""
  {
    if |results| > 0 {
      var w, rest := WebResult(e.title, e.url, e.description), results[1..];
      EnrichMembership(rest, fetch, e);
      KeptMembership(results[0], fetch, e);
      assert e in Enrich(results, fetch) <==> e in Kept(results[0], fetch) || e in Enrich(rest, fetch);
      assert w in results <==> w == results[0] || w in rest by {
        assert results == [results[0]] + rest;
      }
    }
  }

  /** The record of one result is `e` exactly when `e` carries its fields and its non-empty content. */
  lemma KeptMembership(r: WebResult, fetch: Json -> Option<string>, e: Enriched)
    ensures e in Kept(r, fetch)
        <==> WebResult(e.title, e.url, e.description) == r && e.content == ContentOf(r, fetch) && e.content != ""
  {
  }

  /** When every page gives content, every result is kept, in the search's order, with its content. */
  lemma {:induction false} EnrichKeepsAllWhenAllHaveContent(results: seq<WebResult>, fetch: Json -> Option<string>)
    requires forall i :: 0 <= i < |results| ==> ContentOf(results[i], fetch) != ""
    ensures |Enrich(results, fetch)| == |results|
    ensures forall i :: 0 <= i < |results| ==>
              Enrich(results, fetch)[i] == Enriched(results[i].title, results[i].url, results[i].description,
                                                    ContentOf(results[i], fetch))
  {
    if |results| > 0 {
      EnrichKeepsAllWhenAllHaveContent(results[1..], fetch);
    }
  }

  /**
    Enrichment works result by result: enriching two runs of results is
    enriching each and concatenating, so the kept results stay in the
    search's order.
   */
  lemma {:induction false} EnrichAppend(a: seq<WebResult>, b: seq<WebResult>, fetch: Json -> Option<string>)
    ensures Enrich(a + b, fetch) == Enrich(a, fetch) + Enrich(b, fetch)
  {
    if |a| == 0 {
      assert a + b == b;
    } else {
      assert (a + b)[0] == a[0] && (a + b)[1..] == a[1..] + b;
      EnrichAppend(a[1..], b, fetch);
    }
  }

  /** One result is kept, with its content, exactly when its page gave content. */
  lemma EnrichOne(r: WebResult, fetch: Json -> Option<string>)
    ensures ContentOf(r, fetch) != "" ==>
              Enrich([r], fetch) == [Enriched(r.title, r.url, r.description, ContentOf(r, fetch))]
    ensures ContentOf(r, fetch) == "" ==> Enrich([r], fetch) == []
  {
    assert [r][1..] == [];
  }
}
