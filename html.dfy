/**
 * What the Threads and LinkedIn scrapers share: fetching the page, the
 * `<meta>` tag patterns and the `"key": <digits>` counters read from the
 * page source.
 */
module Html {
  import opened Wrappers
  import opened Text
  import opened Regex
  import opened ScraperBase

  /** How the page request ends. */
  datatype Fetch =
    | Page(status: int, html: string)  // a response, with its text
    | ClientError(message: string)     // aiohttp.ClientError
    | OtherError(message: string)      // any other exception, with str(e)

  /** The failure message for a fetch that gives no page to parse, if it is one. */
  function FetchFailure(fetch: Fetch): (m: Option<string>)
    ensures m.None? <==> fetch.Page? && fetch.status == 200
    ensures fetch.Page? && fetch.status != 200 ==> m == Some("HTTP " + IntToString(fetch.status))
    ensures fetch.ClientError? ==> m == Some("Network error: " + fetch.message)
    ensures fetch.OtherError? ==> m == Some(fetch.message)
  {
    match fetch
    case Page(status, _) => if status == 200 then None else Some("HTTP " + IntToString(status))
    case ClientError(msg) => Some("Network error: " + msg)
    case OtherError(msg) => Some(msg)
  }

  /**
   * `scrape`: a 200 page is parsed by `parse`; any other outcome is a
   * failure result for `platform` with that outcome's message, and nothing raises.
   */
  function ScrapePage(url: string, platform: string, fetch: Fetch, parse: string -> ScrapeResult): (r: ScrapeResult)
    ensures fetch.Page? && fetch.status == 200 ==> r == parse(fetch.html)
    ensures !(fetch.Page? && fetch.status == 200) ==>
      !r.success && r.url == url && r.platform == platform && Bare(r) && r.errorMessage == FetchFailure(fetch)
  {
    match FetchFailure(fetch)
    case Some(m) => ScraperBase.Failure(url, platform, m)
    case None => parse(fetch.html)
  }

  /** `[^>]+` */
  const InTag := Repeat(NotChar('>'), 1)

  /** `content="([^"]*)"` */
  const ContentValue := [Lit("content=\""), Capture(NotChar('"'), 0, false), Lit("\"")]

  /** `<meta[^>]+{attr}="{name}"[^>]+content="([^"]*)"`, searched with IGNORECASE. */
  function AttrThenContent(attr: string, name: string): Pattern
  {
    Pattern([Lit("<meta"), InTag, Lit(attr + "=\"" + name + "\""), InTag] + ContentValue, true)
  }

  /** `<meta[^>]+content="([^"]*)"[^>]+property="{name}"`, searched with IGNORECASE. */
  function ContentThenProperty(name: string): Pattern
  {
    Pattern([Lit("<meta"), InTag] + ContentValue + [InTag, Lit("property=\"" + name + "\"")], true)
  }

  /** The value a meta pattern captures never holds a double quote. */
  lemma MetaValueUnquoted(pat: Pattern, html: string)
    requires forall k :: 0 <= k < |pat.nodes| && pat.nodes[k].Capture? ==> pat.nodes[k].cls == NotChar('"')
    requires FirstGroup(pat, html).Some?
    ensures '"' !in FirstGroup(pat, html).value
  {
    var h := Search(pat, html).value;
    assert MatchAt(pat, html, h.start) == Some((h.end, h.group));
    assert CapturedBy(pat.nodes, h.group);
    var g := h.group.value;
    var k :| 0 <= k < |pat.nodes| && pat.nodes[k].Capture? && AllIn(pat.nodes[k].cls, g);
    assert forall j :: 0 <= j < |g| ==> g[j] != '"';
  }

  lemma AttrThenContentUnquoted(attr: string, name: string, html: string)
    requires FirstGroup(AttrThenContent(attr, name), html).Some?
    ensures '"' !in FirstGroup(AttrThenContent(attr, name), html).value
  {
    var p := AttrThenContent(attr, name);
    assert forall k :: 0 <= k < |p.nodes| && p.nodes[k].Capture? ==> k == 5;
    MetaValueUnquoted(p, html);
  }

  lemma ContentThenPropertyUnquoted(name: string, html: string)
    requires FirstGroup(ContentThenProperty(name), html).Some?
    ensures '"' !in FirstGroup(ContentThenProperty(name), html).value
  {
    var p := ContentThenProperty(name);
    assert forall k :: 0 <= k < |p.nodes| && p.nodes[k].Capture? ==> k == 3;
    MetaValueUnquoted(p, html);
  }

  /** `"{key}":\s*(\d+)`. */
  function CounterPattern(key: string): Pattern
  {
    Pattern([Lit("\"" + key + "\":"), Repeat(Space, 0), Capture(Digit, 1, false)], false)
  }

  /** `int(m.group(1)) if m else None` for the counter pattern: a count, never negative. */
  function Counter(html: string, key: string): (r: Option<int>)
    ensures r.Some? ==> r.value >= 0
    ensures r.Some? ==> Found(CounterPattern(key), html)
    ensures r.Some? ==>
      (FirstGroup(CounterPattern(key), html).Some? && AllDigits(FirstGroup(CounterPattern(key), html).value)
       && r.value == DigitsValue(FirstGroup(CounterPattern(key), html).value))
  {
    var pat := CounterPattern(key);
    match FirstGroup(pat, html)
    case None => None
    case Some(d) =>
      assert forall k :: 0 <= k < |pat.nodes| && pat.nodes[k].Capture? ==> k == 2;
      DigitGroup(pat, html);
      Some(DigitsValue(d))
  }
}
