/** The LinkedIn scraper: which URLs it takes and what it reads from a post's page. */
module LinkedIn {
  import opened Wrappers
  import opened Text
  import opened Regex
  import opened ScraperBase
  import opened Html

  const Name := "linkedin"

  /** `URL_PATTERNS`: plain paths, searched case-sensitively. */
  const Paths: seq<string> := ["linkedin.com/posts/", "linkedin.com/feed/update/", "linkedin.com/pulse/", "linkedin.com/video/"]

  /** `supports`: some pattern is found in the URL. */
  predicate Supports(url: string)
  {
    exists k :: 0 <= k < |Paths| && Found(Pattern([Lit(Paths[k])], false), url)
  }

  /** A URL is supported exactly when it contains one of the four paths. */
  lemma SupportsIff(url: string)
    ensures Supports(url) <==> exists k :: 0 <= k < |Paths| && Contains(url, Paths[k])
  {
    forall k | 0 <= k < |Paths|
      ensures Found(Pattern([Lit(Paths[k])], false), url) <==> Contains(url, Paths[k])
    {
      LiteralFound(Paths[k], false, url);
    }
  }

  /** `^(.+?) on LinkedIn`, tried at the start of the title (`re.match`). */
  const TitlePattern := Pattern([Capture(AnyButNewline, 1, true), Lit(" on LinkedIn")], false)

  /** The title's first `n` characters are a candidate author: non-empty, on one line, and followed by " on LinkedIn". */
  predicate AuthorEnd(title: string, n: nat)
  {
    1 <= n && CharsAt(title, n, " on LinkedIn") && forall k :: 0 <= k < n ==> title[k] != '\n'
  }

  /** After the group: the literal " on LinkedIn", whatever has been captured. */
  lemma SuffixAt(s: string, e: nat, g: Option<string>)
    requires e <= |s|
    ensures MatchHere(TitlePattern.nodes[1..], false, s, e, g).Some? <==> CharsAt(s, e, " on LinkedIn")
    ensures MatchHere(TitlePattern.nodes[1..], false, s, e, g).Some? ==> MatchHere(TitlePattern.nodes[1..], false, s, e, g).value.1 == g
  {
    assert TitlePattern.nodes[1..][1..] == [];
    if e + 12 <= |s| {
      CharsAtIff(s, e, " on LinkedIn");
    }
  }

  /** The group is cut from one line. */
  lemma OneLine(title: string, n: nat)
    requires n <= |title| && AuthorEnd(title, n)
    ensures n <= RunLength(title, 0, AnyButNewline)
  {
    assert AllIn(AnyButNewline, title[0..n]) by {
      assert forall k :: 0 <= k < n ==> title[0..n][k] == title[k];
    }
    RunLengthMax(title, 0, AnyButNewline, n);
  }

  /** The author `re.match(r'^(.+?) on LinkedIn', title)` captures, if it matches. */
  function TitleAuthor(title: string): (r: Option<string>)
    ensures r.Some? ==> r.value != []
  {
    match MatchAt(TitlePattern, title, 0)
    case Some((_, g)) =>
      if g.Some? && g.value != [] then g else None
    case None => None
  }

  /**
   * The captured author is the shortest candidate prefix of the title,
   * and there is one exactly when some prefix is a candidate.
   */
  lemma TitleAuthorShortest(title: string)
    ensures TitleAuthor(title).Some? ==>
      AuthorEnd(title, |TitleAuthor(title).value|) && TitleAuthor(title).value == title[..|TitleAuthor(title).value|]
    ensures TitleAuthor(title).Some? ==> forall m :: 1 <= m < |TitleAuthor(title).value| ==> !AuthorEnd(title, m)
    ensures TitleAuthor(title).None? <==> forall n :: 0 <= n <= |title| ==> !AuthorEnd(title, n)
  {
    var p := TitlePattern.nodes;
    var max := RunLength(title, 0, AnyButNewline);
    assert MatchAt(TitlePattern, title, 0) == Backtrack(p, false, title, 0, None, max, 0);
    if Backtrack(p, false, title, 0, None, max, 0).Some? {
      var e := BacktrackLazy(p, false, title, 0, None, max, 0);
      SuffixAt(title, e, Some(title[0..e]));
      assert TitleAuthor(title) == Some(title[..e]);
      forall f | 1 <= f < e
        ensures !AuthorEnd(title, f)
      {
        SuffixAt(title, f, Some(title[0..f]));
      }
      assert AuthorEnd(title, e);
    } else {
      forall n | 0 <= n <= |title|
        ensures !AuthorEnd(title, n)
      {
        if AuthorEnd(title, n) {
          OneLine(title, n);
          SuffixAt(title, n, Some(title[0..n]));
          BacktrackLazyFound(p, false, title, 0, None, max, 0, n);
        }
      }
    }
  }

  /** `_extract_meta`: property-then-content, then content-then-property, then name-then-content; the value has no quote. */
  function ExtractMeta(html: string, name: string): (r: Option<string>)
    ensures FirstGroup(AttrThenContent("property", name), html).Some? ==> r == FirstGroup(AttrThenContent("property", name), html)
    ensures FirstGroup(AttrThenContent("property", name), html).None? && FirstGroup(ContentThenProperty(name), html).Some?
      ==> r == FirstGroup(ContentThenProperty(name), html)
    ensures FirstGroup(AttrThenContent("property", name), html).None? && FirstGroup(ContentThenProperty(name), html).None?
      ==> r == FirstGroup(AttrThenContent("name", name), html)
    ensures r.Some? ==> '"' !in r.value
  {
    match FirstGroup(AttrThenContent("property", name), html)
    case Some(v) =>
      AttrThenContentUnquoted("property", name, html);
      Some(v)
    case None =>
      match FirstGroup(ContentThenProperty(name), html)
      case Some(v) =>
        ContentThenPropertyUnquoted(name, html);
        Some(v)
      case None =>
        match FirstGroup(AttrThenContent("name", name), html)
        case Some(v) =>
          AttrThenContentUnquoted("name", name, html);
          Some(v)
        case None => None
  }

  /** Some prefix of the title, `n` characters long, is a candidate author. */
  predicate HasAuthorEnd(title: string)
  {
    exists n :: 0 <= n <= |title| && AuthorEnd(title, n)
  }

  /**
   * `_parse_html`'s author: the shortest candidate prefix of a non-empty
   * og:title when there is one, else the article:author meta.
   */
  function Author(html: string): (r: Option<string>)
    ensures var t := ExtractMeta(html, "og:title");
      Truthy(t) && HasAuthorEnd(t.value) ==>
        r.Some? && AuthorEnd(t.value, |r.value|) && r.value == t.value[..|r.value|]
        && forall m :: 1 <= m < |r.value| ==> !AuthorEnd(t.value, m)
    ensures var t := ExtractMeta(html, "og:title");
      !(Truthy(t) && HasAuthorEnd(t.value)) ==> r == ExtractMeta(html, "article:author")
  {
    var title := ExtractMeta(html, "og:title");
    var text := if title.Some? then title.value else [];
    TitleAuthorShortest(text);
    if Truthy(title) && TitleAuthor(text).Some? then TitleAuthor(text)
    else ExtractMeta(html, "article:author")
  }

  /** `_parse_html`: a successful result with the author, the three meta tags and the two counters, and no media. */
  function ParseHtml(html: string, url: string): (r: ScrapeResult)
    ensures r.success && r.url == url && r.platform == Name && r.errorMessage.None?
    ensures r.author == Author(html)
    ensures r.title == CleanText(ExtractMeta(html, "og:title"))
    ensures r.content == CleanText(ExtractMeta(html, "og:description"))
    ensures r.thumbnailUrl == ExtractMeta(html, "og:image")
    ensures r.likes == Counter(html, "numLikes") && r.comments == Counter(html, "numComments")
    ensures r.likes.Some? ==> r.likes.value >= 0
    ensures r.comments.Some? ==> r.comments.value >= 0
    ensures r.mediaUrls == [] && r.mediaType.None? && r.authorUrl.None?
    ensures r.views.None? && r.shares.None? && r.postedAt.None?
  {
    NewResult(true, url).(
      platform := Name,
      author := Author(html),
      title := CleanText(ExtractMeta(html, "og:title")),
      content := CleanText(ExtractMeta(html, "og:description")),
      likes := Counter(html, "numLikes"),
      comments := Counter(html, "numComments"),
      thumbnailUrl := ExtractMeta(html, "og:image"))
  }

  /** `scrape`: the page through `ParseHtml`, or a failure for the fetch outcome. */
  function Scrape(url: string, fetch: Fetch): (r: ScrapeResult)
    ensures r.url == url && r.platform == Name
    ensures r.success <==> fetch.Page? && fetch.status == 200
    ensures r.success ==> r == ParseHtml(fetch.html, url)
    ensures !r.success ==> Bare(r) && r.errorMessage == FetchFailure(fetch)
  {
    ScrapePage(url, Name, fetch, html => ParseHtml(html, url))
  }
}
