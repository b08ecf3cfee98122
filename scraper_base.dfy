/**
 * What every scraper shares: the scrape result record and its defaults,
 * the yt-dlp cookie arguments and text clean-up.
 */
module ScraperBase {
  import opened Wrappers
  import opened Text
  import opened Models

  /** Python's truth value of an optional string: absent and empty are false. */
  predicate Truthy(s: Option<string>)
  {
    s.Some? && s.value != []
  }

  /** The outcome of scraping one URL; the clock field `scraped_at` is not modelled. */
  datatype ScrapeResult = ScrapeResult(
    success: bool,
    url: string,
    author: Option<string>,
    authorUrl: Option<string>,
    title: Option<string>,
    content: Option<string>,
    postedAt: Option<Instant>,
    views: Option<int>,
    likes: Option<int>,
    comments: Option<int>,
    shares: Option<int>,
    thumbnailUrl: Option<string>,
    mediaUrls: seq<string>,
    mediaType: Option<string>,
    platform: string,
    errorMessage: Option<string>)

  /** No author, content, metrics or media. */
  predicate Bare(r: ScrapeResult)
  {
    r.author.None? && r.authorUrl.None? && r.title.None? && r.content.None? && r.postedAt.None?
    && r.views.None? && r.likes.None? && r.comments.None? && r.shares.None?
    && r.thumbnailUrl.None? && r.mediaUrls == [] && r.mediaType.None?
  }

  /** `ScrapeResult(success=..., url=...)`: every other field at its default. */
  function NewResult(success: bool, url: string): (r: ScrapeResult)
    ensures r.success == success && r.url == url
    ensures Bare(r) && r.platform == "unknown" && r.errorMessage.None?
  {
    ScrapeResult(success, url, None, None, None, None, None, None, None, None, None, None, [], None, "unknown", None)
  }

  /** A failed scrape of `url` by the `platform` scraper, with `message`. */
  function Failure(url: string, platform: string, message: string): (r: ScrapeResult)
    ensures !r.success && r.url == url && Bare(r)
    ensures r.platform == platform && r.errorMessage == Some(message)
  {
    NewResult(false, url).(platform := platform, errorMessage := Some(message))
  }

  /** `_get_cookie_args`: the browser when one is set, else the cookies file when one is set, else nothing. */
  function CookieArgs(browser: Option<string>, file: Option<string>): (r: seq<string>)
    ensures r == [] <==> !Truthy(browser) && !Truthy(file)
    ensures r != [] ==> |r| == 2
    ensures Truthy(browser) ==> r == ["--cookies-from-browser", browser.value]
    ensures !Truthy(browser) && Truthy(file) ==> r == ["--cookies", file.value]
  {
    if Truthy(browser) then ["--cookies-from-browser", browser.value]
    else if Truthy(file) then ["--cookies", file.value]
    else []
  }

  /**
   * `_clean_text`: nothing for absent, empty or all-whitespace text;
   * otherwise the same words, separated by single spaces, with nothing
   * to strip at either end.
   */
  function CleanText(text: Option<string>): (r: Option<string>)
    ensures r.None? <==> text.None? || Words(text.value) == []
    ensures r.Some? ==> r.value != [] && Squeezed(r.value) && Words(r.value) == Words(text.value)
  {
    if !Truthy(text) then None
    else
      var ws := Words(text.value);
      var joined := Join(ws, " ");
      JoinSpaceSqueezed(ws);
      if joined == [] then None
      else
        StripUnchanged(joined);
        WordsOfJoin(ws);
        Some(Strip(joined))
  }

  /** Cleaning keeps every non-whitespace character, in order. */
  lemma CleanTextVisible(text: string)
    requires CleanText(Some(text)).Some?
    ensures Visible(CleanText(Some(text)).value) == Visible(text)
  {
    var r := CleanText(Some(text)).value;
    WordsKeepVisible(r);
    WordsKeepVisible(text);
  }

  /** Cleaning its own output changes nothing. */
  lemma CleanTextIdempotent(text: string)
    requires CleanText(Some(text)).Some?
    ensures CleanText(CleanText(Some(text))) == CleanText(Some(text))
  {
    var r := CleanText(Some(text)).value;
    assert Words(r) == Words(text);
  }
}
