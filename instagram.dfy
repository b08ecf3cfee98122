/** The Instagram scraper: which URLs it takes and how a yt-dlp run becomes a scrape result. */
module Instagram {
  import opened Wrappers
  import opened Text
  import opened Models
  import opened Regex
  import opened ScraperBase
  import opened YtDlp

  const Name := "instagram"

  /** `URL_PATTERNS`, each searched with IGNORECASE. */
  const Paths: seq<string> := ["instagram.com/p/", "instagram.com/reel/", "instagram.com/stories/", "instagram.com/tv/"]

  function UrlPattern(path: string): Pattern
  {
    Pattern([Lit(path)], true)
  }

  /** `supports`: some pattern is found in the URL. */
  predicate Supports(url: string)
  {
    exists k :: 0 <= k < |Paths| && Found(UrlPattern(Paths[k]), url)
  }

  /** A URL is supported exactly when it contains one of the four paths, ignoring case. */
  lemma SupportsIff(url: string)
    ensures Supports(url) <==> exists k :: 0 <= k < |Paths| && ContainsIgnoreCase(url, Paths[k])
  {
    forall k | 0 <= k < |Paths|
      ensures Found(UrlPattern(Paths[k]), url) <==> ContainsIgnoreCase(url, Paths[k])
    {
      LiteralFound(Paths[k], true, url);
    }
  }

  /** The `yt-dlp` command: metadata only, with the cookie arguments before the URL. */
  function Command(url: string, browser: Option<string>, cookieFile: Option<string>): (cmd: seq<string>)
    ensures |cmd| == 5 + |CookieArgs(browser, cookieFile)|
    ensures cmd[0] == "yt-dlp" && cmd[|cmd| - 1] == url
    ensures cmd[4..|cmd| - 1] == CookieArgs(browser, cookieFile)
  {
    DumpCommand(CookieArgs(browser, cookieFile), url)
  }

  /** A non-zero exit: a login or private-post complaint in stderr, or the stderr itself. */
  function ExitMessage(stderr: string): (m: string)
    ensures var e := ToLower(Strip(stderr));
      m == "Private or login required" <==> Contains(e, "login") || Contains(e, "private")
    ensures m != "Private or login required" ==> m == FailedMessage(stderr)
  {
    var e := ToLower(Strip(stderr));
    if Contains(e, "login") || Contains(e, "private") then "Private or login required"
    else
      var m := FailedMessage(stderr);
      assert m[0] == 'y';
      m
  }

  /** `_parse_ytdlp_result`: the record mapped into a successful scrape result. */
  function ParseInfo(url: string, info: Info, parseDate: string -> Option<Instant>, fromTimestamp: int -> Option<Instant>)
    : (r: ScrapeResult)
    ensures r.success && r.url == url && r.platform == Name && r.errorMessage.None?
    ensures Truthy(info.uploader) ==> r.author == info.uploader
    ensures !Truthy(info.uploader) ==> r.author == info.channel
    ensures Truthy(info.uploaderUrl) ==> r.authorUrl == info.uploaderUrl
    ensures !Truthy(info.uploaderUrl) ==> r.authorUrl == info.channelUrl
    ensures r.title == CleanText(info.title) && r.content == CleanText(info.description)
    ensures r.postedAt == PostedAt(info, parseDate, fromTimestamp)
    ensures r.views == info.viewCount && r.likes == info.likeCount && r.comments == info.commentCount
    ensures r.shares.None? && r.thumbnailUrl == info.thumbnail
    ensures r.mediaUrls == MediaUrls(info) && |r.mediaUrls| <= 1
    ensures r.mediaType == Some("image") <==> Contains(url, "/p/") && !Nonzero(info.duration)
    ensures r.mediaType.Some? && (r.mediaType.value == "image" || r.mediaType.value == "video")
  {
    var mediaType := if Contains(url, "/p/") && !Nonzero(info.duration) then "image" else "video";
    ScrapeResult(
      success := true,
      url := url,
      author := Or(info.uploader, info.channel),
      authorUrl := Or(info.uploaderUrl, info.channelUrl),
      title := CleanText(info.title),
      content := CleanText(info.description),
      postedAt := PostedAt(info, parseDate, fromTimestamp),
      views := info.viewCount,
      likes := info.likeCount,
      comments := info.commentCount,
      shares := None,
      thumbnailUrl := info.thumbnail,
      mediaUrls := MediaUrls(info),
      mediaType := Some(mediaType),
      platform := Name,
      errorMessage := None)
  }

  /** The failure message for a run that does not yield a record, if it is one. */
  function RunFailure(run: ToolRun, timeout: int): (r: Option<string>)
    ensures r.None? <==> run.Exited? && run.code == 0 && run.stdout.Json?
  {
    match run
    case Exited(code, out, err) =>
      if code != 0 then Some(ExitMessage(err))
      else if out.BadJson? then Some("Invalid JSON response: " + out.error)
      else None
    case TimedOut => Some(TimeoutMessage(timeout))
    case NotInstalled => Some("yt-dlp not installed. Run: pip install yt-dlp")
    case Raised(msg) => Some(msg)
  }

  /**
   * `scrape`: runs the tool (`run` answers for the command) and never
   * raises: a clean exit with a JSON record is parsed, everything else is
   * a failure result carrying the message for that outcome.
   */
  function Scrape(url: string, browser: Option<string>, cookieFile: Option<string>, timeout: int,
                  run: seq<string> -> ToolRun,
                  parseDate: string -> Option<Instant>, fromTimestamp: int -> Option<Instant>): (r: ScrapeResult)
    ensures r.url == url && r.platform == Name
    ensures var o := run(Command(url, browser, cookieFile));
      r.success <==> o.Exited? && o.code == 0 && o.stdout.Json?
    ensures var o := run(Command(url, browser, cookieFile));
      r.success ==> r == ParseInfo(url, o.stdout.info, parseDate, fromTimestamp)
    ensures var o := run(Command(url, browser, cookieFile));
      !r.success ==> r == ScraperBase.Failure(url, Name, RunFailure(o, timeout).value)
  {
    var o := run(Command(url, browser, cookieFile));
    match RunFailure(o, timeout)
    case Some(msg) => ScraperBase.Failure(url, Name, msg)
    case None => ParseInfo(url, o.stdout.info, parseDate, fromTimestamp)
  }
}
