/** The Facebook scraper: which URLs it takes and how a yt-dlp run becomes a scrape result. */
module Facebook {
  import opened Wrappers
  import opened Text
  import opened Models
  import opened Regex
  import opened ScraperBase
  import opened YtDlp

  const Name := "facebook"

  const Domain := "facebook.com/"

  /** `facebook\.com/share/[rv]/` */
  const SharePattern := Pattern([Lit("facebook.com/share/"), One(AnyOf("rvRV")), Lit("/")], true)
  /** `facebook\.com/.+/videos/` */
  const VideosPattern := Pattern([Lit(Domain), Repeat(AnyButNewline, 1), Lit("/videos/")], true)

  /**
   * `supports`: one of `URL_PATTERNS` is found in the URL, each searched
   * with IGNORECASE (the character class is written with both cases).
   */
  predicate Supports(url: string)
  {
    Found(SharePattern, url)
    || Found(Pattern([Lit("facebook.com/watch")], true), url)
    || Found(Pattern([Lit("facebook.com/reel/")], true), url)
    || Found(VideosPattern, url)
    || Found(Pattern([Lit("fb.watch/")], true), url)
  }

  /** In the lower-cased URL `l`: "facebook.com/share/", then 'r' or 'v', then '/', at `i`. */
  predicate ShareAt(l: string, i: nat)
  {
    CharsAt(l, i, "facebook.com/share/") && i + 21 <= |l| && l[i + 19] in "rv" && l[i + 20] == '/'
  }

  /** In `l`: "facebook.com/" at `i`, at least one character and no line break, then "/videos/" at `e`. */
  ghost predicate VideosAt(l: string, i: nat, e: nat)
  {
    CharsAt(l, i, Domain) && i + |Domain| < e && CharsAt(l, e, "/videos/")
    && forall k :: i + |Domain| <= k < e ==> l[k] != '\n'
  }

  /** `supports` written out on the lower-cased URL, without patterns. */
  ghost predicate SupportsByHand(url: string)
  {
    var l := ToLower(url);
    (exists i :: ShareAt(l, i)) || ContainsIgnoreCase(url, "facebook.com/watch") || ContainsIgnoreCase(url, "facebook.com/reel/")
    || (exists i, e :: VideosAt(l, i, e)) || ContainsIgnoreCase(url, "fb.watch/")
  }

  lemma ShareLower()
    ensures ToLower("facebook.com/share/") == "facebook.com/share/" && ToLower("/") == "/"
  {
    LowerOfLower("facebook.com/share/");
    LowerOfLower("/");
  }

  lemma DomainLower()
    ensures ToLower(Domain) == Domain && ToLower("/videos/") == "/videos/"
  {
    LowerOfLower(Domain);
    LowerOfLower("/videos/");
  }

  /** After "facebook.com/share/": 'r' or 'v' in either case, then '/'. */
  lemma ShareTail(s: string, j: nat)
    requires j <= |s|
    ensures MatchHere(SharePattern.nodes[1..], true, s, j, None).Some? <==>
      j + 2 <= |s| && LowerChar(s[j]) in "rv" && ToLower(s)[j + 1] == '/'
  {
    var p := SharePattern.nodes[1..];
    ShareLower();
    assert p[1..][1..] == [];
    if j + 2 <= |s| {
      LowerCharsAt(s, j + 1, "/");
      assert CharsAt(ToLower(s), j + 1, "/") <==> ToLower(s)[j + 1] == '/';
      assert MatchHere(p[1..], true, s, j + 1, None).Some? <==> ToLower(s)[j + 1] == '/';
      assert s[j] in "rvRV" <==> LowerChar(s[j]) in "rv";
    }
  }

  lemma ShareMatch(s: string, i: nat)
    requires i <= |s|
    ensures MatchAt(SharePattern, s, i).Some? <==> ShareAt(ToLower(s), i)
  {
    ShareLower();
    if i + 19 <= |s| {
      LowerCharsAt(s, i, "facebook.com/share/");
      ShareTail(s, i + 19);
    }
  }

  /** Where the "/videos/" part of the pattern matches. */
  lemma VideosTail(s: string, e: nat)
    requires e <= |s|
    ensures MatchHere(VideosPattern.nodes[2..], true, s, e, None).Some? <==> CharsAt(ToLower(s), e, "/videos/")
  {
    DomainLower();
    assert VideosPattern.nodes[2..][1..] == [];
    if e + 8 <= |s| {
      LowerCharsAt(s, e, "/videos/");
    }
  }

  /** The run between the two literals: no line break, read on the original or the lower-cased text. */
  lemma NoBreak(s: string, a: nat, e: nat)
    requires a <= e <= |s|
    ensures AllIn(AnyButNewline, s[a..e]) <==> forall k :: a <= k < e ==> ToLower(s)[k] != '\n'
  {
    forall k | a <= k < e
      ensures InClass(AnyButNewline, s[a..e][k - a]) <==> ToLower(s)[k] != '\n'
    {
      assert s[a..e][k - a] == s[k];
    }
    if forall k :: a <= k < e ==> ToLower(s)[k] != '\n' {
      forall j | 0 <= j < e - a
        ensures InClass(AnyButNewline, s[a..e][j])
      {
        assert ToLower(s)[a + j] != '\n';
      }
    }
  }

  lemma VideosMatch(s: string, i: nat)
    requires i <= |s|
    ensures MatchAt(VideosPattern, s, i).Some? <==> exists e :: VideosAt(ToLower(s), i, e)
  {
    var p := VideosPattern.nodes;
    DomainLower();
    if i + 13 <= |s| && SameText(s[i..i + 13], Domain, true) {
      LowerCharsAt(s, i, Domain);
      RepeatMatch(p[1..], true, s, i + 13, None);
      assert p[1..][1..] == p[2..];
      if MatchAt(VideosPattern, s, i).Some? {
        var e :| i + 14 <= e <= |s| && AllIn(AnyButNewline, s[i + 13..e]) && MatchHere(p[2..], true, s, e, None).Some?;
        VideosTail(s, e);
        NoBreak(s, i + 13, e);
        assert VideosAt(ToLower(s), i, e);
      }
      if exists e :: VideosAt(ToLower(s), i, e) {
        var e :| VideosAt(ToLower(s), i, e);
        VideosTail(s, e);
        NoBreak(s, i + 13, e);
        assert MatchHere(p[1..][1..], true, s, e, None).Some?;
      }
    } else if i + 13 <= |s| {
      LowerCharsAt(s, i, Domain);
    }
  }

  lemma ShareFound(url: string)
    ensures Found(SharePattern, url) <==> exists i :: ShareAt(ToLower(url), i)
  {
    FoundIff(SharePattern, url);
    forall i | 0 <= i <= |url|
      ensures MatchAt(SharePattern, url, i).Some? <==> ShareAt(ToLower(url), i)
    {
      ShareMatch(url, i);
    }
  }

  lemma VideosFound(url: string)
    ensures Found(VideosPattern, url) <==> exists i, e :: VideosAt(ToLower(url), i, e)
  {
    FoundIff(VideosPattern, url);
    if Found(VideosPattern, url) {
      var i :| 0 <= i <= |url| && MatchAt(VideosPattern, url, i).Some?;
      VideosMatch(url, i);
    }
    if exists i, e :: VideosAt(ToLower(url), i, e) {
      var i, e :| VideosAt(ToLower(url), i, e);
      VideosMatch(url, i);
    }
  }

  /** The pattern list says what the hand-written test says. */
  lemma SupportsIff(url: string)
    ensures Supports(url) <==> SupportsByHand(url)
  {
    ShareFound(url);
    VideosFound(url);
    LiteralFound("facebook.com/watch", true, url);
    LiteralFound("facebook.com/reel/", true, url);
    LiteralFound("fb.watch/", true, url);
  }

  /** The `yt-dlp` command: metadata only, without cookies. */
  function Command(url: string): (cmd: seq<string>)
    ensures cmd == ["yt-dlp", "--dump-json", "--no-download", "--no-warnings", url]
  {
    DumpCommand([], url)
  }

  /** A non-zero exit: a login, private-post or sign-in complaint in stderr, or the stderr itself. */
  function ExitMessage(stderr: string): (m: string)
    ensures var e := ToLower(Strip(stderr));
      m == "Login required or private post" <==>
        Contains(e, "login") || Contains(e, "private") || Contains(e, "sign in")
    ensures m != "Login required or private post" ==> m == FailedMessage(stderr)
  {
    var e := ToLower(Strip(stderr));
    if Contains(e, "login") || Contains(e, "private") || Contains(e, "sign in") then "Login required or private post"
    else
      var m := FailedMessage(stderr);
      assert m[0] == 'y';
      m
  }

  /** `_parse_ytdlp_result`: the record mapped into a successful scrape result. */
  function ParseInfo(url: string, info: Info, parseDate: string -> Option<Instant>, fromTimestamp: int -> Option<Instant>)
    : (r: ScrapeResult)
    ensures r.success && r.url == url && r.platform == Name && r.errorMessage.None?
    ensures Truthy(info.uploader) ==> r.author == info.uploader
    ensures !Truthy(info.uploader) ==> r.author == info.channel
    ensures r.authorUrl == info.uploaderUrl
    ensures r.title == CleanText(info.title) && r.content == CleanText(info.description)
    ensures r.postedAt == PostedAt(info, parseDate, fromTimestamp)
    ensures r.views == info.viewCount && r.likes == info.likeCount && r.comments == info.commentCount
    ensures r.shares == info.repostCount && r.thumbnailUrl == info.thumbnail
    ensures r.mediaUrls == MediaUrls(info) && |r.mediaUrls| <= 1
    ensures r.mediaType == Some("image") <==> !Nonzero(info.duration)
    ensures r.mediaType.Some? && (r.mediaType.value == "image" || r.mediaType.value == "video")
  {
    ScrapeResult(
      success := true,
      url := url,
      author := Or(info.uploader, info.channel),
      authorUrl := info.uploaderUrl,
      title := CleanText(info.title),
      content := CleanText(info.description),
      postedAt := PostedAt(info, parseDate, fromTimestamp),
      views := info.viewCount,
      likes := info.likeCount,
      comments := info.commentCount,
      shares := info.repostCount,
      thumbnailUrl := info.thumbnail,
      mediaUrls := MediaUrls(info),
      mediaType := Some(if Nonzero(info.duration) then "video" else "image"),
      platform := Name,
      errorMessage := None)
  }

  /** The failure message for a run that does not yield a record, if it is one. */
  function RunFailure(run: ToolRun, timeout: int): (r: Option<string>)
    ensures r.None? <==> run.Exited? && run.code == 0 && run.stdout.Json?
  {
    match run
    case Exited(code, out, err) =>
      if code != 0 then Some(ExitMessage(err))
      else if out.BadJson? then Some("Invalid JSON: " + out.error)
      else None
    case TimedOut => Some(TimeoutMessage(timeout))
    case NotInstalled => Some("yt-dlp not installed")
    case Raised(msg) => Some(msg)
  }

  /**
   * `scrape`: runs the tool and never raises: a clean exit with a JSON
   * record is parsed, everything else is a failure result carrying the
   * message for that outcome.
   */
  function Scrape(url: string, timeout: int, run: seq<string> -> ToolRun,
                  parseDate: string -> Option<Instant>, fromTimestamp: int -> Option<Instant>): (r: ScrapeResult)
    ensures r.url == url && r.platform == Name
    ensures var o := run(Command(url));
      r.success <==> o.Exited? && o.code == 0 && o.stdout.Json?
    ensures var o := run(Command(url));
      r.success ==> r == ParseInfo(url, o.stdout.info, parseDate, fromTimestamp)
    ensures var o := run(Command(url));
      !r.success ==> r == ScraperBase.Failure(url, Name, RunFailure(o, timeout).value)
  {
    var o := run(Command(url));
    match RunFailure(o, timeout)
    case Some(msg) => ScraperBase.Failure(url, Name, msg)
    case None => ParseInfo(url, o.stdout.info, parseDate, fromTimestamp)
  }
}
