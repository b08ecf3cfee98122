/** The Threads scraper: which URLs it takes and what it reads from a post's page. */
module Threads {
  import opened Wrappers
  import opened Text
  import opened Regex
  import opened ScraperBase
  import opened Html

  const Name := "threads"

  /** `threads\.net/@[\w.]+/post/[\w-]+` */
  const PostPattern := Pattern([Lit("threads.net/@"), Repeat(WordOrDot, 1), Lit("/post/"), Repeat(WordOrDash, 1)], false)
  /** `threads\.net/t/[\w-]+` */
  const ShortPattern := Pattern([Lit("threads.net/t/"), Repeat(WordOrDash, 1)], false)

  /** `supports`: one of `URL_PATTERNS` is found, case-sensitively. */
  predicate Supports(url: string)
  {
    Found(PostPattern, url) || Found(ShortPattern, url)
  }

  predicate HandleChar(c: char)
  {
    IsWordChar(c) || c == '.'
  }

  predicate IdChar(c: char)
  {
    IsWordChar(c) || c == '-'
  }

  /** At `i`: "threads.net/@", a handle of `[\w.]` characters ending at `j`, "/post/", an id character. */
  predicate PostAt(s: string, i: nat, j: nat)
  {
    CharsAt(s, i, "threads.net/@") && i + 13 < j && CharsAt(s, j, "/post/") && j + 6 < |s| && IdChar(s[j + 6])
    && forall k :: i + 13 <= k < j ==> HandleChar(s[k])
  }

  /** At `i`: "threads.net/t/" and an id character. */
  predicate ShortAt(s: string, i: nat)
  {
    CharsAt(s, i, "threads.net/t/") && i + 14 < |s| && IdChar(s[i + 14])
  }

  /** `supports` written out without patterns. */
  ghost predicate SupportsByHand(url: string)
  {
    (exists i, j :: PostAt(url, i, j)) || (exists i :: ShortAt(url, i))
  }

  /** A trailing `cls+` matches at `k` iff one class character is there. */
  lemma TrailingRun(p: seq<Node>, s: string, k: nat)
    requires |p| == 1 && p[0].Repeat? && p[0].min == 1 && k <= |s|
    ensures MatchHere(p, false, s, k, None).Some? <==> k < |s| && InClass(p[0].cls, s[k])
  {
    RepeatMatch(p, false, s, k, None);
    assert p[1..] == [];
    if k < |s| && InClass(p[0].cls, s[k]) {
      assert AllIn(p[0].cls, s[k..k + 1]);
      assert MatchHere(p[1..], false, s, k + 1, None).Some?;
    }
    if MatchHere(p, false, s, k, None).Some? {
      var e :| k + 1 <= e <= |s| && AllIn(p[0].cls, s[k..e]) && MatchHere(p[1..], false, s, e, None).Some?;
      assert s[k..e][0] == s[k];
    }
  }

  /** A literal in the middle of a pattern: it must be at `k`, and the rest must match after it. */
  lemma LitThen(p: seq<Node>, s: string, k: nat)
    requires p != [] && p[0].Lit? && k <= |s|
    ensures MatchHere(p, false, s, k, None).Some? <==>
      CharsAt(s, k, p[0].text) && MatchHere(p[1..], false, s, k + |p[0].text|, None).Some?
  {
    if k + |p[0].text| <= |s| {
      CharsAtIff(s, k, p[0].text);
    }
  }

  lemma ShortMatch(s: string, i: nat)
    requires i <= |s|
    ensures MatchAt(ShortPattern, s, i).Some? <==> ShortAt(s, i)
  {
    var p := ShortPattern.nodes;
    LitThen(p, s, i);
    if i + 14 <= |s| {
      TrailingRun(p[1..], s, i + 14);
    }
  }

  /** After the handle: "/post/" and an id character. */
  lemma PostTail(s: string, j: nat)
    requires j <= |s|
    ensures MatchHere(PostPattern.nodes[2..], false, s, j, None).Some? <==>
      CharsAt(s, j, "/post/") && j + 6 < |s| && IdChar(s[j + 6])
  {
    var p := PostPattern.nodes[2..];
    LitThen(p, s, j);
    if j + 6 <= |s| {
      TrailingRun(p[1..], s, j + 6);
    }
  }

  lemma HandleRun(s: string, a: nat, j: nat)
    requires a <= j <= |s|
    ensures AllIn(WordOrDot, s[a..j]) <==> forall k :: a <= k < j ==> HandleChar(s[k])
  {
    assert forall k :: a <= k < j ==> s[a..j][k - a] == s[k];
  }

  lemma PostMatch(s: string, i: nat)
    requires i <= |s|
    ensures MatchAt(PostPattern, s, i).Some? <==> exists j :: PostAt(s, i, j)
  {
    var p := PostPattern.nodes;
    LitThen(p, s, i);
    if i + 13 <= |s| {
      RepeatMatch(p[1..], false, s, i + 13, None);
      assert p[1..][1..] == p[2..];
      if MatchAt(PostPattern, s, i).Some? {
        var j :| i + 14 <= j <= |s| && AllIn(WordOrDot, s[i + 13..j]) && MatchHere(p[2..], false, s, j, None).Some?;
        PostTail(s, j);
        HandleRun(s, i + 13, j);
        assert PostAt(s, i, j);
      }
      if exists j :: PostAt(s, i, j) {
        var j :| PostAt(s, i, j);
        PostTail(s, j);
        HandleRun(s, i + 13, j);
        assert MatchHere(p[1..][1..], false, s, j, None).Some?;
      }
    }
  }

  /** The pattern list says what the hand-written test says. */
  lemma SupportsIff(url: string)
    ensures Supports(url) <==> SupportsByHand(url)
  {
    FoundIff(PostPattern, url);
    FoundIff(ShortPattern, url);
    if Found(PostPattern, url) {
      var i :| 0 <= i <= |url| && MatchAt(PostPattern, url, i).Some?;
      PostMatch(url, i);
    }
    if exists i, j :: PostAt(url, i, j) {
      var i, j :| PostAt(url, i, j);
      PostMatch(url, i);
    }
    if Found(ShortPattern, url) {
      var i :| 0 <= i <= |url| && MatchAt(ShortPattern, url, i).Some?;
      ShortMatch(url, i);
    }
    if exists i :: ShortAt(url, i) {
      var i :| ShortAt(url, i);
      ShortMatch(url, i);
    }
  }

  /** `threads\.net/@([\w.]+)` */
  const HandlePattern := Pattern([Lit("threads.net/@"), Capture(WordOrDot, 1, false)], false)

  /** "threads.net/@" at `i`, followed by at least one handle character. */
  predicate HandleAt(s: string, i: nat)
  {
    CharsAt(s, i, "threads.net/@") && i + 13 < |s| && HandleChar(s[i + 13])
  }

  /** The longest run of handle characters after the "threads.net/@" at `i`. */
  function Handle(s: string, i: nat): (h: string)
    requires HandleAt(s, i)
    ensures h != [] && CharsAt(s, i + 13, h)
    ensures forall k :: 0 <= k < |h| ==> HandleChar(h[k])
    ensures i + 13 + |h| < |s| ==> !HandleChar(s[i + 13 + |h|])
  {
    var n := RunLength(s, i + 13, WordOrDot);
    CharsAtSlice(s, i + 13, s[i + 13..i + 13 + n]);
    s[i + 13..i + 13 + n]
  }

  /** The handle pattern matches where a handle starts, and captures the whole handle. */
  lemma HandleMatch(s: string, i: nat)
    requires i <= |s|
    ensures MatchAt(HandlePattern, s, i).Some? <==> HandleAt(s, i)
    ensures HandleAt(s, i) ==> MatchAt(HandlePattern, s, i).value.1 == Some(Handle(s, i))
  {
    var p := HandlePattern.nodes;
    if i + 13 <= |s| {
      CharsAtIff(s, i, "threads.net/@");
      assert p[1..][1..] == [];
      var n := RunLength(s, i + 13, WordOrDot);
      if i + 13 < |s| && HandleChar(s[i + 13]) {
        assert n >= 1;
        assert MatchHere(p[1..][1..], false, s, i + 13 + n, Some(s[i + 13..i + 13 + n])).Some?;
      }
    }
  }

  /**
   * `_parse_html`'s author: "@" and the handle at the first place in the
   * URL where "threads.net/@" is followed by a handle; none if there is no such place.
   */
  function Author(url: string): (r: Option<string>)
    ensures r.None? <==> forall i :: 0 <= i <= |url| ==> !HandleAt(url, i)
    ensures r.Some? ==> exists i :: (0 <= i <= |url| && HandleAt(url, i) && r.value == "@" + Handle(url, i)
      && forall j :: 0 <= j < i ==> !HandleAt(url, j))
  {
    match Search(HandlePattern, url)
    case None =>
      forall i | 0 <= i <= |url|
        ensures !HandleAt(url, i)
      {
        HandleMatch(url, i);
      }
      None
    case Some(h) =>
      HandleMatch(url, h.start);
      forall j | 0 <= j < h.start
        ensures !HandleAt(url, j)
      {
        HandleMatch(url, j);
      }
      Some("@" + h.group.value)
  }

  /** `_parse_html`: a successful result with the author, the three meta tags and the two counters, and no media. */
  function ParseHtml(html: string, url: string): (r: ScrapeResult)
    ensures r.success && r.url == url && r.platform == Name && r.errorMessage.None?
    ensures r.author == Author(url)
    ensures r.title == CleanText(ExtractMeta(html, "og:title"))
    ensures r.content == CleanText(ExtractMeta(html, "og:description"))
    ensures r.thumbnailUrl == ExtractMeta(html, "og:image")
    ensures r.likes == Counter(html, "likeCount") && r.comments == Counter(html, "replyCount")
    ensures r.likes.Some? ==> r.likes.value >= 0
    ensures r.comments.Some? ==> r.comments.value >= 0
    ensures r.mediaUrls == [] && r.mediaType.None? && r.authorUrl.None?
    ensures r.views.None? && r.shares.None? && r.postedAt.None?
  {
    NewResult(true, url).(
      platform := Name,
      author := Author(url),
      title := CleanText(ExtractMeta(html, "og:title")),
      content := CleanText(ExtractMeta(html, "og:description")),
      likes := Counter(html, "likeCount"),
      comments := Counter(html, "replyCount"),
      thumbnailUrl := ExtractMeta(html, "og:image"))
  }

  /** `_extract_meta`: the property-then-content form first, then content-then-property; the value has no quote. */
  function ExtractMeta(html: string, name: string): (r: Option<string>)
    ensures FirstGroup(AttrThenContent("property", name), html).Some? ==> r == FirstGroup(AttrThenContent("property", name), html)
    ensures FirstGroup(AttrThenContent("property", name), html).None? ==> r == FirstGroup(ContentThenProperty(name), html)
    ensures r.Some? ==> '"' !in r.value
  {
    match FirstGroup(AttrThenContent("property", name), html)
    case Some(v) =>
      AttrThenContentUnquoted("property", name, html);
      Some(v)
    case None =>
      match FirstGroup(ContentThenProperty(name), html)
      case Some(v) =>
        ContentThenPropertyUnquoted(name, html);
        Some(v)
      case None => None
  }

  /** `scrape`: the page through `ParseHtml`, or a failure for the fetch outcome. */
  function Scrape(url: string, fetch: Fetch): (r: ScrapeResult)
    ensures r.url == url && r.platform == Name
    ensures r.success <==> fetch.Page? && fetch.status == 200
    ensures r.success ==> r == ParseHtml(fetch.html, url)
    ensures !r.success ==> Bare(r) && r.errorMessage == FetchFailure(fetch)
  {
    ScrapePage(url, Name, fetch, html => ParseHtml(html, url))
  }
}
