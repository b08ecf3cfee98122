/**
 * What the Instagram and Facebook scrapers share: the yt-dlp metadata
 * record (`--dump-json` output as a record of optional fields), the
 * outcomes of running the tool, and the rules both scrapers apply to the
 * record: author fall-back, the best format, the posting time.
 */
module YtDlp {
  import opened Wrappers
  import opened Text
  import opened Models
  import opened ScraperBase

  /** One entry of `formats`: its `height` and `url` keys. */
  datatype Format = Format(height: Option<int>, url: Option<string>)

  /** The keys of yt-dlp's JSON object that the scrapers read; a missing key is `None`. */
  datatype Info = Info(
    uploader: Option<string>,
    channel: Option<string>,
    uploaderUrl: Option<string>,
    channelUrl: Option<string>,
    title: Option<string>,
    description: Option<string>,
    uploadDate: Option<string>,
    timestamp: Option<int>,
    viewCount: Option<int>,
    likeCount: Option<int>,
    commentCount: Option<int>,
    repostCount: Option<int>,
    thumbnail: Option<string>,
    url: Option<string>,
    formats: Option<seq<Format>>,
    duration: Option<int>)

  /** What standard output held when the tool exited with status 0. */
  datatype Output = Json(info: Info) | BadJson(error: string)

  /** How one run of `yt-dlp` ends. */
  datatype ToolRun =
    | Exited(code: int, stdout: Output, stderr: string)
    | TimedOut              // asyncio.TimeoutError
    | NotInstalled          // FileNotFoundError
    | Raised(message: string)  // any other exception, with str(e)

  /** `yt-dlp --dump-json --no-download --no-warnings <extra> <url>`. */
  function DumpCommand(extra: seq<string>, url: string): (cmd: seq<string>)
    ensures |cmd| == 5 + |extra|
    ensures cmd[0] == "yt-dlp" && cmd[|cmd| - 1] == url
    ensures cmd[4..|cmd| - 1] == extra
  {
    ["yt-dlp", "--dump-json", "--no-download", "--no-warnings"] + extra + [url]
  }

  /** Python's `a or b` on optional strings. */
  function Or(a: Option<string>, b: Option<string>): (r: Option<string>)
    ensures Truthy(a) ==> r == a
    ensures !Truthy(a) ==> r == b
  {
    if Truthy(a) then a else b
  }

  /** Python's truth value of an optional number: absent and zero are false. */
  predicate Nonzero(v: Option<int>)
  {
    v.Some? && v.value != 0
  }

  /** `s[:n]`. */
  function Take(s: string, n: nat): (r: string)
    ensures |r| <= n && |r| <= |s| && r == s[..|r|]
    ensures |s| <= n ==> r == s
    ensures |s| > n ==> |r| == n
  {
    if |s| <= n then s else s[..n]
  }

  /** The message for a non-zero exit that is not a login problem: the stripped stderr, cut at 200 characters. */
  function FailedMessage(stderr: string): (m: string)
    ensures StartsWith(m, "yt-dlp failed: ")
    ensures m[15..] == Take(Strip(stderr), 200)
  {
    "yt-dlp failed: " + Take(Strip(stderr), 200)
  }

  /** `f"Timeout after {timeout}s"`. */
  function TimeoutMessage(timeout: int): (m: string)
    ensures StartsWith(m, "Timeout after ") && EndsWith(m, "s")
  {
    "Timeout after " + IntToString(timeout) + "s"
  }

  /** `f.get('height', 0) or 0`. */
  function Height(f: Format): int
  {
    if f.height.Some? then f.height.value else 0
  }

  /** The position `max(formats, key=height)` picks: the first format of greatest height. */
  function BestFormat(fs: seq<Format>): (b: nat)
    requires fs != []
    ensures b < |fs|
    ensures forall j :: 0 <= j < |fs| ==> Height(fs[j]) <= Height(fs[b])
    ensures forall j :: 0 <= j < b ==> Height(fs[j]) < Height(fs[b])
    decreases |fs|
  {
    if |fs| == 1 then 0
    else
      var b := BestFormat(fs[..|fs| - 1]);
      assert forall j :: 0 <= j < |fs| - 1 ==> fs[..|fs| - 1][j] == fs[j];
      if Height(fs[|fs| - 1]) > Height(fs[b]) then |fs| - 1 else b
  }

  /**
   * `media_urls`: the record's own `url` when the key is there; otherwise
   * the url of the best format, when there are formats and that one has a url.
   */
  function MediaUrls(info: Info): (r: seq<string>)
    ensures |r| <= 1
    ensures info.url.Some? ==> r == [info.url.value]
    ensures info.url.None? && (info.formats.None? || info.formats.value == []) ==> r == []
  {
    if info.url.Some? then [info.url.value]
    else if info.formats.Some? && info.formats.value != [] then
      var best := info.formats.value[BestFormat(info.formats.value)];
      if best.url.Some? then [best.url.value] else []
    else []
  }

  /**
   * Without a `url` key, a media url comes from a format of greatest
   * height, and no earlier format is as high; without one, that format has no url.
   */
  lemma MediaUrlFromBest(info: Info)
    requires info.url.None? && info.formats.Some? && info.formats.value != []
    ensures var fs := info.formats.value;
      exists k :: (0 <= k < |fs|
        && (forall j :: 0 <= j < |fs| ==> Height(fs[j]) <= Height(fs[k]))
        && (forall j :: 0 <= j < k ==> Height(fs[j]) < Height(fs[k]))
        && MediaUrls(info) == (if fs[k].url.Some? then [fs[k].url.value] else []))
  {
    var fs := info.formats.value;
    var k := BestFormat(fs);
    assert MediaUrls(info) == (if fs[k].url.Some? then [fs[k].url.value] else []);
  }

  /**
   * `posted_at`: an eight-character `upload_date` read as YYYYMMDD when
   * that parses; otherwise a non-zero `timestamp` converted, when that
   * converts; otherwise nothing. Both conversions are parameters.
   */
  function PostedAt(info: Info, parseDate: string -> Option<Instant>, fromTimestamp: int -> Option<Instant>)
    : (r: Option<Instant>)
    ensures Truthy(info.uploadDate) && |info.uploadDate.value| == 8 && parseDate(info.uploadDate.value).Some?
      ==> r == parseDate(info.uploadDate.value)
    ensures r.Some? ==>
      ((Truthy(info.uploadDate) && |info.uploadDate.value| == 8 && r == parseDate(info.uploadDate.value))
       || (Nonzero(info.timestamp) && r == fromTimestamp(info.timestamp.value)))
    ensures !Truthy(info.uploadDate) && !Nonzero(info.timestamp) ==> r.None?
  {
    var fromDate := if Truthy(info.uploadDate) && |info.uploadDate.value| == 8 then parseDate(info.uploadDate.value) else None;
    if fromDate.Some? then fromDate
    else if Nonzero(info.timestamp) then fromTimestamp(info.timestamp.value)
    else None
  }

  /** The timestamp is only consulted when the upload date gives no time. */
  lemma TimestampOnlyAsFallback(info: Info, parseDate: string -> Option<Instant>, fromTimestamp: int -> Option<Instant>)
    requires Truthy(info.uploadDate) && |info.uploadDate.value| == 8 && parseDate(info.uploadDate.value).Some?
    ensures forall other: int -> Option<Instant> ::
      PostedAt(info, parseDate, other) == PostedAt(info, parseDate, fromTimestamp)
  {
  }
}
