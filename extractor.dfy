/**
 * Media extraction: the list of extractors and first-success dispatch.
 * What an extractor finds at a URL (yt-dlp, an HTML image scan) is an
 * outcome the caller supplies.
 */
module Extractor {
  import opened Wrappers

  /** `MediaItem`; the raw `original_data` is not modelled. */
  datatype MediaItem = MediaItem(
    url: string,
    kind: string,               // 'image' or 'video'
    thumbnailUrl: Option<string>,
    title: Option<string>,
    fileSize: Option<string>)

  datatype MediaExtractor = YouTubeExtractor | WebImageExtractor

  /** `extractor.__class__.__name__`. */
  function ClassName(e: MediaExtractor): string
  {
    match e
    case YouTubeExtractor => "YouTubeExtractor"
    case WebImageExtractor => "WebImageExtractor"
  }

  /** `is_supported`: both extractors accept every URL. */
  predicate IsSupported(e: MediaExtractor, url: string)
  {
    match e
    case YouTubeExtractor => true
    case WebImageExtractor => true
  }

  /** Whether `extract` has a `cookies_browser` parameter. */
  predicate TakesCookies(e: MediaExtractor)
  {
    e.YouTubeExtractor?
  }

  /** How one `extract` call ends: a list of items, or an exception with its text. */
  datatype Attempt = Items(items: seq<MediaItem>) | Raised(message: string)

  /** The world's answer for an extractor, a URL and the cookie browser it is given. */
  type ExtractFn = (MediaExtractor, string, Option<string>) -> Attempt

  /** `get_all_extractors`: the yt-dlp extractor, then the generic image fallback. */
  function AllExtractors(): (es: seq<MediaExtractor>)
    ensures |es| == 2 && es[0] == YouTubeExtractor && es[1] == WebImageExtractor
    ensures forall k, url :: 0 <= k < |es| ==> IsSupported(es[k], url)
  {
    [YouTubeExtractor, WebImageExtractor]
  }

  /** The call `extract_media` makes: the cookie browser only to an extractor that takes one. */
  function Call(e: MediaExtractor, url: string, cookies: Option<string>, extract: ExtractFn): Attempt
  {
    extract(e, url, if TakesCookies(e) then cookies else None)
  }

  /** The extractor is tried and yields items. */
  predicate Hit(e: MediaExtractor, url: string, cookies: Option<string>, extract: ExtractFn)
  {
    IsSupported(e, url) && Call(e, url, cookies, extract).Items? && Call(e, url, cookies, extract).items != []
  }

  /** The log line for an extractor that is tried and yields nothing, if it is one. */
  function LogFor(e: MediaExtractor, url: string, cookies: Option<string>, extract: ExtractFn): (m: Option<string>)
    ensures m.Some? <==> IsSupported(e, url) && !Hit(e, url, cookies, extract)
  {
    if !IsSupported(e, url) then None
    else
      match Call(e, url, cookies, extract)
      case Items(xs) => if xs == [] then Some(ClassName(e) + ": Found 0 items.") else None
      case Raised(msg) => Some(ClassName(e) + " failed: " + msg)
  }

  /** The log lines of `es`, in order. */
  function Logs(es: seq<MediaExtractor>, url: string, cookies: Option<string>, extract: ExtractFn): seq<string>
  {
    if es == [] then []
    else
      var init := Logs(es[..|es| - 1], url, cookies, extract);
      match LogFor(es[|es| - 1], url, cookies, extract)
      case Some(m) => init + [m]
      case None => init
  }

  /** The position of the first extractor that yields items. */
  function FirstHit(es: seq<MediaExtractor>, url: string, cookies: Option<string>, extract: ExtractFn): (r: Option<nat>)
    ensures r.Some? ==> r.value < |es| && Hit(es[r.value], url, cookies, extract)
    ensures r.Some? ==> forall j :: 0 <= j < r.value ==> !Hit(es[j], url, cookies, extract)
    ensures r.None? <==> forall j :: 0 <= j < |es| ==> !Hit(es[j], url, cookies, extract)
    decreases |es|
  {
    if es == [] then None
    else if Hit(es[0], url, cookies, extract) then Some(0)
    else
      match FirstHit(es[1..], url, cookies, extract)
      case None => None
      case Some(k) => Some(k + 1)
  }

  /** `extract_media` over the extractors `es`. */
  function Dispatch(es: seq<MediaExtractor>, url: string, cookies: Option<string>, extract: ExtractFn)
    : (r: (seq<MediaItem>, seq<string>))
  {
    match FirstHit(es, url, cookies, extract)
    case Some(k) => (Call(es[k], url, cookies, extract).items, [])
    case None => ([], Logs(es, url, cookies, extract))
  }

  /** How many of `es` are tried at all. */
  function SupportedCount(es: seq<MediaExtractor>, url: string): nat
  {
    if es == [] then 0
    else SupportedCount(es[..|es| - 1], url) + (if IsSupported(es[|es| - 1], url) then 1 else 0)
  }

  /** With no extractor yielding items there is one log line per extractor tried. */
  lemma {:induction false} LogsWhenNothingFound(es: seq<MediaExtractor>, url: string, cookies: Option<string>, extract: ExtractFn)
    requires forall j :: 0 <= j < |es| ==> !Hit(es[j], url, cookies, extract)
    ensures |Logs(es, url, cookies, extract)| == SupportedCount(es, url)
    decreases |es|
  {
    if es != [] {
      var init := es[..|es| - 1];
      assert forall j :: 0 <= j < |init| ==> init[j] == es[j];
      LogsWhenNothingFound(init, url, cookies, extract);
    }
  }

  /**
   * `extract_media` with the two extractors: the items of the first one
   * that yields some, with no logs; otherwise no items and one log line
   * for each of the two, in order.
   */
  lemma ExtractOutcome(url: string, cookies: Option<string>, extract: ExtractFn)
    ensures var r := Dispatch(AllExtractors(), url, cookies, extract);
      r.0 != [] ==> r.1 == []
    ensures var r := Dispatch(AllExtractors(), url, cookies, extract);
      Hit(YouTubeExtractor, url, cookies, extract) ==> r.0 == Call(YouTubeExtractor, url, cookies, extract).items
    ensures var r := Dispatch(AllExtractors(), url, cookies, extract);
      (!Hit(YouTubeExtractor, url, cookies, extract) && Hit(WebImageExtractor, url, cookies, extract))
        ==> r.0 == Call(WebImageExtractor, url, cookies, extract).items
    ensures var r := Dispatch(AllExtractors(), url, cookies, extract);
      (!Hit(YouTubeExtractor, url, cookies, extract) && !Hit(WebImageExtractor, url, cookies, extract)) ==>
        r.0 == [] && r.1 == [LogFor(YouTubeExtractor, url, cookies, extract).value, LogFor(WebImageExtractor, url, cookies, extract).value]
  {
    var es := AllExtractors();
    assert es[..1] == [YouTubeExtractor] && es[..1][..0] == [];
    var y := LogFor(YouTubeExtractor, url, cookies, extract);
    var w := LogFor(WebImageExtractor, url, cookies, extract);
    if !Hit(YouTubeExtractor, url, cookies, extract) && !Hit(WebImageExtractor, url, cookies, extract) {
      assert Logs(es[..1], url, cookies, extract) == [y.value];
      assert Logs(es, url, cookies, extract) == [y.value, w.value];
    }
  }

  /** `extract_media`: tries the extractors in order and stops at the first that yields items. */
  method ExtractMedia(url: string, cookies: Option<string>, extract: ExtractFn) returns (items: seq<MediaItem>, logs: seq<string>)
    ensures (items, logs) == Dispatch(AllExtractors(), url, cookies, extract)
  {
    var es := AllExtractors();
    logs := [];
    var i := 0;
    while i < |es|
      invariant 0 <= i <= |es|
      invariant forall j :: 0 <= j < i ==> !Hit(es[j], url, cookies, extract)
      invariant logs == Logs(es[..i], url, cookies, extract)
    {
      var e := es[i];
      assert es[..i + 1][..i] == es[..i];
      if IsSupported(e, url) {
        var attempt := Call(e, url, cookies, extract);
        match attempt
        case Items(xs) =>
          if xs != [] {
            return xs, [];
          }
          logs := logs + [ClassName(e) + ": Found 0 items."];
        case Raised(msg) =>
          logs := logs + [ClassName(e) + " failed: " + msg];
      }
      i := i + 1;
    }
    assert es[..i] == es;
    items := [];
  }
}
