/**
 * The scraper registry: the list of scraper classes, first-match
 * dispatch of a URL to a scraper, registration of further classes and
 * the list of platforms.
 */
module Factory {
  import opened Wrappers
  import opened Text
  import opened Models
  import opened Grouping
  import opened ScraperBase
  import opened YtDlp
  import opened Html
  import Instagram
  import Facebook
  import Threads
  import LinkedIn

  /** A scraper class: one of the four built in, or one registered later, known by its name and its `platform`. */
  datatype ScraperClass =
    | InstagramScraper
    | FacebookScraper
    | ThreadsScraper
    | LinkedInScraper
    | Custom(name: string, platform: string)

  /** `_SCRAPERS` as the module defines it. */
  const Builtins: seq<ScraperClass> := [InstagramScraper, FacebookScraper, ThreadsScraper, LinkedInScraper]

  /** The class attribute `platform`. */
  function ClassPlatform(c: ScraperClass): (p: string)
    ensures c.Custom? ==> p == c.platform
  {
    match c
    case InstagramScraper => Instagram.Name
    case FacebookScraper => Facebook.Name
    case ThreadsScraper => Threads.Name
    case LinkedInScraper => LinkedIn.Name
    case Custom(_, platform) => platform
  }

  /** The constructor keywords `get_scraper` passes on to every scraper. */
  datatype Options = Options(timeout: int, browser: Option<string>, cookieFile: Option<string>)

  /**
   * What scraping consults outside the program: the yt-dlp run for a
   * command, the page fetch for a URL, the two time conversions, and the
   * behaviour of registered classes, which the model does not see.
   */
  datatype World = World(
    run: seq<string> -> ToolRun,
    fetch: string -> Fetch,
    parseDate: string -> Option<Instant>,
    fromTimestamp: int -> Option<Instant>,
    customSupports: (ScraperClass, string) -> bool,
    customScrape: (ScraperClass, string) -> ScrapeResult)

  /** `scraper_class(**kwargs).supports(url)`. */
  predicate Supports(c: ScraperClass, url: string, w: World)
  {
    match c
    case InstagramScraper => Instagram.Supports(url)
    case FacebookScraper => Facebook.Supports(url)
    case ThreadsScraper => Threads.Supports(url)
    case LinkedInScraper => LinkedIn.Supports(url)
    case Custom(_, _) => w.customSupports(c, url)
  }

  /** `await scraper.scrape(url)` for an instance built with `opts`. */
  function Scrape(c: ScraperClass, url: string, opts: Options, w: World): ScrapeResult
  {
    match c
    case InstagramScraper =>
      Instagram.Scrape(url, opts.browser, opts.cookieFile, opts.timeout, w.run, w.parseDate, w.fromTimestamp)
    case FacebookScraper => Facebook.Scrape(url, opts.timeout, w.run, w.parseDate, w.fromTimestamp)
    case ThreadsScraper => Threads.Scrape(url, w.fetch(url))
    case LinkedInScraper => LinkedIn.Scrape(url, w.fetch(url))
    case Custom(_, _) => w.customScrape(c, url)
  }

  /** The position of the first class in `rs` that supports `url`, if any. */
  function FirstSupporting(rs: seq<ScraperClass>, url: string, w: World): (r: Option<nat>)
    ensures r.Some? ==> r.value < |rs| && Supports(rs[r.value], url, w)
    ensures r.Some? ==> forall j :: 0 <= j < r.value ==> !Supports(rs[j], url, w)
    ensures r.None? <==> forall j :: 0 <= j < |rs| ==> !Supports(rs[j], url, w)
    decreases |rs|
  {
    if rs == [] then None
    else if Supports(rs[0], url, w) then Some(0)
    else
      match FirstSupporting(rs[1..], url, w)
      case None => None
      case Some(k) => Some(k + 1)
  }

  /** The class `get_scraper` picks from `rs`. */
  function Chosen(rs: seq<ScraperClass>, url: string, w: World): Option<ScraperClass>
  {
    match FirstSupporting(rs, url, w)
    case None => None
    case Some(k) => Some(rs[k])
  }

  const NoScraperMessage := "No scraper available for this URL type"

  /** `scrape_url` over the registry `rs`. */
  function ScrapeUrlWith(rs: seq<ScraperClass>, url: string, opts: Options, w: World): (r: ScrapeResult)
    ensures Chosen(rs, url, w).None? ==>
      !r.success && r.url == url && r.errorMessage == Some(NoScraperMessage) && Bare(r) && r.platform == "unknown"
    ensures Chosen(rs, url, w).Some? ==> r == Scrape(Chosen(rs, url, w).value, url, opts, w)
  {
    match Chosen(rs, url, w)
    case None => NewResult(false, url).(errorMessage := Some(NoScraperMessage))
    case Some(c) => Scrape(c, url, opts, w)
  }

  /** `register_scraper` on the list `rs`. */
  function Registered(rs: seq<ScraperClass>, c: ScraperClass): seq<ScraperClass>
  {
    if c in rs then rs else rs + [c]
  }

  /**
   * Registering keeps the list duplicate-free and its order: the old list
   * is a prefix, the new class is in it, and nothing else is added.
   */
  lemma RegisteredKeepsOrder(rs: seq<ScraperClass>, c: ScraperClass)
    requires Distinct(rs)
    ensures Distinct(Registered(rs, c))
    ensures rs <= Registered(rs, c) && c in Registered(rs, c)
    ensures forall x :: x in Registered(rs, c) <==> x in rs || x == c
    ensures |Registered(rs, c)| == if c in rs then |rs| else |rs| + 1
  {
    if c !in rs {
      DistinctAppend(rs, c);
    }
  }

  /** Registering a class after the built-in ones changes no dispatch that a built-in class already takes. */
  lemma {:induction false} DispatchKept(rs: seq<ScraperClass>, c: ScraperClass, url: string, w: World)
    requires FirstSupporting(rs, url, w).Some?
    ensures FirstSupporting(Registered(rs, c), url, w) == FirstSupporting(rs, url, w)
    decreases |rs|
  {
    if c !in rs && !Supports(rs[0], url, w) {
      assert (rs + [c])[1..] == rs[1..] + [c];
      assert rs[1..] + [c] == Registered(rs[1..], c);
      DispatchKept(rs[1..], c, url, w);
    }
  }

  /** The platforms of the classes in `rs`, in list order. */
  function Platforms(rs: seq<ScraperClass>): (ps: seq<string>)
    ensures |ps| == |rs| && forall k :: 0 <= k < |rs| ==> ps[k] == ClassPlatform(rs[k])
  {
    seq(|rs|, k requires 0 <= k < |rs| => ClassPlatform(rs[k]))
  }

  lemma BuiltinsDistinct()
    ensures Distinct(Builtins)
  {
  }

  /** `_SCRAPERS`, the module-level list that `register_scraper` appends to. */
  class Registry {
    var scrapers: seq<ScraperClass>

    /** No class twice, and the built-in ones first. */
    ghost predicate Valid()
      reads this
    {
      Distinct(scrapers) && Builtins <= scrapers
    }

    constructor ()
      ensures Valid() && scrapers == Builtins
    {
      scrapers := Builtins;
      BuiltinsDistinct();
    }

    /** `register_scraper`: appends `c` unless it is already listed. */
    method Register(c: ScraperClass)
      requires Valid()
      modifies this
      ensures Valid()
      ensures scrapers == Registered(old(scrapers), c)
    {
      RegisteredKeepsOrder(scrapers, c);
      if c !in scrapers {
        scrapers := scrapers + [c];
      }
    }

    /** `get_scraper`: the first listed class whose `supports` holds, or none. */
    method GetScraper(url: string, w: World) returns (r: Option<ScraperClass>)
      ensures r == Chosen(scrapers, url, w)
    {
      var i := 0;
      while i < |scrapers|
        invariant 0 <= i <= |scrapers|
        invariant forall j :: 0 <= j < i ==> !Supports(scrapers[j], url, w)
      {
        if Supports(scrapers[i], url, w) {
          return Some(scrapers[i]);
        }
        i := i + 1;
      }
      return None;
    }

    /** `scrape_url`: the chosen scraper's result, or a failure naming no scraper; never raises. */
    method ScrapeUrl(url: string, opts: Options, w: World) returns (r: ScrapeResult)
      ensures r == ScrapeUrlWith(scrapers, url, opts, w)
    {
      var c := GetScraper(url, w);
      match c
      case None =>
        r := NewResult(false, url).(errorMessage := Some(NoScraperMessage));
      case Some(s) =>
        r := Scrape(s, url, opts, w);
    }

    /** `list_supported_platforms`: the distinct platforms of the listed classes, sorted. */
    method ListSupportedPlatforms() returns (ps: seq<string>)
      requires Valid()
      ensures StrictlySorted(ps)
      ensures forall p :: p in ps <==> exists k :: 0 <= k < |scrapers| && ClassPlatform(scrapers[k]) == p
      ensures "instagram" in ps && "facebook" in ps
    {
      var names: seq<string> := [];
      var i := 0;
      while i < |scrapers|
        invariant 0 <= i <= |scrapers|
        invariant names == Platforms(scrapers[..i])
      {
        names := names + [ClassPlatform(scrapers[i])];
        i := i + 1;
      }
      assert scrapers[..i] == scrapers;
      ps := SortedUnique(names);
      forall p | p in ps
        ensures exists k :: 0 <= k < |scrapers| && ClassPlatform(scrapers[k]) == p
      {
        var k :| 0 <= k < |names| && names[k] == p;
      }
      assert scrapers[0] == InstagramScraper && scrapers[1] == FacebookScraper;
      assert names[0] == "instagram" && names[1] == "facebook";
    }
  }
}
