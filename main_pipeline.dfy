/**
 * The command-line collection run (`run_pipeline`): the links of the notes
 * directory, the unique ones whose id is not stored yet, each of them
 * validated once, the accessible ones scraped and saved, and the others
 * saved with the status their validation gives. The validator, the
 * scraper, the thumbnail download and the clock are answers given to the
 * run by position; the console output is not part of the model.
 */
module MainPipeline {
  import opened Wrappers
  import opened Models
  import opened Grouping
  import opened Tallies
  import opened DbStore
  import opened Db
  import opened MdParser
  import V = UrlValidator
  import ScraperBase
  import Stages

  /**
   * What the run works with: the id of a link (`u.id`, which a run
   * computes with `IdKey`); the result
   * and the clock reading of the `k`-th validation; the result (or the
   * exception) of the `k`-th scrape, the thumbnail it fetched and its
   * clock reading; and the `download_media` setting.
   */
  datatype Env = Env(
    key: ExtractedUrl -> string,
    validate: nat -> V.ValidationResult,
    vclock: nat -> Instant,
    scrape: nat -> Stages.Try<ScraperBase.ScrapeResult>,
    thumb: nat -> Option<string>,
    sclock: nat -> Instant,
    downloadMedia: bool)

  /** Appending a link whose id none of `r` has keeps the ids distinct. */
  lemma DistinctIdsAppend(r: seq<ExtractedUrl>, x: ExtractedUrl, key: ExtractedUrl -> string)
    requires Distinct(Keys(r, key))
    requires forall v :: v in r ==> key(v) != key(x)
    ensures Distinct(Keys(r + [x], key))
  {
    assert Keys(r + [x], key) == Keys(r, key) + [key(x)];
    forall i | 0 <= i < |r|
      ensures Keys(r, key)[i] != key(x)
    {
      assert r[i] in r;
    }
    DistinctAppend(Keys(r, key), key(x));
  }

  /** Without its last link, `us` still has distinct ids, none of them the last link's. */
  lemma DistinctIdsInit(us: seq<ExtractedUrl>, key: ExtractedUrl -> string)
    requires us != [] && Distinct(Keys(us, key))
    ensures Distinct(Keys(us[..|us| - 1], key))
    ensures forall v :: v in us[..|us| - 1] ==> key(v) != key(us[|us| - 1])
  {
    var n := |us| - 1;
    assert Keys(us[..n], key) == Keys(us, key)[..n];
    forall v | v in us[..n]
      ensures key(v) != key(us[n])
    {
      var m :| 0 <= m < n && us[..n][m] == v;
      assert Keys(us, key)[m] == key(v);
    }
  }

  // ---------------------------------------------------------------- step 2: the links not stored yet

  /** `[u for u in unique_urls if not db.exists(u.id)]`. */
  function NewUrls(s: Store, us: seq<ExtractedUrl>, key: ExtractedUrl -> string): (r: seq<ExtractedUrl>)
    ensures |r| <= |us|
    ensures forall u :: u in r <==> u in us && !Exists(s, key(u))
    decreases |us|
  {
    if us == [] then []
    else
      var n := |us| - 1;
      assert us == us[..n] + [us[n]];
      NewUrls(s, us[..n], key) + (if Exists(s, key(us[n])) then [] else [us[n]])
  }

  /** The new links of links with distinct ids have distinct ids. */
  lemma {:induction false} NewUrlsDistinct(s: Store, us: seq<ExtractedUrl>, key: ExtractedUrl -> string)
    requires Distinct(Keys(us, key))
    ensures Distinct(Keys(NewUrls(s, us, key), key))
    decreases |us|
  {
    if us == [] {
      assert Keys([], key) == [];
    } else {
      var n := |us| - 1;
      DistinctIdsInit(us, key);
      NewUrlsDistinct(s, us[..n], key);
      if !Exists(s, key(us[n])) {
        DistinctIdsAppend(NewUrls(s, us[..n], key), us[n], key);
      }
    }
  }

  // ---------------------------------------------------------------- step 3: validation

  /** A validation result with the `validated_at` reading taken when it was made. */
  datatype Checked = Checked(result: V.ValidationResult, at: Instant)

  /** `validation_results`: the id of each new link mapped to its validation, the `k`-th link by the `k`-th call. */
  function Validations(newUrls: seq<ExtractedUrl>, env: Env): map<string, Checked>
    decreases |newUrls|
  {
    if newUrls == [] then map[]
    else
      var n := |newUrls| - 1;
      Validations(newUrls[..n], env)[env.key(newUrls[n]) := Checked(env.validate(n), env.vclock(n))]
  }

  /** Every id that is looked up in `results` is there. */
  predicate Checks(us: seq<ExtractedUrl>, results: map<string, Checked>, key: ExtractedUrl -> string)
  {
    forall k :: 0 <= k < |us| ==> key(us[k]) in results
  }

  /** The keys of `validation_results` are the ids of the new links. */
  lemma {:induction false} ValidationsKeys(newUrls: seq<ExtractedUrl>, env: Env)
    ensures Checks(newUrls, Validations(newUrls, env), env.key)
    ensures forall id :: id in Validations(newUrls, env) ==> id in Keys(newUrls, env.key)
    decreases |newUrls|
  {
    if newUrls != [] {
      var n := |newUrls| - 1;
      var init := newUrls[..n];
      var last := env.key(newUrls[n]);
      var before := Validations(init, env);
      ValidationsKeys(init, env);
      assert Validations(newUrls, env) == before[last := Checked(env.validate(n), env.vclock(n))];
      forall k | 0 <= k < |newUrls|
        ensures env.key(newUrls[k]) in Validations(newUrls, env)
      {
        if k < n {
          assert init[k] == newUrls[k];
        }
      }
      forall id | id in Validations(newUrls, env)
        ensures id in Keys(newUrls, env.key)
      {
        if id == last {
          assert Keys(newUrls, env.key)[n] == id;
        } else {
          assert id in before;
          var m :| 0 <= m < n && Keys(init, env.key)[m] == id;
          assert Keys(newUrls, env.key)[m] == id;
        }
      }
    }
  }

  /** Each new link is validated exactly once: with distinct ids, its entry is the result of its own call. */
  lemma {:induction false} ValidationsAt(newUrls: seq<ExtractedUrl>, env: Env, k: nat)
    requires Distinct(Keys(newUrls, env.key)) && k < |newUrls|
    ensures env.key(newUrls[k]) in Validations(newUrls, env)
    ensures Validations(newUrls, env)[env.key(newUrls[k])] == Checked(env.validate(k), env.vclock(k))
    decreases |newUrls|
  {
    ValidationsKeys(newUrls, env);
    var n := |newUrls| - 1;
    if k < n {
      DistinctIdsInit(newUrls, env.key);
      ValidationsAt(newUrls[..n], env, k);
      assert newUrls[..n][k] == newUrls[k] && newUrls[k] in newUrls[..n];
    }
  }

  /** The validation loop over the new links. */
  method ValidateAll(newUrls: seq<ExtractedUrl>, env: Env) returns (results: map<string, Checked>)
    ensures results == Validations(newUrls, env)
  {
    results := map[];
    for i := 0 to |newUrls|
      invariant results == Validations(newUrls[..i], env)
    {
      assert newUrls[..i + 1][..i] == newUrls[..i];
      results := results[env.key(newUrls[i]) := Checked(env.validate(i), env.vclock(i))];
    }
    assert newUrls[..|newUrls|] == newUrls;
  }

  /**
   * `validation_results.values()`: with distinct ids the dict holds one
   * entry per new link, in the order the links were validated.
   */
  function CheckList(newUrls: seq<ExtractedUrl>, env: Env): (r: seq<Checked>)
    ensures |r| == |newUrls|
  {
    seq(|newUrls|, k requires 0 <= k < |newUrls| => Checked(env.validate(k), env.vclock(k)))
  }

  /** `result.status.value`. */
  function StatusKey(c: Checked): string
  {
    V.UrlStatusValue(c.result.status)
  }

  /** The status counts: each status value counted by how many validations gave it; together they count every new link. */
  lemma StatusCountsTotal(newUrls: seq<ExtractedUrl>, env: Env)
    ensures Total(Tally(CheckList(newUrls, env), StatusKey)) == |newUrls|
    ensures Distinct(CounterKeys(Tally(CheckList(newUrls, env), StatusKey)))
    ensures forall v :: v in CounterKeys(Tally(CheckList(newUrls, env), StatusKey)) <==> v in Keys(CheckList(newUrls, env), StatusKey)
  {
    TallySpec(CheckList(newUrls, env), StatusKey);
  }

  // ---------------------------------------------------------------- step 4: scraping the accessible links

  predicate IsAccessible(results: map<string, Checked>, id: string)
  {
    id in results && results[id].result.status == V.UrlStatus.Accessible
  }

  /** `[u for u in new_urls if validation_results[u.id].status == URLStatus.ACCESSIBLE]`, in order. */
  function AccessibleUrls(newUrls: seq<ExtractedUrl>, results: map<string, Checked>, key: ExtractedUrl -> string): (r: seq<ExtractedUrl>)
    ensures |r| <= |newUrls|
    ensures forall u :: u in r <==> u in newUrls && IsAccessible(results, key(u))
    ensures forall k :: 0 <= k < |r| ==> IsAccessible(results, key(r[k]))
    decreases |newUrls|
  {
    if newUrls == [] then []
    else
      var n := |newUrls| - 1;
      assert newUrls == newUrls[..n] + [newUrls[n]];
      AccessibleUrls(newUrls[..n], results, key) + (if IsAccessible(results, key(newUrls[n])) then [newUrls[n]] else [])
  }

  lemma {:induction false} AccessibleDistinct(newUrls: seq<ExtractedUrl>, results: map<string, Checked>, key: ExtractedUrl -> string)
    requires Distinct(Keys(newUrls, key))
    ensures Distinct(Keys(AccessibleUrls(newUrls, results, key), key))
    decreases |newUrls|
  {
    if newUrls == [] {
      assert Keys([], key) == [];
    } else {
      var n := |newUrls| - 1;
      DistinctIdsInit(newUrls, key);
      AccessibleDistinct(newUrls[..n], results, key);
      if IsAccessible(results, key(newUrls[n])) {
        DistinctIdsAppend(AccessibleUrls(newUrls[..n], results, key), newUrls[n], key);
      }
    }
  }

  /**
   * The record the scrape loop builds: the link's id, URL, note and
   * context, what the scraper found, accessible if the scrape succeeded
   * and failed otherwise, and the validation's `validated_at`.
   */
  function ScrapedPost(u: ExtractedUrl, id: string, pl: Platform, r: ScraperBase.ScrapeResult, now: Instant, c: Checked): (p: Post)
    ensures p.id == id && p.url == u.url && p.platform == pl
    ensures p.status == (if r.success then Accessible else Failed)
    ensures p.scrapedAt == Some(now) && p.validatedAt == Some(c.at) && p.errorMessage == r.errorMessage
    ensures p.sourceFile == u.sourceFile && p.sourceContext == u.context
    ensures p.thumbnailPath.None? && p.mediaPaths == [] && p.tags == [] && p.category.None? && p.note.None?
    ensures MetricsValid(p) <==> ScrapedMetricsValid(r)
  {
    NewPost(id, u.url, pl, u.sourceFile).(
      author := r.author, authorUrl := r.authorUrl, title := r.title, content := r.content, postedAt := r.postedAt,
      status := if r.success then Accessible else Failed, scrapedAt := Some(now), validatedAt := Some(c.at),
      views := r.views, likes := r.likes, comments := r.comments, shares := r.shares,
      thumbnailUrl := r.thumbnailUrl, mediaUrls := r.mediaUrls, mediaType := r.mediaType,
      sourceContext := u.context, errorMessage := r.errorMessage)
  }

  /** The `ge=0` bounds on the metrics a scrape found, which building the record checks. */
  predicate ScrapedMetricsValid(r: ScraperBase.ScrapeResult)
  {
    NonNegative(r.views) && NonNegative(r.likes) && NonNegative(r.comments) && NonNegative(r.shares)
  }

  /** What the `try` block of one accessible link does: the record it saves, if any, and whether it asked for the thumbnail. */
  datatype Attempt = Attempt(saved: Option<Post>, fetched: bool)

  /**
   * The `k`-th accessible link's `try` block. The scrape, `Platform(...)`
   * and the record's metric bounds can each raise, and then nothing is
   * saved; the thumbnail is asked for only when media downloads are on
   * and the scrape found a thumbnail URL, and it is kept when the
   * download returned a path.
   */
  function ScrapeAttempt(u: ExtractedUrl, k: nat, c: Checked, env: Env): (a: Attempt)
    ensures env.scrape(k).Raised? ==> a.saved.None? && !a.fetched
    ensures a.saved.Some? <==> env.scrape(k).Ok? && PlatformOf(u.platform).Some? && ScrapedMetricsValid(env.scrape(k).value)
    ensures a.saved.Some? ==> a.saved.value.id == env.key(u) && a.saved.value.validatedAt == Some(c.at)
    ensures a.saved.Some? ==> a.saved.value.status == (if env.scrape(k).value.success then Accessible else Failed)
    ensures a.fetched ==> a.saved.Some? && env.downloadMedia && ScraperBase.Truthy(env.scrape(k).value.thumbnailUrl)
    ensures a.saved.Some? ==> (a.saved.value.thumbnailPath.Some? <==> a.fetched && ScraperBase.Truthy(env.thumb(k)))
  {
    match env.scrape(k)
    case Raised(_) => Attempt(None, false)
    case Ok(r) =>
      match PlatformOf(u.platform)
      case None => Attempt(None, false)
      case Some(pl) =>
        var p := ScrapedPost(u, env.key(u), pl, r, env.sclock(k), c);
        if !MetricsValid(p) then Attempt(None, false)
        else if env.downloadMedia && ScraperBase.Truthy(r.thumbnailUrl) then
          Attempt(Some(if ScraperBase.Truthy(env.thumb(k)) then p.(thumbnailPath := env.thumb(k)) else p), true)
        else Attempt(Some(p), false)
  }

  /** The scrape loop so far: the store and the ids whose thumbnails were asked for. */
  datatype Scraped = Scraped(store: Store, fetched: seq<string>)

  function ScrapeStep(prev: Scraped, u: ExtractedUrl, k: nat, c: Checked, env: Env): Scraped
  {
    var a := ScrapeAttempt(u, k, c, env);
    Scraped(if a.saved.Some? then Saved(prev.store, a.saved.value) else prev.store,
            if a.fetched then prev.fetched + [env.key(u)] else prev.fetched)
  }

  function ScrapeFold(s: Store, acc: seq<ExtractedUrl>, results: map<string, Checked>, env: Env): Scraped
    requires Checks(acc, results, env.key)
    decreases |acc|
  {
    if acc == [] then Scraped(s, [])
    else
      var n := |acc| - 1;
      ScrapeStep(ScrapeFold(s, acc[..n], results, env), acc[n], n, results[env.key(acc[n])], env)
  }

  lemma ScrapeNext(s: Store, acc: seq<ExtractedUrl>, results: map<string, Checked>, env: Env, i: nat)
    requires Checks(acc, results, env.key) && i < |acc|
    ensures Checks(acc[..i], results, env.key) && Checks(acc[..i + 1], results, env.key)
    ensures ScrapeFold(s, acc[..i + 1], results, env)
         == ScrapeStep(ScrapeFold(s, acc[..i], results, env), acc[i], i, results[env.key(acc[i])], env)
  {
    assert acc[..i + 1][..i] == acc[..i];
  }

  /** The scrape loop over the accessible links. */
  method ScrapeAll(db: Database, acc: seq<ExtractedUrl>, results: map<string, Checked>, env: Env) returns (fetched: seq<string>)
    requires db.Valid() && Checks(acc, results, env.key)
    modifies db
    ensures db.Valid()
    ensures Scraped(db.State(), fetched) == ScrapeFold(old(db.State()), acc, results, env)
  {
    ghost var s0 := db.State();
    fetched := [];
    for i := 0 to |acc|
      invariant db.Valid()
      invariant Checks(acc[..i], results, env.key)
      invariant Scraped(db.State(), fetched) == ScrapeFold(s0, acc[..i], results, env)
    {
      ScrapeNext(s0, acc, results, env, i);
      var u := acc[i];
      var id := env.key(u);
      var a := ScrapeAttempt(u, i, results[id], env);
      if a.fetched {
        fetched := fetched + [id];
      }
      if a.saved.Some? {
        db.SavePost(a.saved.value);
      }
    }
    assert acc[..|acc|] == acc;
  }

  // ---------------------------------------------------------------- saving the links that were not scraped

  /** `status_map.get(validation.status, PostStatus.FAILED)`. */
  function SavedStatus(st: V.UrlStatus): (r: PostStatus)
    ensures r == Private <==> st == V.UrlStatus.Private || st == V.UrlStatus.LoginRequired
    ensures r == Deleted <==> st == V.UrlStatus.Deleted
    ensures r == Failed <==> !(st.Private? || st.LoginRequired? || st.Deleted?)
  {
    match st
    case Private => Private
    case LoginRequired => Private
    case Deleted => Deleted
    case _ => Failed
  }

  /** The record saved for a link that was not scraped: its status and error message from the validation. */
  function RestPost(u: ExtractedUrl, id: string, pl: Platform, c: Checked): (p: Post)
    ensures p.id == id && p.url == u.url && p.platform == pl
    ensures p.status == SavedStatus(c.result.status) && p.validatedAt == Some(c.at) && p.errorMessage == c.result.errorMessage
    ensures p.sourceFile == u.sourceFile && p.sourceContext == u.context
    ensures p.author.None? && p.scrapedAt.None? && p.thumbnailPath.None? && p.mediaUrls == [] && MetricsValid(p)
  {
    NewPost(id, u.url, pl, u.sourceFile).(status := SavedStatus(c.result.status), validatedAt := Some(c.at),
                                          sourceContext := u.context, errorMessage := c.result.errorMessage)
  }

  /** The save loop so far: the store, and the exception of `Platform(...)` that ended the run. */
  datatype Rest = Rest(store: Store, failure: Option<string>)

  function RestStep(prev: Rest, u: ExtractedUrl, results: map<string, Checked>, accIds: seq<string>, key: ExtractedUrl -> string): Rest
    requires key(u) in results
  {
    var id := key(u);
    if prev.failure.Some? || id in accIds then prev
    else
      match PlatformOf(u.platform)
      case None => prev.(failure := Some(PlatformError(u.platform)))
      case Some(pl) => prev.(store := Saved(prev.store, RestPost(u, id, pl, results[id])))
  }

  function RestFold(s: Store, newUrls: seq<ExtractedUrl>, results: map<string, Checked>, accIds: seq<string>, key: ExtractedUrl -> string): Rest
    requires Checks(newUrls, results, key)
    decreases |newUrls|
  {
    if newUrls == [] then Rest(s, None)
    else
      var n := |newUrls| - 1;
      RestStep(RestFold(s, newUrls[..n], results, accIds, key), newUrls[n], results, accIds, key)
  }

  lemma RestNext(s: Store, newUrls: seq<ExtractedUrl>, results: map<string, Checked>, accIds: seq<string>, key: ExtractedUrl -> string, i: nat)
    requires Checks(newUrls, results, key) && i < |newUrls|
    ensures Checks(newUrls[..i], results, key) && Checks(newUrls[..i + 1], results, key)
    ensures RestFold(s, newUrls[..i + 1], results, accIds, key) == RestStep(RestFold(s, newUrls[..i], results, accIds, key), newUrls[i], results, accIds, key)
  {
    assert newUrls[..i + 1][..i] == newUrls[..i];
  }

  /** Once `Platform(...)` has raised, the later links change nothing. */
  lemma {:induction false} RestFailureStays(s: Store, newUrls: seq<ExtractedUrl>, results: map<string, Checked>, accIds: seq<string>,
                                            key: ExtractedUrl -> string, i: nat)
    requires Checks(newUrls, results, key) && i <= |newUrls|
    requires Checks(newUrls[..i], results, key) && RestFold(s, newUrls[..i], results, accIds, key).failure.Some?
    ensures RestFold(s, newUrls, results, accIds, key) == RestFold(s, newUrls[..i], results, accIds, key)
    decreases |newUrls|
  {
    if i < |newUrls| {
      var init := newUrls[..|newUrls| - 1];
      assert init[..i] == newUrls[..i];
      RestFailureStays(s, init, results, accIds, key, i);
    } else {
      assert newUrls[..i] == newUrls;
    }
  }

  /** The loop over the new links that saves every one not among the accessible ids. */
  method SaveRest(db: Database, newUrls: seq<ExtractedUrl>, results: map<string, Checked>, accIds: seq<string>, key: ExtractedUrl -> string)
      returns (failure: Option<string>)
    requires db.Valid() && Checks(newUrls, results, key)
    modifies db
    ensures db.Valid()
    ensures Rest(db.State(), failure) == RestFold(old(db.State()), newUrls, results, accIds, key)
  {
    ghost var s0 := db.State();
    failure := None;
    for i := 0 to |newUrls|
      invariant db.Valid()
      invariant Checks(newUrls[..i], results, key)
      invariant Rest(db.State(), None) == RestFold(s0, newUrls[..i], results, accIds, key)
    {
      RestNext(s0, newUrls, results, accIds, key, i);
      var u := newUrls[i];
      var id := key(u);
      if id !in accIds {
        var c := results[id];
        var platform := PlatformOf(u.platform);
        if platform.None? {
          failure := Some(PlatformError(u.platform));
          RestFailureStays(s0, newUrls, results, accIds, key, i + 1);
          return;
        }
        db.SavePost(RestPost(u, id, platform.value, c));
      }
    }
    assert newUrls[..|newUrls|] == newUrls;
  }

  // ---------------------------------------------------------------- the whole run

  /** How the run ends: nothing new to process, or the new links, the status counts, the accessible links, the thumbnails asked for and the exception that stopped the save loop. */
  datatype MainRun =
    | NothingNew
    | Ran(newUrls: seq<ExtractedUrl>, statusCounts: seq<(string, nat)>, accessible: seq<ExtractedUrl>,
          fetched: seq<string>, failure: Option<string>)

  function ResultsOf(s: Store, unique: seq<ExtractedUrl>, env: Env): map<string, Checked>
  {
    Validations(NewUrls(s, unique, env.key), env)
  }

  function AccessibleOf(s: Store, unique: seq<ExtractedUrl>, env: Env): seq<ExtractedUrl>
  {
    AccessibleUrls(NewUrls(s, unique, env.key), ResultsOf(s, unique, env), env.key)
  }

  /** The store after the scrape loop. */
  function ScrapedOf(s: Store, unique: seq<ExtractedUrl>, env: Env): Scraped
  {
    ScrapeFold(s, AccessibleOf(s, unique, env), ResultsOf(s, unique, env), env)
  }

  /**
   * The run from the unique links on: with no new link it stops before
   * validating and leaves the store as it was; otherwise it validates,
   * counts, scrapes the accessible links and saves the rest.
   */
  function MainOf(s: Store, unique: seq<ExtractedUrl>, env: Env): (r: (Store, MainRun))
    ensures NewUrls(s, unique, env.key) == [] <==> r == (s, NothingNew)
    ensures r.1.Ran? ==> r.1.newUrls == NewUrls(s, unique, env.key) && r.1.accessible == AccessibleOf(s, unique, env)
    ensures r.1.Ran? ==> Total(r.1.statusCounts) == |r.1.newUrls|
    ensures r.1.Ran? ==> forall u :: u in r.1.accessible <==> u in r.1.newUrls && IsAccessible(ResultsOf(s, unique, env), env.key(u))
    ensures !env.downloadMedia ==> r.1.NothingNew? || r.1.fetched == []
  {
    var newUrls := NewUrls(s, unique, env.key);
    if newUrls == [] then (s, NothingNew)
    else
      var results := ResultsOf(s, unique, env);
      ValidationsKeys(newUrls, env);
      StatusCountsTotal(newUrls, env);
      var acc := AccessibleOf(s, unique, env);
      var sc := ScrapedOf(s, unique, env);
      ScrapeFetchesOnlyMedia(s, acc, results, env);
      var rest := RestFold(sc.store, newUrls, results, Keys(acc, env.key), env.key);
      (rest.store, Ran(newUrls, Tally(CheckList(newUrls, env), StatusKey), acc, sc.fetched, rest.failure))
  }

  /** With media downloads off, no thumbnail is asked for. */
  lemma {:induction false} ScrapeFetchesOnlyMedia(s: Store, acc: seq<ExtractedUrl>, results: map<string, Checked>, env: Env)
    requires Checks(acc, results, env.key)
    ensures |ScrapeFold(s, acc, results, env).fetched| <= |acc|
    ensures !env.downloadMedia ==> ScrapeFold(s, acc, results, env).fetched == []
    decreases |acc|
  {
    if acc != [] {
      ScrapeFetchesOnlyMedia(s, acc[..|acc| - 1], results, env);
    }
  }

  /** `run_pipeline` from the unique links on, applied to the database. */
  method RunOn(db: Database, unique: seq<ExtractedUrl>, env: Env) returns (r: MainRun)
    requires db.Valid()
    modifies db
    ensures db.Valid()
    ensures (db.State(), r) == MainOf(old(db.State()), unique, env)
  {
    var newUrls := NewUrls(db.State(), unique, env.key);
    if newUrls == [] {
      return NothingNew;
    }
    var results := ValidateAll(newUrls, env);
    ValidationsKeys(newUrls, env);
    var counts := TallyLoop(CheckList(newUrls, env), StatusKey);
    var acc := AccessibleUrls(newUrls, results, env.key);
    var fetched := ScrapeAll(db, acc, results, env);
    var failure := SaveRest(db, newUrls, results, Keys(acc, env.key), env.key);
    r := Ran(newUrls, counts, acc, fetched, failure);
  }

  /**
   * `run_pipeline`: the notes directory is scanned (a path that is not a
   * directory raises before anything is stored), then the run goes on
   * from the collection's unique links.
   */
  method RunPipeline(db: Database, path: string, isDir: bool, files: seq<(string, NoteFile)>, digest: string -> string,
                     validate: nat -> V.ValidationResult, vclock: nat -> Instant,
                     scrape: nat -> Stages.Try<ScraperBase.ScrapeResult>, thumb: nat -> Option<string>, sclock: nat -> Instant,
                     downloadMedia: bool)
      returns (r: Result<MainRun>)
    requires db.Valid()
    modifies db
    ensures db.Valid()
    ensures !isDir ==> r == Failure("Not a directory: " + path) && db.State() == old(db.State())
    ensures isDir ==> (r.Success? && (db.State(), r.value)
      == MainOf(old(db.State()), FirstOfEach(ScanLinks(files), IdKey(digest)),
                Env(IdKey(digest), validate, vclock, scrape, thumb, sclock, downloadMedia)))
  {
    var scanned := ScanDirectory(path, isDir, files);
    if scanned.Failure? {
      return Failure(scanned.error);
    }
    var unique := scanned.value.UniqueUrls(digest);
    var run := RunOn(db, unique, Env(IdKey(digest), validate, vclock, scrape, thumb, sclock, downloadMedia));
    r := Success(run);
  }

  // ---------------------------------------------------------------- what the run stores

  /** The index entry and the record file of `id` are as they were. */
  ghost predicate SameAt(s: Store, t: Store, id: string)
  {
    (id in t.index <==> id in s.index) && (id in s.index ==> t.index[id] == s.index[id])
    && (id in t.files <==> id in s.files) && (id in s.files ==> t.files[id] == s.files[id])
  }

  /** Saving another record leaves `id` as it was. */
  lemma SavedElsewhere(s: Store, p: Post, id: string)
    requires p.id != id
    ensures SameAt(s, Saved(s, p), id)
  {
  }

  /** Saving `p` leaves its entry and its file. */
  ghost predicate HoldsAt(t: Store, p: Post)
  {
    p.id in t.index && t.index[p.id] == Projection(p) && p.id in t.files && t.files[p.id] == Record(Stored(p))
  }

  /** The scrape loop leaves every id it does not scrape as it was. */
  lemma {:induction false} ScrapeUntouched(s: Store, acc: seq<ExtractedUrl>, results: map<string, Checked>, env: Env, id: string)
    requires Checks(acc, results, env.key) && id !in Keys(acc, env.key)
    ensures SameAt(s, ScrapeFold(s, acc, results, env).store, id)
    decreases |acc|
  {
    if acc != [] {
      var n := |acc| - 1;
      assert Keys(acc[..n], env.key) == Keys(acc, env.key)[..n];
      assert Keys(acc, env.key)[n] == env.key(acc[n]);
      ScrapeUntouched(s, acc[..n], results, env, id);
      var a := ScrapeAttempt(acc[n], n, results[env.key(acc[n])], env);
      if a.saved.Some? {
        SavedElsewhere(ScrapeFold(s, acc[..n], results, env).store, a.saved.value, id);
      }
    }
  }

  /**
   * The `k`-th accessible link, when its ids are distinct: the record its
   * `try` block builds is what the store holds for its id, and when the
   * block raised, its id is as it was before the loop.
   */
  lemma {:induction false} ScrapeOutcome(s: Store, acc: seq<ExtractedUrl>, results: map<string, Checked>, env: Env, k: nat)
    requires Checks(acc, results, env.key) && Distinct(Keys(acc, env.key)) && k < |acc|
    ensures var a := ScrapeAttempt(acc[k], k, results[env.key(acc[k])], env);
      var t := ScrapeFold(s, acc, results, env).store;
      (a.saved.Some? ==> HoldsAt(t, a.saved.value)) && (a.saved.None? ==> SameAt(s, t, env.key(acc[k])))
    decreases |acc|
  {
    var n := |acc| - 1;
    var init := acc[..n];
    var id := env.key(acc[k]);
    var prev := ScrapeFold(s, init, results, env).store;
    var b := ScrapeAttempt(acc[n], n, results[env.key(acc[n])], env);
    var t := ScrapeFold(s, acc, results, env).store;
    assert t == if b.saved.Some? then Saved(prev, b.saved.value) else prev;
    DistinctIdsInit(acc, env.key);
    if k == n {
      if b.saved.None? {
        forall m | 0 <= m < n
          ensures Keys(init, env.key)[m] != id
        {
          assert init[m] in init;
        }
        ScrapeUntouched(s, init, results, env, id);
      }
    } else {
      assert init[k] == acc[k] && acc[k] in init;
      ScrapeOutcome(s, init, results, env, k);
      if b.saved.Some? {
        SavedElsewhere(prev, b.saved.value, id);
        var a := ScrapeAttempt(acc[k], k, results[id], env);
        if a.saved.Some? {
          HoldsKept(prev, t, a.saved.value);
        } else {
          SameTrans(s, prev, t, id);
        }
      }
    }
  }

  lemma SameTrans(s: Store, m: Store, t: Store, id: string)
    requires SameAt(s, m, id) && SameAt(m, t, id)
    ensures SameAt(s, t, id)
  {
  }

  lemma HoldsKept(m: Store, t: Store, p: Post)
    requires HoldsAt(m, p) && SameAt(m, t, p.id)
    ensures HoldsAt(t, p)
  {
  }

  /** The save loop leaves every id among the accessible ids, and every id of no new link, as it was. */
  lemma {:induction false} RestUntouched(s: Store, newUrls: seq<ExtractedUrl>, results: map<string, Checked>, accIds: seq<string>,
                                         key: ExtractedUrl -> string, id: string)
    requires Checks(newUrls, results, key) && (id in accIds || id !in Keys(newUrls, key))
    ensures SameAt(s, RestFold(s, newUrls, results, accIds, key).store, id)
    decreases |newUrls|
  {
    if newUrls != [] {
      var n := |newUrls| - 1;
      assert Keys(newUrls[..n], key) == Keys(newUrls, key)[..n];
      assert Keys(newUrls, key)[n] == key(newUrls[n]);
      RestUntouched(s, newUrls[..n], results, accIds, key, id);
      var prev := RestFold(s, newUrls[..n], results, accIds, key);
      var u := newUrls[n];
      var uid := key(u);
      if prev.failure.None? && uid !in accIds && PlatformOf(u.platform).Some? {
        SavedElsewhere(prev.store, RestPost(u, uid, PlatformOf(u.platform).value, results[uid]), id);
      }
    }
  }

  /** A run whose save loop did not raise has saved the `k`-th new link, unless its id is among the accessible ids. */
  lemma {:induction false} RestOutcome(s: Store, newUrls: seq<ExtractedUrl>, results: map<string, Checked>, accIds: seq<string>,
                                       key: ExtractedUrl -> string, k: nat)
    requires Checks(newUrls, results, key) && Distinct(Keys(newUrls, key)) && k < |newUrls|
    requires key(newUrls[k]) !in accIds && RestFold(s, newUrls, results, accIds, key).failure.None?
    ensures PlatformOf(newUrls[k].platform).Some?
    ensures HoldsAt(RestFold(s, newUrls, results, accIds, key).store,
                    RestPost(newUrls[k], key(newUrls[k]), PlatformOf(newUrls[k].platform).value, results[key(newUrls[k])]))
    decreases |newUrls|
  {
    var n := |newUrls| - 1;
    var prev := RestFold(s, newUrls[..n], results, accIds, key);
    assert RestFold(s, newUrls, results, accIds, key) == RestStep(prev, newUrls[n], results, accIds, key);
    if k < n {
      DistinctIdsInit(newUrls, key);
      assert newUrls[..n][k] == newUrls[k] && newUrls[k] in newUrls[..n];
      RestOutcome(s, newUrls[..n], results, accIds, key, k);
      var u := newUrls[n];
      var uid := key(u);
      if uid !in accIds && PlatformOf(u.platform).Some? {
        SavedElsewhere(prev.store, RestPost(u, uid, PlatformOf(u.platform).value, results[uid]), key(newUrls[k]));
      }
    }
  }

  /** Records stored before the run are left as they were: the run only writes the ids of new links. */
  lemma MainKeepsOld(s: Store, unique: seq<ExtractedUrl>, env: Env, id: string)
    requires Exists(s, id)
    ensures SameAt(s, MainOf(s, unique, env).0, id)
  {
    var newUrls := NewUrls(s, unique, env.key);
    if newUrls != [] {
      var results := ResultsOf(s, unique, env);
      ValidationsKeys(newUrls, env);
      var acc := AccessibleOf(s, unique, env);
      NewIdsNotStored(s, unique, env.key, id);
      AccessibleIdsNew(newUrls, results, env.key, id);
      ScrapeUntouched(s, acc, results, env, id);
      RestUntouched(ScrapedOf(s, unique, env).store, newUrls, results, Keys(acc, env.key), env.key, id);
    }
  }

  /** A stored id is the id of no new link. */
  lemma NewIdsNotStored(s: Store, unique: seq<ExtractedUrl>, key: ExtractedUrl -> string, id: string)
    requires Exists(s, id)
    ensures id !in Keys(NewUrls(s, unique, key), key)
  {
    var newUrls := NewUrls(s, unique, key);
    forall m | 0 <= m < |newUrls|
      ensures Keys(newUrls, key)[m] != id
    {
      assert newUrls[m] in newUrls;
    }
  }

  /** The accessible ids are ids of new links. */
  lemma AccessibleIdsNew(newUrls: seq<ExtractedUrl>, results: map<string, Checked>, key: ExtractedUrl -> string, id: string)
    requires id !in Keys(newUrls, key)
    ensures id !in Keys(AccessibleUrls(newUrls, results, key), key)
  {
    var acc := AccessibleUrls(newUrls, results, key);
    forall m | 0 <= m < |acc|
      ensures Keys(acc, key)[m] != id
    {
      assert acc[m] in acc;
      var j :| 0 <= j < |newUrls| && newUrls[j] == acc[m];
      assert Keys(newUrls, key)[j] == key(acc[m]);
    }
  }

  /**
   * The `k`-th accessible new link: when its `try` block saved a record,
   * the store holds that record after the run; when the block raised (a
   * scrape exception among them), its id is not stored.
   */
  lemma MainScraped(s: Store, unique: seq<ExtractedUrl>, env: Env, k: nat)
    requires Distinct(Keys(unique, env.key)) && k < |AccessibleOf(s, unique, env)|
    ensures var u := AccessibleOf(s, unique, env)[k];
      var a := ScrapeAttempt(u, k, ResultsOf(s, unique, env)[env.key(u)], env);
      var t := MainOf(s, unique, env).0;
      (a.saved.Some? ==> HoldsAt(t, a.saved.value)) && (a.saved.None? ==> !Exists(t, env.key(u)))
  {
    var newUrls := NewUrls(s, unique, env.key);
    var results := ResultsOf(s, unique, env);
    var acc := AccessibleOf(s, unique, env);
    var id := env.key(acc[k]);
    ValidationsKeys(newUrls, env);
    NewUrlsDistinct(s, unique, env.key);
    AccessibleDistinct(newUrls, results, env.key);
    ScrapeOutcome(s, acc, results, env, k);
    assert Keys(acc, env.key)[k] == id;
    RestUntouched(ScrapedOf(s, unique, env).store, newUrls, results, Keys(acc, env.key), env.key, id);
    assert acc[k] in newUrls;
  }

  /**
   * The `k`-th new link that validation did not find accessible, in a run
   * whose save loop did not raise: the store holds the record with the
   * status its validation gives, that validation's `validated_at` and
   * its error message.
   */
  lemma MainRestSaved(s: Store, unique: seq<ExtractedUrl>, env: Env, k: nat)
    requires Distinct(Keys(unique, env.key)) && k < |NewUrls(s, unique, env.key)|
    requires env.validate(k).status != V.UrlStatus.Accessible
    requires MainOf(s, unique, env).1.Ran? && MainOf(s, unique, env).1.failure.None?
    ensures var u := NewUrls(s, unique, env.key)[k];
      PlatformOf(u.platform).Some?
      && HoldsAt(MainOf(s, unique, env).0, RestPost(u, env.key(u), PlatformOf(u.platform).value, Checked(env.validate(k), env.vclock(k))))
  {
    var newUrls := NewUrls(s, unique, env.key);
    var results := ResultsOf(s, unique, env);
    var acc := AccessibleOf(s, unique, env);
    var id := env.key(newUrls[k]);
    NewUrlsDistinct(s, unique, env.key);
    ValidationsKeys(newUrls, env);
    ValidationsAt(newUrls, env, k);
    forall m | 0 <= m < |acc|
      ensures Keys(acc, env.key)[m] != id
    {
      assert IsAccessible(results, env.key(acc[m]));
    }
    RestOutcome(ScrapedOf(s, unique, env).store, newUrls, results, Keys(acc, env.key), env.key, k);
  }
}
