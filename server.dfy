/**
 * The request handlers of the viewer server that are not stage tasks: the
 * scan of the notes directory, the full pipeline, deletion, the note
 * update and the list of inaccessible records, and the routing table that
 * decides which handler a request reaches.
 */
module Server {
  import opened Wrappers
  import opened Models
  import opened Grouping
  import opened Tallies
  import opened DbStore
  import opened DbQuery
  import opened Tasks
  import opened Db
  import opened Stages
  import opened MdParser
  import Text
  import V = UrlValidator
  import ScraperBase
  import MD = MediaDownloader
  import DbStats

  // ---------------------------------------------------------------- pending records for new links

  /** The record a scan creates for a link it has not seen: pending, with the link's note and context. */
  function PendingPost(u: ExtractedUrl, id: string, platform: Platform): (p: Post)
    ensures p.id == id && p.url == u.url && p.platform == platform && p.status == Pending
    ensures p.sourceFile == u.sourceFile && p.sourceContext == u.context && MetricsValid(p)
  {
    NewPost(id, u.url, platform, u.sourceFile).(sourceContext := u.context)
  }

  /** The scan loop so far: the store, the records created, the number already known, and the exception that ended it. */
  datatype Scan = Scan(store: Store, created: seq<Post>, existing: nat, failure: Option<string>)

  /** One unique link: counted if its id is indexed, else saved as pending; a link with an unknown platform raises. */
  function PendingStep(prev: Scan, u: ExtractedUrl, digest: string -> string): Scan
  {
    var id := UrlId(u.url, digest);
    if prev.failure.Some? then prev
    else if Exists(prev.store, id) then prev.(existing := prev.existing + 1)
    else
      match PlatformOf(u.platform)
      case None => prev.(failure := Some(PlatformError(u.platform)))
      case Some(pl) => prev.(store := Saved(prev.store, PendingPost(u, id, pl)), created := prev.created + [PendingPost(u, id, pl)])
  }

  function AddPendingFold(s: Store, us: seq<ExtractedUrl>, digest: string -> string): Scan
    decreases |us|
  {
    if us == [] then Scan(s, [], 0, None) else PendingStep(AddPendingFold(s, us[..|us| - 1], digest), us[|us| - 1], digest)
  }

  lemma AddPendingNext(s: Store, us: seq<ExtractedUrl>, digest: string -> string, i: nat)
    requires i < |us|
    ensures AddPendingFold(s, us[..i + 1], digest) == PendingStep(AddPendingFold(s, us[..i], digest), us[i], digest)
  {
    assert us[..i + 1][..i] == us[..i];
  }

  /** Once an exception has ended the loop, the later links change nothing. */
  lemma {:induction false} FailureStays(s: Store, us: seq<ExtractedUrl>, digest: string -> string, i: nat)
    requires i <= |us| && AddPendingFold(s, us[..i], digest).failure.Some?
    ensures AddPendingFold(s, us, digest) == AddPendingFold(s, us[..i], digest)
    decreases |us|
  {
    if i < |us| {
      var init := us[..|us| - 1];
      assert init[..i] == us[..i];
      FailureStays(s, init, digest, i);
    } else {
      assert us[..i] == us;
    }
  }

  /**
   * The loop of a scan (and of the full pipeline's first step) over the
   * unique links: known ids are counted, new ones saved as pending records.
   */
  method AddPending(db: Database, us: seq<ExtractedUrl>, digest: string -> string)
      returns (created: seq<Post>, existing: nat, failure: Option<string>)
    requires db.Valid()
    modifies db
    ensures db.Valid()
    ensures Scan(db.State(), created, existing, failure) == AddPendingFold(old(db.State()), us, digest)
  {
    ghost var s0 := db.State();
    created, existing, failure := [], 0, None;
    var i := 0;
    while i < |us|
      invariant 0 <= i <= |us|
      invariant db.Valid() && failure.None?
      invariant Scan(db.State(), created, existing, failure) == AddPendingFold(s0, us[..i], digest)
    {
      AddPendingNext(s0, us, digest, i);
      created, existing, failure := AddOne(db, us[i], digest, created, existing);
      if failure.Some? {
        FailureStays(s0, us, digest, i + 1);
        return;
      }
      i := i + 1;
    }
    assert us[..i] == us;
  }

  /** One pass of the scan loop: a known id is counted, a new link saved as pending, an unknown platform raises. */
  method AddOne(db: Database, u: ExtractedUrl, digest: string -> string, created: seq<Post>, existing: nat)
      returns (created': seq<Post>, existing': nat, failure: Option<string>)
    requires db.Valid()
    modifies db
    ensures db.Valid()
    ensures Scan(db.State(), created', existing', failure) == PendingStep(Scan(old(db.State()), created, existing, None), u, digest)
  {
    created', existing', failure := created, existing, None;
    var id := UrlId(u.url, digest);
    var known := db.Exists(id);
    if known {
      existing' := existing + 1;
    } else {
      var platform := PlatformOf(u.platform);
      if platform.None? {
        failure := Some(PlatformError(u.platform));
        return;
      }
      var p := PendingPost(u, id, platform.value);
      db.SavePost(p);
      created' := created + [p];
    }
  }

  /**
   * What the scan loop keeps, from store `s` over the links `us`: the
   * index stays well formed; every record indexed before keeps its entry
   * and its file; the records it creates are pending, were not indexed
   * before, are indexed now and have distinct ids, and the count grows by
   * their number; every link is created or counted as known unless an
   * exception ended the loop, and then the id of every link is indexed.
   */
  ghost predicate Grown(s: Store, us: seq<ExtractedUrl>, digest: string -> string, t: Scan)
  {
    Valid(t.store) && Count(t.store) == Count(s) + |t.created|
    && KeepsOld(s, t.store) && CreatedNew(s, t.store, t.created)
    && |t.created| + t.existing <= |us|
    && (t.failure.None? ==> |t.created| + t.existing == |us| && Covers(us, digest, t.store))
  }

  /** Every record indexed in `s` keeps its entry and its file in `t`. */
  ghost predicate KeepsOld(s: Store, t: Store)
  {
    forall id :: id in s.index ==> id in t.index && t.index[id] == s.index[id] && Load(t.files, id) == Load(s.files, id)
  }

  /** The records created are pending, new to `s`, indexed in `t`, and have distinct ids. */
  ghost predicate CreatedNew(s: Store, t: Store, created: seq<Post>)
  {
    (forall j :: 0 <= j < |created| ==> created[j].status == Pending && created[j].id !in s.index && created[j].id in t.index)
    && Distinct(PostIds(created))
  }

  /** The id of every link is indexed in `t`. */
  ghost predicate Covers(us: seq<ExtractedUrl>, digest: string -> string, t: Store)
  {
    forall k :: 0 <= k < |us| ==> UrlId(us[k].url, digest) in t.index
  }

  /** One link more keeps what the loop keeps. */
  lemma GrownStep(s: Store, us: seq<ExtractedUrl>, digest: string -> string, prev: Scan, u: ExtractedUrl)
    requires Grown(s, us, digest, prev)
    ensures Grown(s, us + [u], digest, PendingStep(prev, u, digest))
  {
    var id := UrlId(u.url, digest);
    var pl := PlatformOf(u.platform);
    if prev.failure.Some? {
      assert PendingStep(prev, u, digest) == prev;
    } else if Exists(prev.store, id) {
      assert PendingStep(prev, u, digest) == prev.(existing := prev.existing + 1);
      CoversMore(us, digest, prev.store, u);
    } else if pl.None? {
      assert PendingStep(prev, u, digest) == prev.(failure := Some(PlatformError(u.platform)));
    } else {
      var p := PendingPost(u, id, pl.value);
      assert PendingStep(prev, u, digest) == prev.(store := Saved(prev.store, p), created := prev.created + [p]);
      GrownSave(s, us, digest, prev, u, p);
    }
  }

  lemma CoversMore(us: seq<ExtractedUrl>, digest: string -> string, t: Store, u: ExtractedUrl)
    requires Covers(us, digest, t) && UrlId(u.url, digest) in t.index
    ensures Covers(us + [u], digest, t)
  {
    var us' := us + [u];
    assert forall k :: 0 <= k < |us| ==> us'[k] == us[k];
  }

  /** Saving the pending record of a new link keeps what the loop keeps. */
  lemma GrownSave(s: Store, us: seq<ExtractedUrl>, digest: string -> string, prev: Scan, u: ExtractedUrl, p: Post)
    requires Grown(s, us, digest, prev) && prev.failure.None?
    requires p.id == UrlId(u.url, digest) && p.id !in prev.store.index && p.status == Pending
    ensures Grown(s, us + [u], digest, prev.(store := Saved(prev.store, p), created := prev.created + [p]))
  {
    var t := Saved(prev.store, p);
    SaveIndex(prev.store, p);
    SaveKeepsOld(s, prev.store, p);
    SaveCreated(s, prev.store, prev.created, p);
    forall k | 0 <= k < |us| ensures UrlId(us[k].url, digest) in t.index {
      assert UrlId(us[k].url, digest) in prev.store.index;
    }
    CoversMore(us, digest, t, u);
  }

  lemma SaveKeepsOld(s: Store, t: Store, p: Post)
    requires KeepsOld(s, t) && p.id !in t.index
    ensures KeepsOld(s, Saved(t, p))
  {
    forall id | id in s.index
      ensures id in Saved(t, p).index && Saved(t, p).index[id] == s.index[id] && Load(Saved(t, p).files, id) == Load(s.files, id)
    {
      assert id != p.id;
      assert Saved(t, p).files == t.files[p.id := Record(Stored(p))];
    }
  }

  lemma SaveCreated(s: Store, t: Store, created: seq<Post>, p: Post)
    requires CreatedNew(s, t, created) && p.id !in t.index && p.status == Pending && KeepsOld(s, t)
    ensures CreatedNew(s, Saved(t, p), created + [p])
  {
    assert p.id !in s.index;
    assert PostIds(created + [p]) == PostIds(created) + [p.id];
    assert p.id !in PostIds(created);
    DistinctAppend(PostIds(created), p.id);
  }

  /** The scan loop keeps `Grown` over all its links. */
  lemma {:induction false} ScanGrows(s: Store, us: seq<ExtractedUrl>, digest: string -> string)
    requires Valid(s)
    ensures Grown(s, us, digest, AddPendingFold(s, us, digest))
    decreases |us|
  {
    if us == [] {
      assert PostIds([]) == [];
    } else {
      var n := |us| - 1;
      ScanGrows(s, us[..n], digest);
      GrownStep(s, us[..n], digest, AddPendingFold(s, us[..n], digest), us[n]);
      assert us[..n] + [us[n]] == us;
    }
  }

  /** Links whose platforms are all known never raise. */
  lemma {:induction false} ScanSucceeds(s: Store, us: seq<ExtractedUrl>, digest: string -> string)
    requires forall k :: 0 <= k < |us| ==> PlatformOf(us[k].platform).Some?
    ensures AddPendingFold(s, us, digest).failure.None?
    decreases |us|
  {
    if us != [] {
      assert forall k :: 0 <= k < |us| - 1 ==> us[..|us| - 1][k] == us[k];
      ScanSucceeds(s, us[..|us| - 1], digest);
    }
  }

  // ---------------------------------------------------------------- the scan handler

  /** A `duplicate_list` row: the first link of the id, how many links share it, and their notes. */
  datatype DuplicateItem = DuplicateItem(url: string, count: nat, files: seq<string>)

  function SourceFiles(urls: seq<ExtractedUrl>): (r: seq<string>)
    ensures |r| == |urls| && forall k :: 0 <= k < |urls| ==> r[k] == urls[k].sourceFile
  {
    seq(|urls|, k requires 0 <= k < |urls| => urls[k].sourceFile)
  }

  /** The rows for a run of groups, skipping empty ones. */
  function DuplicateItems(groups: seq<(string, seq<ExtractedUrl>)>): seq<DuplicateItem>
    decreases |groups|
  {
    if groups == [] then []
    else
      var g := groups[|groups| - 1];
      DuplicateItems(groups[..|groups| - 1])
        + (if g.1 == [] then [] else [DuplicateItem(g.1[0].url, |g.1|, SourceFiles(g.1))])
  }

  /** Groups of more than one link each give one row, whose count is the number of its notes and is at least two. */
  lemma {:induction false} DuplicateItemsSpec(groups: seq<(string, seq<ExtractedUrl>)>)
    requires forall j :: 0 <= j < |groups| ==> |groups[j].1| > 1
    ensures |DuplicateItems(groups)| == |groups|
    ensures forall j :: 0 <= j < |groups| ==>
      DuplicateItems(groups)[j] == DuplicateItem(groups[j].1[0].url, |groups[j].1|, SourceFiles(groups[j].1))
    ensures forall j :: 0 <= j < |groups| ==>
      DuplicateItems(groups)[j].count >= 2 && DuplicateItems(groups)[j].count == |DuplicateItems(groups)[j].files|
    decreases |groups|
  {
    if groups != [] {
      var init := groups[..|groups| - 1];
      assert forall j :: 0 <= j < |init| ==> init[j] == groups[j];
      DuplicateItemsSpec(init);
    }
  }

  /** The loop that builds `duplicate_list` from the first 50 duplicate groups. */
  method DuplicateList(groups: seq<(string, seq<ExtractedUrl>)>) returns (items: seq<DuplicateItem>)
    ensures items == DuplicateItems(DbStats.Prefix(groups, 50))
  {
    var head := DbStats.Prefix(groups, 50);
    items := [];
    for i := 0 to |head|
      invariant items == DuplicateItems(head[..i])
    {
      assert head[..i + 1][..i] == head[..i];
      var urls := head[i].1;
      if urls != [] {
        items := items + [DuplicateItem(urls[0].url, |urls|, SourceFiles(urls))];
      }
    }
    assert head[..|head|] == head;
  }

  /** What `POST /api/scan` answers. */
  datatype ScanReply =
    | ScanConflict
    | SourceMissing(detail: string)
    | ScanFailed(detail: string)
    | Scanned(filesScanned: nat, totalUrls: nat, uniqueUrls: nat, newUrls: nat, existingUrls: nat,
              duplicates: int, duplicateList: seq<DuplicateItem>, byPlatform: seq<(string, nat)>)

  /** A scan of the links of a readable directory: the store after it, and its answer. */
  function ScanOf(s: Store, links: seq<ExtractedUrl>, digest: string -> string): (Store, ScanReply)
  {
    var unique := FirstOfEach(links, IdKey(digest));
    var groups := Repeated(Groups(links, IdKey(digest)));
    var sc := AddPendingFold(s, unique, digest);
    (sc.store,
     if sc.failure.Some? then ScanFailed("Scan failed: " + sc.failure.value)
     else Scanned(|SourcesOf(links)|, |links|, |unique|, |sc.created|, sc.existing,
                  DuplicateReport(groups).TotalDuplicates(), DuplicateItems(DbStats.Prefix(groups, 50)),
                  Tally(unique, LinkPlatform)))
  }

  /** Groups of more than one link each have more links than there are groups. */
  lemma {:induction false} SurplusBound(gs: seq<(string, seq<ExtractedUrl>)>)
    requires forall j :: 0 <= j < |gs| ==> |gs[j].1| > 1
    ensures Surplus(gs) >= |gs|
    decreases |gs|
  {
    if gs != [] {
      assert forall j :: 0 <= j < |gs| - 1 ==> gs[1..][j] == gs[j + 1];
      SurplusBound(gs[1..]);
    }
  }

  /**
   * The counts of a scan answer: new and existing add up to the unique
   * links, the duplicates are the links beyond the unique ones, the count
   * grows by the new ones, and the platform breakdown counts every unique
   * link once.
   */
  lemma ScanCounts(s: Store, links: seq<ExtractedUrl>, digest: string -> string)
    requires Valid(s)
    ensures var (t, r) := ScanOf(s, links, digest);
      r.Scanned? ==>
        r.newUrls + r.existingUrls == r.uniqueUrls && r.uniqueUrls <= r.totalUrls
        && r.duplicates == r.totalUrls - r.uniqueUrls
        && Count(t) == Count(s) + r.newUrls
        && Total(r.byPlatform) == r.uniqueUrls
  {
    var unique := FirstOfEach(links, IdKey(digest));
    ScanGrows(s, unique, digest);
    DuplicateCounts(links, digest);
    SurplusBound(Repeated(Groups(links, IdKey(digest))));
    TallySpec(unique, LinkPlatform);
  }

  /** At most 50 duplicate rows, each of two links or more. */
  lemma ScanDuplicateRows(s: Store, links: seq<ExtractedUrl>, digest: string -> string)
    ensures var r := ScanOf(s, links, digest).1;
      r.Scanned? ==>
        |r.duplicateList| <= 50
        && forall j :: 0 <= j < |r.duplicateList| ==> r.duplicateList[j].count >= 2
  {
    var groups := Repeated(Groups(links, IdKey(digest)));
    var head := DbStats.Prefix(groups, 50);
    assert forall j :: 0 <= j < |head| ==> head[j] == groups[j];
    DuplicateItemsSpec(head);
  }

  /** Links whose platforms are all known are scanned without an exception. */
  lemma ScanKnownSucceeds(s: Store, links: seq<ExtractedUrl>, digest: string -> string)
    requires forall k :: 0 <= k < |links| ==> PlatformOf(links[k].platform).Some?
    ensures ScanOf(s, links, digest).1.Scanned?
  {
    var unique := FirstOfEach(links, IdKey(digest));
    var pos := FirstOfEachPositions(links, IdKey(digest));
    assert forall k :: 0 <= k < |unique| ==> unique[k] == links[pos[k]];
    ScanSucceeds(s, unique, digest);
  }

  /**
   * `POST /api/scan`: 409 while a task runs, 400 for a missing source,
   * 500 for a source that is not a directory or a link that cannot become
   * a record; else the scan of its notes. `path` is the source directory
   * as `pathlib` prints it, `str(Path(...))`: the caller has already
   * dropped trailing and repeated separators and `.` segments, so
   * `"notes/"` is reported as `notes`.
   */
  function ScanRoute(s: Store, running: bool, path: string, present: bool, isDir: bool,
                     files: seq<(string, NoteFile)>, digest: string -> string): (Store, ScanReply)
  {
    if running then (s, ScanConflict)
    else if !present then (s, SourceMissing("Source directory not found: " + path))
    else if !isDir then (s, ScanFailed("Scan failed: " + ("Not a directory: " + path)))
    else ScanOf(s, ScanLinks(files), digest)
  }

  method ScanUrls(db: Database, ts: TaskState, path: string, present: bool, isDir: bool,
                  files: seq<(string, NoteFile)>, digest: string -> string) returns (r: ScanReply)
    requires db.Valid()
    modifies db
    ensures db.Valid()
    ensures (db.State(), r) == ScanRoute(old(db.State()), ts.isRunning, path, present, isDir, files, digest)
  {
    if ts.isRunning {
      return ScanConflict;
    }
    if !present {
      return SourceMissing("Source directory not found: " + path);
    }
    var scanned := ScanDirectory(path, isDir, files);
    if scanned.Failure? {
      return ScanFailed("Scan failed: " + scanned.error);
    }
    r := ScanCollection(db, scanned.value, digest);
  }

  /** The scan proper, over the links collected from the notes. */
  method ScanCollection(db: Database, collection: UrlCollection, digest: string -> string) returns (r: ScanReply)
    requires db.Valid() && collection.sourceFiles == SourcesOf(collection.urls)
    modifies db
    ensures db.Valid()
    ensures (db.State(), r) == ScanOf(old(db.State()), collection.urls, digest)
  {
    var report := DetectDuplicates(collection.urls, digest);
    var unique := collection.UniqueUrls(digest);
    var created, existing, failure := AddPending(db, unique, digest);
    if failure.Some? {
      return ScanFailed("Scan failed: " + failure.value);
    }
    var byPlatform := TallyLoop(unique, LinkPlatform);
    var items := DuplicateList(report.duplicates);
    r := Scanned(|collection.sourceFiles|, |collection.urls|, |unique|, |created|, existing,
                 report.TotalDuplicates(), items, byPlatform);
  }

  /** The notes a readable directory yields never make the scan raise. */
  lemma ScanOfNotes(s: Store, files: seq<(string, NoteFile)>, digest: string -> string)
    ensures ScanOf(s, ScanLinks(files), digest).1.Scanned?
  {
    ScanLinksKnown(files);
    ScanKnownSucceeds(s, ScanLinks(files), digest);
  }

  // ---------------------------------------------------------------- the full pipeline (process_all)

  /** The pipeline's validation keeps the validator's error message out of the record. */
  function PipelineValidateOutcome(check: nat -> Try<V.ValidationResult>, clock: nat -> Instant, i: nat, p: Post): Outcome
  {
    match check(i)
    case Ok(r) => Save(p.(status := RecordStatus(r.status), validatedAt := Some(clock(i))), None)
    case Raised(m) => Error("Validate " + ErrorLine(p.id, m))
  }

  function PipelineValidateStep(check: nat -> Try<V.ValidationResult>, clock: nat -> Instant): Step
  {
    (i: nat, p: Post) => PipelineValidateOutcome(check, clock, i, p)
  }

  /** The pipeline's scrape copies fewer fields than `/api/scrape`, always asks for the thumbnail, and saves whether or not it succeeded. */
  function PipelineScraped(p: Post, r: ScraperBase.ScrapeResult, at: Instant, fetched: Option<string>): (q: Post)
    ensures q.id == p.id && q.status == p.status && q.scrapedAt == Some(at) && q.author == r.author
    ensures q.title == p.title && q.shares == p.shares && q.mediaType == p.mediaType
  {
    var q := p.(author := r.author, content := r.content, postedAt := r.postedAt, views := r.views, likes := r.likes,
                thumbnailUrl := r.thumbnailUrl, mediaUrls := r.mediaUrls, scrapedAt := Some(at));
    if ScraperBase.Truthy(fetched) then q.(thumbnailPath := fetched) else q
  }

  function PipelineScrapeOutcome(scrape: nat -> Try<ScraperBase.ScrapeResult>, thumb: nat -> Option<string>,
                                 clock: nat -> Instant, i: nat, p: Post): Outcome
  {
    match scrape(i)
    case Ok(r) => if r.success then Save(PipelineScraped(p, r, clock(i), thumb(i)), None) else Save(p, None)
    case Raised(m) => Error("Scrape " + ErrorLine(p.id, m))
  }

  function PipelineScrapeStep(scrape: nat -> Try<ScraperBase.ScrapeResult>, thumb: nat -> Option<string>, clock: nat -> Instant): Step
  {
    (i: nat, p: Post) => PipelineScrapeOutcome(scrape, thumb, clock, i, p)
  }

  function CountSay(verb: string, n: nat): (nat, Post) -> string
  {
    (i: nat, p: Post) => verb + " " + Text.NatToString(i + 1) + "/" + Text.NatToString(n) + "..."
  }

  /** `[p for p in posts if p.status == PostStatus.ACCESSIBLE]`. */
  function AccessibleOf(posts: seq<Post>): (r: seq<Post>)
    ensures |r| <= |posts|
    ensures forall q :: q in r <==> q in posts && q.status == Accessible
    decreases |posts|
  {
    if posts == [] then []
    else AccessibleOf(posts[..|posts| - 1]) + (if posts[|posts| - 1].status == Accessible then [posts[|posts| - 1]] else [])
  }

  /** Where validation and scraping leave things: the store, the error lines, and the records that were scraped. */
  datatype StagesRun = StagesRun(store: Store, errors: seq<string>, accessible: seq<Post>)

  /** Validate every record, then scrape those among them that validated as accessible. */
  function AfterStages(t: Store, created: seq<Post>, check: nat -> Try<V.ValidationResult>, vclock: nat -> Instant,
                       scrape: nat -> Try<ScraperBase.ScrapeResult>, thumb: nat -> Option<string>, sclock: nat -> Instant): StagesRun
  {
    var vstep := PipelineValidateStep(check, vclock);
    var accessible := AccessibleOf(StageOut(created, vstep));
    var sstep := PipelineScrapeStep(scrape, thumb, sclock);
    StagesRun(StageStore(StageStore(t, created, vstep), accessible, sstep),
              StageErrors(created, vstep) + StageErrors(accessible, sstep), accessible)
  }

  /** Where the full pipeline leaves things once its scan has read the notes. */
  datatype PipelineRun = PipelineRun(store: Store, errors: seq<string>, created: seq<Post>, accessible: seq<Post>, failure: Option<string>)

  /**
   * Scan, then validate every record the scan created, then scrape those
   * among them that validated as accessible; an exception while creating
   * the records ends the pipeline.
   */
  function PipelineOf(s: Store, links: seq<ExtractedUrl>, digest: string -> string,
                      check: nat -> Try<V.ValidationResult>, vclock: nat -> Instant,
                      scrape: nat -> Try<ScraperBase.ScrapeResult>, thumb: nat -> Option<string>, sclock: nat -> Instant): PipelineRun
  {
    var sc := AddPendingFold(s, FirstOfEach(links, IdKey(digest)), digest);
    if sc.failure.Some? then PipelineRun(sc.store, [], sc.created, [], sc.failure)
    else
      var r := AfterStages(sc.store, sc.created, check, vclock, scrape, thumb, sclock);
      PipelineRun(r.store, r.errors, sc.created, r.accessible, None)
  }

  /**
   * The validation and scraping steps of the pipeline over the records
   * the scan created, and the closing message.
   */
  method PipelineStages(db: Database, ts: TaskState, created: seq<Post>,
                        check: nat -> Try<V.ValidationResult>, vclock: nat -> Instant,
                        scrape: nat -> Try<ScraperBase.ScrapeResult>, thumb: nat -> Option<string>, sclock: nat -> Instant)
    requires db.Valid()
    modifies db, ts
    ensures db.Valid() && !ts.isRunning
    ensures var r := AfterStages(old(db.State()), created, check, vclock, scrape, thumb, sclock);
      db.State() == r.store && ts.errors == old(ts.errors) + r.errors
      && ts.currentTask == "Scraping metadata" && ts.total == |r.accessible|
      && ts.message == "Complete: " + Text.NatToString(|created|) + " new, " + Text.NatToString(|r.accessible|) + " scraped"
  {
    ghost var s0, errors0 := db.State(), ts.errors;
    ghost var vstep, sstep := PipelineValidateStep(check, vclock), PipelineScrapeStep(scrape, thumb, sclock);
    var accessible := PipelineValidate(db, ts, created, check, vclock);
    ghost var s1, errors1 := db.State(), ts.errors;
    ts.Switch("Scraping metadata", |accessible|);
    var _ := RunItems(db, ts, accessible, PipelineScrapeStep(scrape, thumb, sclock), CountSay("Scraping", |accessible|));
    assert AfterStages(s0, created, check, vclock, scrape, thumb, sclock)
      == StagesRun(StageStore(s1, accessible, sstep), StageErrors(created, vstep) + StageErrors(accessible, sstep), accessible);
    AppendAssoc(errors0, StageErrors(created, vstep), StageErrors(accessible, sstep));
    ts.End("Complete: " + Text.NatToString(|created|) + " new, " + Text.NatToString(|accessible|) + " scraped");
  }

  /** The validation step of the pipeline: every record the scan created, then the accessible ones among them. */
  method PipelineValidate(db: Database, ts: TaskState, created: seq<Post>, check: nat -> Try<V.ValidationResult>, vclock: nat -> Instant)
      returns (accessible: seq<Post>)
    requires db.Valid()
    modifies db, ts
    ensures db.Valid() && db.State() == StageStore(old(db.State()), created, PipelineValidateStep(check, vclock))
    ensures accessible == AccessibleOf(StageOut(created, PipelineValidateStep(check, vclock)))
    ensures ts.errors == old(ts.errors) + StageErrors(created, PipelineValidateStep(check, vclock))
  {
    ts.Switch("Validating URLs", |created|);
    var validated := RunItems(db, ts, created, PipelineValidateStep(check, vclock), CountSay("Validating", |created|));
    accessible := AccessibleOf(validated);
  }

  lemma AppendAssoc<T>(x: seq<T>, a: seq<T>, b: seq<T>)
    ensures x + a + b == x + (a + b)
  {
  }

  /** `POST /api/process-all`: 409 while a task runs, else the whole pipeline as one task. */
  method FullPipeline(db: Database, ts: TaskState, path: string, isDir: bool, files: seq<(string, NoteFile)>,
                      digest: string -> string, check: nat -> Try<V.ValidationResult>, vclock: nat -> Instant,
                      scrape: nat -> Try<ScraperBase.ScrapeResult>, thumb: nat -> Option<string>, sclock: nat -> Instant)
      returns (started: bool)
    requires db.Valid()
    modifies db, ts
    ensures db.Valid()
    ensures started <==> !old(ts.isRunning)
    ensures !started ==> db.State() == old(db.State()) && ts.isRunning
    ensures started ==> !ts.isRunning
    ensures started && !isDir ==> db.State() == old(db.State()) && ts.errors == [] && ts.message == "Scanning for URLs..."
    ensures started && isDir ==>
      var run := PipelineOf(old(db.State()), ScanLinks(files), digest, check, vclock, scrape, thumb, sclock);
      db.State() == run.store && ts.errors == run.errors
      && (run.failure.None? ==>
            ts.currentTask == "Scraping metadata" && ts.total == |run.accessible|
            && ts.message == "Complete: " + Text.NatToString(|run.created|) + " new, " + Text.NatToString(|run.accessible|) + " scraped")
  {
    if ts.isRunning {
      return false;
    }
    started := true;
    ts.isRunning := true;
    RunPipeline(db, ts, path, isDir, files, digest, check, vclock, scrape, thumb, sclock);
  }

  /** The pipeline task, once the request has claimed the flag; the flag is cleared however it ends. */
  method RunPipeline(db: Database, ts: TaskState, path: string, isDir: bool, files: seq<(string, NoteFile)>,
                     digest: string -> string, check: nat -> Try<V.ValidationResult>, vclock: nat -> Instant,
                     scrape: nat -> Try<ScraperBase.ScrapeResult>, thumb: nat -> Option<string>, sclock: nat -> Instant)
    requires db.Valid()
    modifies db, ts
    ensures db.Valid() && !ts.isRunning
    ensures !isDir ==> db.State() == old(db.State()) && ts.errors == [] && ts.message == "Scanning for URLs..."
    ensures isDir ==>
      var run := PipelineOf(old(db.State()), ScanLinks(files), digest, check, vclock, scrape, thumb, sclock);
      db.State() == run.store && ts.errors == run.errors
      && (run.failure.None? ==>
            ts.currentTask == "Scraping metadata" && ts.total == |run.accessible|
            && ts.message == "Complete: " + Text.NatToString(|run.created|) + " new, " + Text.NatToString(|run.accessible|) + " scraped")
  {
    ts.errors := [];
    ts.currentTask := "Scanning MD files";
    ts.message := "Scanning for URLs...";
    var scanned := ScanDirectory(path, isDir, files);
    if scanned.Failure? {
      ts.isRunning := false;
      return;
    }
    PipelineFrom(db, ts, scanned.value, digest, check, vclock, scrape, thumb, sclock);
  }

  /** The pipeline from the links the scan collected: the records for the new ones, then their validation and scraping. */
  method PipelineFrom(db: Database, ts: TaskState, collection: UrlCollection,
                      digest: string -> string, check: nat -> Try<V.ValidationResult>, vclock: nat -> Instant,
                      scrape: nat -> Try<ScraperBase.ScrapeResult>, thumb: nat -> Option<string>, sclock: nat -> Instant)
    requires db.Valid()
    modifies db, ts
    ensures db.Valid() && !ts.isRunning
    ensures var run := PipelineOf(old(db.State()), collection.urls, digest, check, vclock, scrape, thumb, sclock);
      db.State() == run.store && ts.errors == old(ts.errors) + run.errors
      && (run.failure.None? ==>
            ts.currentTask == "Scraping metadata" && ts.total == |run.accessible|
            && ts.message == "Complete: " + Text.NatToString(|run.created|) + " new, " + Text.NatToString(|run.accessible|) + " scraped")
  {
    var unique := collection.UniqueUrls(digest);
    var created, existing, failure := AddPending(db, unique, digest);
    if failure.Some? {
      ts.isRunning := false;
      return;
    }
    PipelineStages(db, ts, created, check, vclock, scrape, thumb, sclock);
  }

  /** Item `k` as the stage leaves it. */
  lemma {:induction false} StageOutAt(posts: seq<Post>, step: Step, k: nat)
    requires k < |posts|
    ensures StageOut(posts, step)[k] == if step(k, posts[k]).Save? then step(k, posts[k]).post else posts[k]
    decreases |posts|
  {
    var n := |posts| - 1;
    if k < n {
      assert posts[..n][k] == posts[k];
      StageOutAt(posts[..n], step, k);
    }
  }

  /** The pipeline's validation saves every record under its own id. */
  lemma ValidateKeepsIds(created: seq<Post>, check: nat -> Try<V.ValidationResult>, vclock: nat -> Instant)
    ensures KeepsIds(created, PipelineValidateStep(check, vclock))
  {
    var vstep := PipelineValidateStep(check, vclock);
    forall k | 0 <= k < |created| && vstep(k, created[k]).Save?
      ensures vstep(k, created[k]).post.id == created[k].id
    {
      assert vstep(k, created[k]) == PipelineValidateOutcome(check, vclock, k, created[k]);
    }
  }

  /** What the pipeline's validation leaves accessible was validated, and is one of the records it was given. */
  lemma AccessibleValidated(created: seq<Post>, check: nat -> Try<V.ValidationResult>, vclock: nat -> Instant)
    requires forall j :: 0 <= j < |created| ==> created[j].status == Pending
    ensures forall q :: q in AccessibleOf(StageOut(created, PipelineValidateStep(check, vclock))) ==>
      q.status == Accessible && q.validatedAt.Some? && q.id in PostIds(created)
  {
    var vstep := PipelineValidateStep(check, vclock);
    var validated := StageOut(created, vstep);
    forall q | q in AccessibleOf(validated)
      ensures q.status == Accessible && q.validatedAt.Some? && q.id in PostIds(created)
    {
      var k :| 0 <= k < |validated| && validated[k] == q;
      StageOutAt(created, vstep, k);
      assert vstep(k, created[k]) == PipelineValidateOutcome(check, vclock, k, created[k]);
      assert PostIds(created)[k] == created[k].id;
    }
  }

  /** The pipeline scrapes only records it created itself and that validated as accessible in the same run. */
  lemma PipelineScrapesNew(s: Store, links: seq<ExtractedUrl>, digest: string -> string,
                           check: nat -> Try<V.ValidationResult>, vclock: nat -> Instant,
                           scrape: nat -> Try<ScraperBase.ScrapeResult>, thumb: nat -> Option<string>, sclock: nat -> Instant)
    requires Valid(s)
    ensures var run := PipelineOf(s, links, digest, check, vclock, scrape, thumb, sclock);
      forall q :: q in run.accessible ==> q.status == Accessible && q.id !in s.index && q.validatedAt.Some?
  {
    var unique := FirstOfEach(links, IdKey(digest));
    var sc := AddPendingFold(s, unique, digest);
    ScanGrows(s, unique, digest);
    AccessibleValidated(sc.created, check, vclock);
  }

  /** A record indexed before the pipeline keeps its entry and its file: the pipeline only works on the records it creates. */
  lemma PipelineKeepsOld(s: Store, links: seq<ExtractedUrl>, digest: string -> string,
                         check: nat -> Try<V.ValidationResult>, vclock: nat -> Instant,
                         scrape: nat -> Try<ScraperBase.ScrapeResult>, thumb: nat -> Option<string>, sclock: nat -> Instant,
                         id: string)
    requires Valid(s) && id in s.index
    ensures var t := PipelineOf(s, links, digest, check, vclock, scrape, thumb, sclock).store;
      id in t.index && t.index[id] == s.index[id] && Load(t.files, id) == Load(s.files, id)
  {
    var unique := FirstOfEach(links, IdKey(digest));
    var sc := AddPendingFold(s, unique, digest);
    ScanGrows(s, unique, digest);
    if sc.failure.None? {
      StagesUntouched(sc.store, sc.created, check, vclock, scrape, thumb, sclock, id);
    }
  }

  /** The validation and scraping steps leave alone a record that is not among the ones they work on. */
  lemma StagesUntouched(t: Store, created: seq<Post>, check: nat -> Try<V.ValidationResult>, vclock: nat -> Instant,
                        scrape: nat -> Try<ScraperBase.ScrapeResult>, thumb: nat -> Option<string>, sclock: nat -> Instant,
                        id: string)
    requires forall j :: 0 <= j < |created| ==> created[j].status == Pending && created[j].id != id
    ensures var u := AfterStages(t, created, check, vclock, scrape, thumb, sclock).store;
      (id in u.index <==> id in t.index) && (id in t.index ==> u.index[id] == t.index[id]) && Load(u.files, id) == Load(t.files, id)
  {
    var vstep := PipelineValidateStep(check, vclock);
    AccessibleValidated(created, check, vclock);
    ValidateKeepsIds(created, check, vclock);
    StageUntouched(t, created, vstep, id);
    var accessible := AccessibleOf(StageOut(created, vstep));
    var sstep := PipelineScrapeStep(scrape, thumb, sclock);
    forall k | 0 <= k < |accessible| ensures accessible[k].id != id {
      assert accessible[k] in accessible;
      var j :| 0 <= j < |created| && PostIds(created)[j] == accessible[k].id;
    }
    ScrapeKeepsIds(accessible, scrape, thumb, sclock);
    StageUntouched(StageStore(t, created, vstep), accessible, sstep, id);
  }

  lemma ScrapeKeepsIds(posts: seq<Post>, scrape: nat -> Try<ScraperBase.ScrapeResult>, thumb: nat -> Option<string>, sclock: nat -> Instant)
    ensures KeepsIds(posts, PipelineScrapeStep(scrape, thumb, sclock))
  {
    var sstep := PipelineScrapeStep(scrape, thumb, sclock);
    forall k | 0 <= k < |posts| && sstep(k, posts[k]).Save?
      ensures sstep(k, posts[k]).post.id == posts[k].id
    {
      assert sstep(k, posts[k]) == PipelineScrapeOutcome(scrape, thumb, sclock, k, posts[k]);
    }
  }

  // ---------------------------------------------------------------- deletion

  /** Every indexed id has a record file, as `save_post`, `delete_post` and `reindex` leave it. */
  ghost predicate Backed(s: Store)
  {
    forall id :: id in s.index ==> id in s.files
  }

  lemma SavedBacked(s: Store, p: Post)
    requires Backed(s)
    ensures Backed(Saved(s, p))
  {
  }

  lemma DeletedBacked(s: Store, id: string)
    requires Backed(s)
    ensures Backed(DbStore.Deleted(s, id).0)
  {
  }

  /** The bulk delete so far: the store, how many were counted as deleted, the error lines. */
  datatype Bulk = Bulk(store: Store, deleted: nat, errors: seq<string>)

  /**
   * One id of `DELETE /api/posts`: skipped unless indexed; else its files
   * are removed (which may raise, recorded as `"<id>: <message>"`) and the
   * record deleted, and it is counted whether or not a file was there.
   */
  function BulkStep(prev: Bulk, id: string, unlink: Option<string>): Bulk
  {
    if !Exists(prev.store, id) then prev
    else if unlink.Some? then prev.(errors := prev.errors + [ErrorLine(id, unlink.value)])
    else Bulk(DbStore.Deleted(prev.store, id).0, prev.deleted + 1, prev.errors)
  }

  function BulkDeleted(s: Store, ids: seq<string>, unlink: nat -> Option<string>): Bulk
    decreases |ids|
  {
    if ids == [] then Bulk(s, 0, [])
    else BulkStep(BulkDeleted(s, ids[..|ids| - 1], unlink), ids[|ids| - 1], unlink(|ids| - 1))
  }

  /** `DELETE /api/posts`; `unlink(i)` is the exception, if any, that removing the files of the `i`-th id raises. */
  method DeletePosts(db: Database, ids: seq<string>, unlink: nat -> Option<string>) returns (deleted: nat, errors: seq<string>)
    requires db.Valid()
    modifies db
    ensures db.Valid()
    ensures Bulk(db.State(), deleted, errors) == BulkDeleted(old(db.State()), ids, unlink)
  {
    ghost var s0 := db.State();
    deleted, errors := 0, [];
    for i := 0 to |ids|
      invariant db.Valid()
      invariant Bulk(db.State(), deleted, errors) == BulkDeleted(s0, ids[..i], unlink)
    {
      assert ids[..i + 1][..i] == ids[..i];
      var known := db.Exists(ids[i]);
      if known {
        if unlink(i).Some? {
          errors := errors + [ErrorLine(ids[i], unlink(i).value)];
        } else {
          var _ := db.DeletePost(ids[i]);
          deleted := deleted + 1;
        }
      }
    }
    assert ids[..|ids|] == ids;
  }

  /** The count and the errors never outnumber the ids, and the index stays well formed. */
  lemma {:induction false} BulkCounts(s: Store, ids: seq<string>, unlink: nat -> Option<string>)
    requires Valid(s)
    ensures var b := BulkDeleted(s, ids, unlink);
      Valid(b.store) && b.deleted + |b.errors| <= |ids|
    decreases |ids|
  {
    if ids != [] {
      var prev := BulkDeleted(s, ids[..|ids| - 1], unlink);
      BulkCounts(s, ids[..|ids| - 1], unlink);
      DeleteSpec(prev.store, ids[|ids| - 1]);
    }
  }

  /**
   * With every indexed id backed by a file, an id whose file removal never
   * raises is no longer indexed after the bulk delete, and an id that was
   * not asked for keeps its entry and its file.
   */
  lemma {:induction false} BulkRemoves(s: Store, ids: seq<string>, unlink: nat -> Option<string>, id: string)
    requires Valid(s) && Backed(s)
    ensures var t := BulkDeleted(s, ids, unlink).store;
      Valid(t) && Backed(t)
    ensures var t := BulkDeleted(s, ids, unlink).store;
      id in ids && (forall k :: 0 <= k < |ids| && ids[k] == id ==> unlink(k).None?) ==> !Exists(t, id)
    ensures var t := BulkDeleted(s, ids, unlink).store;
      id !in ids ==> (Exists(t, id) <==> Exists(s, id)) && Load(t.files, id) == Load(s.files, id)
    decreases |ids|
  {
    if ids != [] {
      var n := |ids| - 1;
      var prev := BulkDeleted(s, ids[..n], unlink);
      BulkRemoves(s, ids[..n], unlink, id);
      DeleteSpec(prev.store, ids[n]);
      DeletedBacked(prev.store, ids[n]);
      if id in ids && id != ids[n] {
        var k :| 0 <= k < |ids| && ids[k] == id;
        assert ids[..n][k] == id;
        assert forall j :: 0 <= j < n && ids[..n][j] == id ==> ids[j] == id;
      }
      if id !in ids {
        assert id !in ids[..n];
      }
    }
  }

  /**
   * `DELETE /api/posts/{post_id}` as served (the handler registered
   * first): 404 when no record file is there, else the record goes and so
   * do its media files and its thumbnail.
   */
  method DeletePostRoute(db: Database, downloader: MD.MediaDownloader, id: string, listing: seq<string>) returns (found: bool)
    requires db.Valid()
    modifies db, downloader
    ensures db.Valid()
    ensures (db.State(), found) == DbStore.Deleted(old(db.State()), id)
    ensures found ==> downloader.State() == MD.AfterDelete(old(downloader.State()), id, listing).0
    ensures !found ==> downloader.State() == old(downloader.State())
  {
    found := db.DeletePost(id);
    if found {
      var _ := downloader.DeleteMedia(id, listing);
    }
  }

  // ---------------------------------------------------------------- the note and the inaccessible list

  /** `PATCH /api/posts/{post_id}/note`: 404 for a record that does not load, else saved with the new note. */
  function NoteUpdated(s: Store, id: string, note: Option<string>): (Store, bool)
  {
    match Load(s.files, id)
    case None => (s, false)
    case Some(q) => (Saved(s, q.(note := note)), true)
  }

  method UpdateNote(db: Database, id: string, note: Option<string>) returns (found: bool)
    requires db.Valid()
    modifies db
    ensures db.Valid()
    ensures (db.State(), found) == NoteUpdated(old(db.State()), id, note)
  {
    var p := db.GetPost(id);
    if p.None? {
      return false;
    }
    db.SavePost(p.value.(note := note));
    found := true;
  }

  /** After a note update the record reads back with the note, except that an empty note reads back as none, and nothing else of it changes. */
  lemma NoteReadBack(s: Store, id: string, note: Option<string>)
    requires WellNamed(s.files)
    ensures var (t, found) := NoteUpdated(s, id, note);
      found <==> Load(s.files, id).Some?
    ensures var (t, found) := NoteUpdated(s, id, note);
      found ==> (Load(t.files, id).Some?
        && Load(t.files, id).value.note == (if ScraperBase.Truthy(note) then note else None)
        && Load(t.files, id).value.(note := None) == Stored(Load(s.files, id).value.(note := note)).(note := None))
    ensures var (t, found) := NoteUpdated(s, id, note);
      !found ==> t == s
  {
    if Load(s.files, id).Some? {
      var q := Load(s.files, id).value;
      SaveThenGet(s, q.(note := note));
    }
  }

  /** `FilterOptions(statuses=[PRIVATE, DELETED], limit=500)`. */
  function InaccessibleFilter(): (f: FilterOptions)
    ensures f.Valid() && f.limit == 500 && f.statuses == Some([Private, Deleted])
  {
    DefaultFilter().(statuses := Some([Private, Deleted]), limit := 500)
  }

  /** What `get_inaccessible_posts` would list: at most 500 records, each private or deleted. */
  lemma InaccessibleListed(s: Store)
    requires Consistent(s)
    ensures |Listing(s, InaccessibleFilter())| <= 500
    ensures forall q :: q in Listing(s, InaccessibleFilter()) ==> q.status == Private || q.status == Deleted
  {
    ListingBounded(s, InaccessibleFilter());
    ListingMatches(s, InaccessibleFilter());
    forall q | q in Listing(s, InaccessibleFilter())
      ensures q.status == Private || q.status == Deleted
    {
      assert StatusValue(q.status) in StatusValues([Private, Deleted]);
      StatusRoundTrip(q.status);
    }
  }

  // ---------------------------------------------------------------- routing

  datatype Verb = HttpGet | HttpPost | HttpPatch | HttpDelete

  /** A path segment of a route: fixed text, or a `{parameter}` that takes any one segment. */
  datatype Segment = Lit(text: string) | Param

  /** The handlers of the JSON interface, named after their functions. */
  datatype Handler =
    | ListPostsHandler | GetPostHandler | DeletePostHandler | UpdateTagsHandler | UpdateNoteHandler
    | UpdateCategoryHandler | StatsHandler | AnalyticsHandler | FilterOptionsHandler | ThumbnailHandler
    | GetConfigHandler | UpdateConfigHandler | DeletePostFilesHandler | DeletePostsHandler
    | InaccessibleHandler | ScanHandler | TaskStatusHandler | ValidateHandler | ScrapeHandler
    | OpenFolderHandler | DownloadHandler | DownloadBatchHandler | ReindexHandler | DownloadAllHandler
    | ProcessAllHandler

  datatype Route = Route(verb: Verb, pattern: seq<Segment>, handler: Handler)

  function ApiPath(rest: seq<Segment>): seq<Segment>
  {
    [Lit("api")] + rest
  }

  /** The JSON routes in the order `create_app` registers them. */
  function Routes(): seq<Route>
  {
    [ Route(HttpGet, ApiPath([Lit("posts")]), ListPostsHandler),
      Route(HttpGet, ApiPath([Lit("posts"), Param]), GetPostHandler),
      Route(HttpDelete, ApiPath([Lit("posts"), Param]), DeletePostHandler),
      Route(HttpPatch, ApiPath([Lit("posts"), Param, Lit("tags")]), UpdateTagsHandler),
      Route(HttpPatch, ApiPath([Lit("posts"), Param, Lit("note")]), UpdateNoteHandler),
      Route(HttpPatch, ApiPath([Lit("posts"), Param, Lit("category")]), UpdateCategoryHandler),
      Route(HttpGet, ApiPath([Lit("stats")]), StatsHandler),
      Route(HttpGet, ApiPath([Lit("analytics")]), AnalyticsHandler),
      Route(HttpGet, ApiPath([Lit("filters")]), FilterOptionsHandler),
      Route(HttpGet, ApiPath([Lit("thumbnail"), Param]), ThumbnailHandler),
      Route(HttpGet, ApiPath([Lit("config")]), GetConfigHandler),
      Route(HttpPost, ApiPath([Lit("config")]), UpdateConfigHandler),
      Route(HttpDelete, ApiPath([Lit("posts"), Param]), DeletePostFilesHandler),
      Route(HttpDelete, ApiPath([Lit("posts")]), DeletePostsHandler),
      Route(HttpGet, ApiPath([Lit("posts"), Lit("inaccessible")]), InaccessibleHandler),
      Route(HttpPost, ApiPath([Lit("scan")]), ScanHandler),
      Route(HttpGet, ApiPath([Lit("task"), Lit("status")]), TaskStatusHandler),
      Route(HttpPost, ApiPath([Lit("validate")]), ValidateHandler),
      Route(HttpPost, ApiPath([Lit("scrape")]), ScrapeHandler),
      Route(HttpPost, ApiPath([Lit("open"), Param]), OpenFolderHandler),
      Route(HttpPost, ApiPath([Lit("download"), Param]), DownloadHandler),
      Route(HttpPost, ApiPath([Lit("download-batch")]), DownloadBatchHandler),
      Route(HttpPost, ApiPath([Lit("reindex")]), ReindexHandler),
      Route(HttpPost, ApiPath([Lit("download-all")]), DownloadAllHandler),
      Route(HttpPost, ApiPath([Lit("process-all")]), ProcessAllHandler) ]
  }

  /** A path, split at `/`, fits a pattern: same length, fixed segments equal, parameters non-empty. */
  predicate Fits(pattern: seq<Segment>, path: seq<string>)
  {
    |pattern| == |path| && forall k :: 0 <= k < |path| ==> if pattern[k].Lit? then pattern[k].text == path[k] else path[k] != ""
  }

  /** The handler of the first route, in registration order, whose verb and pattern fit the request. */
  function Dispatch(routes: seq<Route>, verb: Verb, path: seq<string>): (r: Option<Handler>)
    ensures r.Some? ==> exists j :: 0 <= j < |routes| && routes[j].handler == r.value && routes[j].verb == verb && Fits(routes[j].pattern, path)
    decreases |routes|
  {
    if routes == [] then None
    else if routes[0].verb == verb && Fits(routes[0].pattern, path) then Some(routes[0].handler)
    else
      var r := Dispatch(routes[1..], verb, path);
      assert r.Some? ==> exists j :: 1 <= j < |routes| && routes[j].handler == r.value && routes[j].verb == verb && Fits(routes[j].pattern, path) by {
        if r.Some? {
          var j :| 0 <= j < |routes| - 1 && routes[1..][j].handler == r.value && routes[1..][j].verb == verb && Fits(routes[1..][j].pattern, path);
          assert routes[j + 1] == routes[1..][j];
        }
      }
      r
  }

  /** A route preceded by one with the same verb and pattern is never reached. */
  lemma {:induction false} Shadowed(routes: seq<Route>, i: nat, j: nat, verb: Verb, path: seq<string>)
    requires i < j < |routes| && routes[i].verb == routes[j].verb && routes[i].pattern == routes[j].pattern
    requires forall k :: 0 <= k < |routes| && routes[k].handler == routes[j].handler ==> k == j
    ensures Dispatch(routes, verb, path) != Some(routes[j].handler)
    decreases |routes|
  {
    if !(routes[0].verb == verb && Fits(routes[0].pattern, path)) && i > 0 {
      forall k | 0 <= k < |routes| - 1 && routes[1..][k].handler == routes[1..][j - 1].handler
        ensures k == j - 1
      {
        assert routes[k + 1] == routes[1..][k];
      }
      Shadowed(routes[1..], i - 1, j - 1, verb, path);
    }
  }

  /** The second `DELETE /api/posts/{post_id}` handler, the one that also removes the files by name, is never reached. */
  lemma DeleteFilesUnreachable(verb: Verb, path: seq<string>)
    ensures Dispatch(Routes(), verb, path) != Some(DeletePostFilesHandler)
  {
    var rs := Routes();
    assert rs[12].handler == DeletePostFilesHandler;
    Shadowed(rs, 2, 12, verb, path);
  }

  /** As registered, `GET /api/posts/inaccessible` reaches `get_post` with `post_id` "inaccessible". */
  lemma InaccessibleShadowed()
    ensures Dispatch(Routes(), HttpGet, ["api", "posts", "inaccessible"]) == Some(GetPostHandler)
  {
    var path := ["api", "posts", "inaccessible"];
    assert !Fits(Routes()[0].pattern, path);
    assert Fits(Routes()[1].pattern, path);
  }

  /**
   * The table as intended: the fixed `/api/posts/inaccessible` route
   * registered before `/api/posts/{post_id}`, and the second delete
   * handler dropped.
   */
  function FixedRoutes(): seq<Route>
  {
    var rs := Routes();
    [rs[0], rs[14]] + rs[1..12] + rs[13..14] + rs[15..]
  }

  /** With the fixed table the inaccessible list is reached, and every other post id still reaches `get_post`. */
  lemma FixedRoutesReach(id: string)
    requires id != "" && id != "inaccessible"
    ensures Dispatch(FixedRoutes(), HttpGet, ["api", "posts", "inaccessible"]) == Some(InaccessibleHandler)
    ensures Dispatch(FixedRoutes(), HttpGet, ["api", "posts", id]) == Some(GetPostHandler)
  {
    var rs := FixedRoutes();
    var path := ["api", "posts", "inaccessible"];
    assert !Fits(rs[0].pattern, path);
    assert Fits(rs[1].pattern, path);
    var other := ["api", "posts", id];
    assert !Fits(rs[0].pattern, other);
    assert !Fits(rs[1].pattern, other) by {
      assert rs[1].pattern[2] == Lit("inaccessible");
    }
    assert rs[2] == Routes()[1];
    assert Fits(rs[2].pattern, other);
  }
}
