/**
 * The background stage tasks of the viewer server (validate, scrape,
 * batch download, download all) and the request handlers that pick their
 * candidates. Every task has one shape: for each candidate it sets the
 * progress to `i + 1` and a message, then the item either saves an updated
 * record, leaves it alone, or raises, in which case `"<id>: <message>"` is
 * appended to the errors and the loop goes on. That shape is `RunItems`,
 * proved against the folds `StageStore`, `StageErrors`, `StageRecent` and
 * `StageOut`; each task is the shape with its own per-item `Outcome`.
 *
 * What the validator, the scrapers, the downloader and the clock return for
 * item `i` is a parameter: `check(i)`, `scrape(i)`, `fetch(i)`, `thumb(i)`
 * and `clock(i)`.
 */
module Stages {
  import opened Wrappers
  import opened Models
  import opened Grouping
  import opened DbStore
  import opened DbQuery
  import opened Tasks
  import opened Db
  import V = UrlValidator
  import ScraperBase
  import MD = MediaDownloader
  import DbStats

  /** The result of an awaited call: its value, or the message of the exception it raised. */
  datatype Try<T> = Ok(value: T) | Raised(message: string)

  /** What one item of a stage does: save an updated record (maybe noting it for the live view), nothing, or fail. */
  datatype Outcome = Save(post: Post, recent: Option<Recent>) | Keep | Error(line: string)

  type Step = (nat, Post) -> Outcome

  /** The error line of an item whose call raised. */
  function ErrorLine(id: string, message: string): (r: string)
    ensures |r| == |id| + 2 + |message| && r[..|id|] == id
  {
    id + ": " + message
  }

  // ---------------------------------------------------------------- the folds a stage task follows

  function StageStore(s: Store, posts: seq<Post>, step: Step): Store
    decreases |posts|
  {
    if posts == [] then s
    else
      var n := |posts| - 1;
      var t := StageStore(s, posts[..n], step);
      match step(n, posts[n])
      case Save(q, _) => Saved(t, q)
      case Keep => t
      case Error(_) => t
  }

  function StageErrors(posts: seq<Post>, step: Step): seq<string>
    decreases |posts|
  {
    if posts == [] then []
    else
      var n := |posts| - 1;
      StageErrors(posts[..n], step) + (if step(n, posts[n]).Error? then [step(n, posts[n]).line] else [])
  }

  function StageRecent(posts: seq<Post>, step: Step): seq<Recent>
    decreases |posts|
  {
    if posts == [] then []
    else
      var n := |posts| - 1;
      var o := step(n, posts[n]);
      StageRecent(posts[..n], step) + (if o.Save? && o.recent.Some? then [o.recent.value] else [])
  }

  /** The candidates as the task leaves them: the saved version of each item, or the item as it was. */
  function StageOut(posts: seq<Post>, step: Step): (r: seq<Post>)
    ensures |r| == |posts|
    decreases |posts|
  {
    if posts == [] then []
    else
      var n := |posts| - 1;
      var o := step(n, posts[n]);
      StageOut(posts[..n], step) + [if o.Save? then o.post else posts[n]]
  }

  /** The message after the items so far: the last item's, or the one before the loop. */
  function Said(posts: seq<Post>, say: (nat, Post) -> string, m0: string): string
  {
    if posts == [] then m0 else say(|posts| - 1, posts[|posts| - 1])
  }

  function PostIds(posts: seq<Post>): (r: seq<string>)
    ensures |r| == |posts| && forall k :: 0 <= k < |posts| ==> r[k] == posts[k].id
  {
    seq(|posts|, k requires 0 <= k < |posts| => posts[k].id)
  }

  /** Every saved version is saved under the id of the item it came from. */
  ghost predicate KeepsIds(posts: seq<Post>, step: Step)
  {
    forall k :: 0 <= k < |posts| && step(k, posts[k]).Save? ==> step(k, posts[k]).post.id == posts[k].id
  }

  /** The number of items that fail. */
  function Failures(posts: seq<Post>, step: Step): nat
    decreases |posts|
  {
    if posts == [] then 0
    else
      var n := |posts| - 1;
      Failures(posts[..n], step) + (if step(n, posts[n]).Error? then 1 else 0)
  }

  /** The number of items that are saved. */
  function Saves(posts: seq<Post>, step: Step): nat
    decreases |posts|
  {
    if posts == [] then 0
    else
      var n := |posts| - 1;
      Saves(posts[..n], step) + (if step(n, posts[n]).Save? then 1 else 0)
  }

  // ---------------------------------------------------------------- what every stage keeps

  /** The index stays well formed. */
  lemma {:induction false} StageValid(s: Store, posts: seq<Post>, step: Step)
    requires Valid(s)
    ensures Valid(StageStore(s, posts, step))
    decreases |posts|
  {
    if posts != [] {
      var n := |posts| - 1;
      StageValid(s, posts[..n], step);
      if step(n, posts[n]).Save? {
        SaveIndex(StageStore(s, posts[..n], step), step(n, posts[n]).post);
      }
    }
  }

  /** One error line per failed item, one live-view row at most per saved item: together no more than the items. */
  lemma {:induction false} StageCounts(posts: seq<Post>, step: Step)
    ensures |StageErrors(posts, step)| == Failures(posts, step)
    ensures |StageRecent(posts, step)| <= Saves(posts, step)
    ensures Failures(posts, step) + Saves(posts, step) <= |posts|
    decreases |posts|
  {
    if posts != [] {
      StageCounts(posts[..|posts| - 1], step);
    }
  }

  /** A record that no item saves keeps its index entry and its file: a failed item changes nothing and the loop goes on. */
  lemma {:induction false} StageUntouched(s: Store, posts: seq<Post>, step: Step, id: string)
    requires KeepsIds(posts, step)
    requires forall k :: 0 <= k < |posts| && step(k, posts[k]).Save? ==> posts[k].id != id
    ensures var t := StageStore(s, posts, step);
      (id in t.index <==> id in s.index) && (id in s.index ==> t.index[id] == s.index[id])
      && Load(t.files, id) == Load(s.files, id)
    decreases |posts|
  {
    if posts != [] {
      var n := |posts| - 1;
      assert KeepsIds(posts[..n], step) by {
        forall k | 0 <= k < n ensures posts[..n][k] == posts[k] { }
      }
      StageUntouched(s, posts[..n], step, id);
      if step(n, posts[n]).Save? {
        SaveThenGet(StageStore(s, posts[..n], step), step(n, posts[n]).post);
      }
    }
  }

  /** A later save of another id leaves the entry and the file of `id` as they were. */
  lemma SaveOther(t: Store, q: Post, id: string)
    requires Valid(t) && q.id != id
    ensures id in Saved(t, q).index <==> id in t.index
    ensures id in t.index ==> Saved(t, q).index[id] == t.index[id]
    ensures Load(Saved(t, q).files, id) == Load(t.files, id)
  {
    SaveIndex(t, q);
    SaveThenGet(t, q);
  }

  /**
   * With the candidates' ids distinct, the record of a saved item ends up
   * indexed by the projection of its saved version, and loads as that
   * version as it is written (when its metrics are within bounds).
   */
  lemma {:induction false} StageSaved(s: Store, posts: seq<Post>, step: Step, k: nat)
    requires Valid(s) && KeepsIds(posts, step) && Distinct(PostIds(posts))
    requires k < |posts| && step(k, posts[k]).Save?
    ensures var t, q := StageStore(s, posts, step), step(k, posts[k]).post;
      q.id in t.index && t.index[q.id] == Projection(q)
      && Load(t.files, q.id) == (if MetricsValid(q) then Some(Stored(q)) else None)
    decreases |posts|
  {
    var n := |posts| - 1;
    var prev := StageStore(s, posts[..n], step);
    StageValid(s, posts[..n], step);
    if k == n {
      SaveIndex(prev, step(n, posts[n]).post);
      SaveThenGet(prev, step(n, posts[n]).post);
    } else {
      assert KeepsIds(posts[..n], step) && Distinct(PostIds(posts[..n])) by {
        assert PostIds(posts[..n]) == PostIds(posts)[..n];
        forall j | 0 <= j < n ensures posts[..n][j] == posts[j] { }
      }
      assert posts[..n][k] == posts[k];
      StageSaved(s, posts[..n], step, k);
      if step(n, posts[n]).Save? {
        assert PostIds(posts)[k] != PostIds(posts)[n];
        SaveOther(prev, step(n, posts[n]).post, posts[k].id);
      }
    }
  }

  // ---------------------------------------------------------------- the loop every stage task runs

  /** The folds over one more item. */
  lemma StageNext(s: Store, posts: seq<Post>, step: Step, i: nat)
    requires i < |posts|
    ensures var o := step(i, posts[i]);
      StageStore(s, posts[..i + 1], step) == (if o.Save? then Saved(StageStore(s, posts[..i], step), o.post) else StageStore(s, posts[..i], step))
      && StageErrors(posts[..i + 1], step) == StageErrors(posts[..i], step) + (if o.Error? then [o.line] else [])
      && StageRecent(posts[..i + 1], step) == StageRecent(posts[..i], step) + (if o.Save? && o.recent.Some? then [o.recent.value] else [])
  {
    assert posts[..i + 1][..i] == posts[..i];
    assert posts[..i + 1][i] == posts[i];
  }

  /** A stage whose items never note a record leaves the live view alone. */
  lemma {:induction false} StageNoRecent(posts: seq<Post>, step: Step)
    requires forall k :: 0 <= k < |posts| ==> !step(k, posts[k]).Save? || step(k, posts[k]).recent.None?
    ensures StageRecent(posts, step) == []
    decreases |posts|
  {
    if posts != [] {
      var n := |posts| - 1;
      assert forall k :: 0 <= k < n ==> posts[..n][k] == posts[k];
      StageNoRecent(posts[..n], step);
    }
  }

  /** Item `i`: progress `i + 1` and its message, then its outcome: the save, the error line or the live-view row it makes. */
  method Apply(db: Database, ts: TaskState, i: nat, msg: string, o: Outcome)
    requires db.Valid()
    modifies db, ts
    ensures db.Valid() && db.State() == if o.Save? then Saved(old(db.State()), o.post) else old(db.State())
    ensures ts.errors == old(ts.errors) + (if o.Error? then [o.line] else [])
    ensures ts.recentPosts == old(ts.recentPosts) + (if o.Save? && o.recent.Some? then [o.recent.value] else [])
    ensures ts.progress == i + 1 && ts.message == msg
    ensures ts.isRunning == old(ts.isRunning) && ts.currentTask == old(ts.currentTask) && ts.total == old(ts.total)
  {
    ts.Advance(i, msg);
    match o
    case Save(q, recent) =>
      if recent.Some? {
        ts.Note(recent.value);
      }
      db.SavePost(q);
    case Keep =>
    case Error(line) =>
      ts.Fail(line);
  }

  /**
   * `for i, post in enumerate(posts)`: progress `i + 1` and the item's
   * message, then the item's outcome. The store, the errors, the live-view
   * rows and the updated candidates are the folds over all items.
   */
  method RunItems(db: Database, ts: TaskState, posts: seq<Post>, step: Step, say: (nat, Post) -> string)
      returns (out: seq<Post>)
    requires db.Valid()
    modifies db, ts
    ensures db.Valid() && db.State() == StageStore(old(db.State()), posts, step)
    ensures out == StageOut(posts, step)
    ensures ts.errors == old(ts.errors) + StageErrors(posts, step)
    ensures ts.recentPosts == old(ts.recentPosts) + StageRecent(posts, step)
    ensures ts.progress == if posts == [] then old(ts.progress) else |posts|
    ensures ts.message == Said(posts, say, old(ts.message))
    ensures ts.isRunning == old(ts.isRunning) && ts.currentTask == old(ts.currentTask) && ts.total == old(ts.total)
  {
    ghost var s0 := db.State();
    ghost var errors0, recent0, m0, p0 := ts.errors, ts.recentPosts, ts.message, ts.progress;
    ghost var running0, task0, total0 := ts.isRunning, ts.currentTask, ts.total;
    for i := 0 to |posts|
      invariant db.Valid() && db.State() == StageStore(s0, posts[..i], step)
      invariant ts.errors == errors0 + StageErrors(posts[..i], step)
      invariant ts.recentPosts == recent0 + StageRecent(posts[..i], step)
      invariant ts.progress == if i == 0 then p0 else i
      invariant ts.message == Said(posts[..i], say, m0)
      invariant ts.isRunning == running0 && ts.currentTask == task0 && ts.total == total0
    {
      StageNext(s0, posts, step, i);
      var o := step(i, posts[i]);
      ghost var e, r := StageErrors(posts[..i], step), StageRecent(posts[..i], step);
      Apply(db, ts, i, say(i, posts[i]), o);
      assert ts.errors == errors0 + (e + if o.Error? then [o.line] else []);
      assert ts.recentPosts == recent0 + (r + if o.Save? && o.recent.Some? then [o.recent.value] else []);
    }
    assert posts[..|posts|] == posts;
    out := StageOut(posts, step);
  }

  // ---------------------------------------------------------------- validation (server.py validate_task)

  /** `status_map.get(result.status, PostStatus.FAILED)`: what a validation result makes of a record's status. */
  function RecordStatus(s: V.UrlStatus): (r: PostStatus)
    ensures r != Pending
    ensures r == Accessible <==> s == V.UrlStatus.Accessible
    ensures r == Private <==> s == V.UrlStatus.Private || s == V.UrlStatus.LoginRequired
    ensures r == Deleted <==> s == V.UrlStatus.Deleted
    ensures r == Failed <==> s.RateLimited? || s.TimedOut? || s.Unknown?
  {
    match s
    case Accessible => Accessible
    case Private => Private
    case LoginRequired => Private
    case Deleted => Deleted
    case _ => Failed
  }

  function ValidateOutcome(check: nat -> Try<V.ValidationResult>, clock: nat -> Instant, i: nat, p: Post): Outcome
  {
    match check(i)
    case Ok(r) => Save(p.(status := RecordStatus(r.status), validatedAt := Some(clock(i)), errorMessage := r.errorMessage), None)
    case Raised(m) => Error(ErrorLine(p.id, m))
  }

  function ValidateStep(check: nat -> Try<V.ValidationResult>, clock: nat -> Instant): Step
  {
    (i: nat, p: Post) => ValidateOutcome(check, clock, i, p)
  }

  function ValidateSay(): (nat, Post) -> string
  {
    (i: nat, p: Post) => "Validating " + DbStats.Prefix(p.url, 50) + "..."
  }

  /**
   * After the validation task a record whose check returned is stored with
   * the mapped status (never `pending` again), the time of its check and
   * the check's error message; a record whose check raised is untouched.
   */
  lemma ValidatedRecord(s: Store, posts: seq<Post>, check: nat -> Try<V.ValidationResult>, clock: nat -> Instant, k: nat)
    requires Valid(s) && Distinct(PostIds(posts)) && k < |posts|
    ensures var t, id := StageStore(s, posts, ValidateStep(check, clock)), posts[k].id;
      check(k).Ok? ==>
        id in t.index && t.index[id].status == StatusValue(RecordStatus(check(k).value.status))
        && t.index[id].status != "pending"
        && (MetricsValid(posts[k]) ==>
              Load(t.files, id).Some? && Load(t.files, id).value.validatedAt == Some(clock(k))
              && Load(t.files, id).value.errorMessage == check(k).value.errorMessage)
    ensures var t, id := StageStore(s, posts, ValidateStep(check, clock)), posts[k].id;
      check(k).Raised? ==>
        (id in t.index <==> id in s.index) && Load(t.files, id) == Load(s.files, id)
  {
    var step := ValidateStep(check, clock);
    assert KeepsIds(posts, step);
    if check(k).Ok? {
      StageSaved(s, posts, step, k);
      StatusRoundTrip(Pending);
      StatusRoundTrip(RecordStatus(check(k).value.status));
    } else {
      forall j | 0 <= j < |posts| && step(j, posts[j]).Save?
        ensures posts[j].id != posts[k].id
      {
        assert PostIds(posts)[j] != PostIds(posts)[k];
      }
      StageUntouched(s, posts, step, posts[k].id);
    }
  }

  /** The validation task: `is_running`, named, counted, errors cleared; every item; then the `finally`. */
  method ValidateTask(db: Database, ts: TaskState, posts: seq<Post>, check: nat -> Try<V.ValidationResult>, clock: nat -> Instant)
    requires db.Valid()
    modifies db, ts
    ensures db.Valid() && db.State() == StageStore(old(db.State()), posts, ValidateStep(check, clock))
    ensures !ts.isRunning && ts.currentTask == "Validating URLs" && ts.message == "Validation complete"
    ensures ts.progress == |posts| && ts.total == |posts|
    ensures ts.errors == StageErrors(posts, ValidateStep(check, clock)) && ts.recentPosts == old(ts.recentPosts)
  {
    StageNoRecent(posts, ValidateStep(check, clock));
    ts.Begin("Validating URLs", |posts|);
    var _ := RunItems(db, ts, posts, ValidateStep(check, clock), ValidateSay());
    ts.End("Validation complete");
  }

  // ---------------------------------------------------------------- scraping (server.py scrape_task)

  /** The record with what a successful scrape found, scraped at `at`. */
  function WithScrape(p: Post, r: ScraperBase.ScrapeResult, at: Instant): (q: Post)
    ensures q.id == p.id && q.url == p.url && q.status == p.status && q.tags == p.tags && q.mediaPaths == p.mediaPaths
    ensures q.scrapedAt == Some(at) && q.author == r.author && q.content == r.content && q.mediaUrls == r.mediaUrls
  {
    p.(author := r.author, authorUrl := r.authorUrl, title := r.title, content := r.content, postedAt := r.postedAt,
       views := r.views, likes := r.likes, comments := r.comments, shares := r.shares, thumbnailUrl := r.thumbnailUrl,
       mediaUrls := r.mediaUrls, mediaType := r.mediaType, scrapedAt := Some(at))
  }

  /** The thumbnail is fetched when the scrape found a thumbnail URL, and its path is kept when one came back. */
  function WithThumb(q: Post, found: Option<string>, fetched: Option<string>): (r: Post)
    ensures r == q.(thumbnailPath := r.thumbnailPath)
    ensures r.thumbnailPath == if ScraperBase.Truthy(found) && ScraperBase.Truthy(fetched) then fetched else q.thumbnailPath
  {
    if ScraperBase.Truthy(found) && ScraperBase.Truthy(fetched) then q.(thumbnailPath := fetched) else q
  }

  /** The live-view row of a freshly scraped record: its content cut to 100 characters. */
  function RecentOf(p: Post): (r: Recent)
    ensures r.id == p.id && r.url == p.url && r.author == p.author && r.thumbnailPath == p.thumbnailPath
    ensures r.content.Some? <==> ScraperBase.Truthy(p.content)
    ensures r.content.Some? ==> |r.content.value| <= 100 && r.content.value <= p.content.value
  {
    Recent(p.id, p.url, p.platform, p.author,
           if ScraperBase.Truthy(p.content) then Some(DbStats.Prefix(p.content.value, 100)) else None,
           p.views, p.likes, p.thumbnailPath)
  }

  function ScrapeOutcome(scrape: nat -> Try<ScraperBase.ScrapeResult>, thumb: nat -> Option<string>, clock: nat -> Instant,
                         i: nat, p: Post): Outcome
  {
    match scrape(i)
    case Ok(r) =>
      if r.success then
        var q := WithThumb(WithScrape(p, r, clock(i)), r.thumbnailUrl, thumb(i));
        Save(q, Some(RecentOf(q)))
      else Save(p.(errorMessage := r.errorMessage), None)
    case Raised(m) => Error(ErrorLine(p.id, m))
  }

  function ScrapeStep(scrape: nat -> Try<ScraperBase.ScrapeResult>, thumb: nat -> Option<string>, clock: nat -> Instant): Step
  {
    (i: nat, p: Post) => ScrapeOutcome(scrape, thumb, clock, i, p)
  }

  function ScrapeSay(): (nat, Post) -> string
  {
    (i: nat, p: Post) => "Scraping " + DbStats.Prefix(p.url, 50) + "..."
  }

  /**
   * After the scraping task a record whose scrape succeeded is stored as
   * scraped (so the default selection does not pick it again) with the
   * scrape's author; one whose scrape failed keeps its status and gains the
   * error message; the live view gets one row per successful scrape.
   */
  lemma ScrapedRecord(s: Store, posts: seq<Post>, scrape: nat -> Try<ScraperBase.ScrapeResult>, thumb: nat -> Option<string>,
                      clock: nat -> Instant, k: nat)
    requires Valid(s) && Distinct(PostIds(posts)) && k < |posts|
    ensures var t, id := StageStore(s, posts, ScrapeStep(scrape, thumb, clock)), posts[k].id;
      scrape(k).Ok? ==> id in t.index && t.index[id].status == StatusValue(posts[k].status)
    ensures var t, id := StageStore(s, posts, ScrapeStep(scrape, thumb, clock)), posts[k].id;
      scrape(k).Ok? && scrape(k).value.success ==>
        t.index[id].scrapedAt == Some(clock(k)) && t.index[id].author == scrape(k).value.author
    ensures var t, id := StageStore(s, posts, ScrapeStep(scrape, thumb, clock)), posts[k].id;
      scrape(k).Ok? && !scrape(k).value.success && MetricsValid(posts[k]) ==>
        Load(t.files, id).Some? && Load(t.files, id).value.errorMessage == scrape(k).value.errorMessage
    ensures var t, id := StageStore(s, posts, ScrapeStep(scrape, thumb, clock)), posts[k].id;
      scrape(k).Raised? ==> (id in t.index <==> id in s.index) && Load(t.files, id) == Load(s.files, id)
  {
    var step := ScrapeStep(scrape, thumb, clock);
    assert KeepsIds(posts, step);
    if scrape(k).Ok? {
      StageSaved(s, posts, step, k);
    } else {
      forall j | 0 <= j < |posts| && step(j, posts[j]).Save?
        ensures posts[j].id != posts[k].id
      {
        assert PostIds(posts)[j] != PostIds(posts)[k];
      }
      StageUntouched(s, posts, step, posts[k].id);
    }
  }

  /** Each live-view row is the record of a successful scrape; errors and rows never outnumber the items. */
  lemma ScrapeRows(posts: seq<Post>, scrape: nat -> Try<ScraperBase.ScrapeResult>, thumb: nat -> Option<string>, clock: nat -> Instant)
    ensures |StageErrors(posts, ScrapeStep(scrape, thumb, clock))| + |StageRecent(posts, ScrapeStep(scrape, thumb, clock))| <= |posts|
  {
    StageCounts(posts, ScrapeStep(scrape, thumb, clock));
  }

  method ScrapeTask(db: Database, ts: TaskState, posts: seq<Post>, scrape: nat -> Try<ScraperBase.ScrapeResult>,
                    thumb: nat -> Option<string>, clock: nat -> Instant)
    requires db.Valid()
    modifies db, ts
    ensures db.Valid() && db.State() == StageStore(old(db.State()), posts, ScrapeStep(scrape, thumb, clock))
    ensures !ts.isRunning && ts.currentTask == "Scraping metadata" && ts.message == "Scraping complete"
    ensures ts.progress == |posts| && ts.total == |posts|
    ensures ts.errors == StageErrors(posts, ScrapeStep(scrape, thumb, clock))
    ensures ts.recentPosts == old(ts.recentPosts) + StageRecent(posts, ScrapeStep(scrape, thumb, clock))
  {
    ts.Begin("Scraping metadata", |posts|);
    var _ := RunItems(db, ts, posts, ScrapeStep(scrape, thumb, clock), ScrapeSay());
    ts.End("Scraping complete");
  }

  // ---------------------------------------------------------------- downloads (server.py download tasks)

  /** A successful download records its media paths, and its thumbnail path when it has one; a failed one is not saved. */
  function DownloadOutcome(fetch: nat -> Try<MD.DownloadResult>, i: nat, p: Post): Outcome
  {
    match fetch(i)
    case Ok(r) =>
      if r.success then
        Save(p.(mediaPaths := r.mediaPaths,
                thumbnailPath := if ScraperBase.Truthy(r.thumbnailPath) then r.thumbnailPath else p.thumbnailPath), None)
      else Keep
    case Raised(m) => Error(ErrorLine(p.id, m))
  }

  function DownloadStep(fetch: nat -> Try<MD.DownloadResult>): Step
  {
    (i: nat, p: Post) => DownloadOutcome(fetch, i, p)
  }

  function DownloadSay(): (nat, Post) -> string
  {
    (i: nat, p: Post) => "Downloading " + p.id + "..."
  }

  /**
   * After a download task a record whose download succeeded is indexed as
   * having media exactly when paths came back; every other record is
   * untouched.
   */
  lemma DownloadedRecord(s: Store, posts: seq<Post>, fetch: nat -> Try<MD.DownloadResult>, k: nat)
    requires Valid(s) && Distinct(PostIds(posts)) && k < |posts|
    ensures var t, id := StageStore(s, posts, DownloadStep(fetch)), posts[k].id;
      fetch(k).Ok? && fetch(k).value.success ==>
        id in t.index && (t.index[id].hasMedia <==> fetch(k).value.mediaPaths != [])
    ensures var t, id := StageStore(s, posts, DownloadStep(fetch)), posts[k].id;
      !(fetch(k).Ok? && fetch(k).value.success) ==>
        (id in t.index <==> id in s.index) && (id in s.index ==> t.index[id] == s.index[id])
        && Load(t.files, id) == Load(s.files, id)
  {
    var step := DownloadStep(fetch);
    assert KeepsIds(posts, step);
    if step(k, posts[k]).Save? {
      StageSaved(s, posts, step, k);
    } else {
      forall j | 0 <= j < |posts| && step(j, posts[j]).Save?
        ensures posts[j].id != posts[k].id
      {
        assert PostIds(posts)[j] != PostIds(posts)[k];
      }
      StageUntouched(s, posts, step, posts[k].id);
    }
  }

  /**
   * With `download` as written every call raises the `AttributeError` of
   * the missing `_sanitize_filename`: a download task then saves nothing
   * and records one error line per candidate, in order.
   */
  lemma {:induction false} DownloadTaskAsWritten(s: Store, posts: seq<Post>, fetch: nat -> Try<MD.DownloadResult>)
    requires forall i :: 0 <= i < |posts| ==> fetch(i) == Raised(MD.MissingSanitizer)
    ensures StageStore(s, posts, DownloadStep(fetch)) == s
    ensures StageErrors(posts, DownloadStep(fetch))
         == seq(|posts|, k requires 0 <= k < |posts| => ErrorLine(posts[k].id, MD.MissingSanitizer))
    decreases |posts|
  {
    if posts != [] {
      var n := |posts| - 1;
      DownloadTaskAsWritten(s, posts[..n], fetch);
      var before := StageErrors(posts[..n], DownloadStep(fetch));
      assert StageErrors(posts, DownloadStep(fetch)) == before + [ErrorLine(posts[n].id, MD.MissingSanitizer)];
    }
  }

  /** `download_batch_task` ("Batch Downloading") and `download_all_task` ("Downloading media") differ only in their names. */
  method DownloadTask(db: Database, ts: TaskState, posts: seq<Post>, fetch: nat -> Try<MD.DownloadResult>, task: string, done: string)
    requires db.Valid()
    modifies db, ts
    ensures db.Valid() && db.State() == StageStore(old(db.State()), posts, DownloadStep(fetch))
    ensures !ts.isRunning && ts.currentTask == task && ts.message == done
    ensures ts.progress == |posts| && ts.total == |posts|
    ensures ts.errors == StageErrors(posts, DownloadStep(fetch)) && ts.recentPosts == old(ts.recentPosts)
  {
    StageNoRecent(posts, DownloadStep(fetch));
    ts.Begin(task, |posts|);
    var _ := RunItems(db, ts, posts, DownloadStep(fetch), DownloadSay());
    ts.End(done);
  }

  // ---------------------------------------------------------------- candidate selection

  /** `FilterOptions(statuses=[st], limit=500)`. */
  function StatusFilter(st: PostStatus): (f: FilterOptions)
    ensures f.Valid() && f.limit == 500 && f.statuses == Some([st])
  {
    DefaultFilter().(statuses := Some([st]), limit := 500)
  }

  /** `[p for p in posts if not p.scraped_at]`. */
  function Unscraped(posts: seq<Post>): (r: seq<Post>)
    ensures |r| <= |posts|
    ensures forall q :: q in r <==> q in posts && q.scrapedAt.None?
    decreases |posts|
  {
    if posts == [] then []
    else Unscraped(posts[..|posts| - 1]) + (if posts[|posts| - 1].scrapedAt.None? then [posts[|posts| - 1]] else [])
  }

  /** `[p for p in posts if not p.media_paths]`. */
  function WithoutMedia(posts: seq<Post>): (r: seq<Post>)
    ensures |r| <= |posts|
    ensures forall q :: q in r <==> q in posts && q.mediaPaths == []
    decreases |posts|
  {
    if posts == [] then []
    else WithoutMedia(posts[..|posts| - 1]) + (if posts[|posts| - 1].mediaPaths == [] then [posts[|posts| - 1]] else [])
  }

  /** Validate: the requested records that load, or else up to 500 pending ones. */
  function ValidateCandidates(s: Store, ids: Option<seq<string>>): seq<Post>
  {
    if Given(ids) then LoadAll(s.files, ids.value) else Listing(s, StatusFilter(Pending))
  }

  /** Scrape: the requested records that load, or else the unscraped ones among up to 500 accessible ones. */
  function ScrapeCandidates(s: Store, ids: Option<seq<string>>): seq<Post>
  {
    if Given(ids) then LoadAll(s.files, ids.value) else Unscraped(Listing(s, StatusFilter(Accessible)))
  }

  /** Download all: the ones without media among up to 500 accessible records. */
  function DownloadAllCandidates(s: Store): seq<Post>
  {
    WithoutMedia(Listing(s, StatusFilter(Accessible)))
  }

  /** Download batch: the requested records that load and have no media, in request order. */
  function BatchCandidates(s: Store, ids: seq<string>): (r: seq<Post>)
    decreases |ids|
  {
    if ids == [] then []
    else
      var init := BatchCandidates(s, ids[..|ids| - 1]);
      match Load(s.files, ids[|ids| - 1])
      case None => init
      case Some(q) => if q.mediaPaths == [] then init + [q] else init
  }

  /** A record listed with one status filter has that status, when the index agrees with the files. */
  lemma ListedStatus(s: Store, st: PostStatus)
    requires Consistent(s)
    ensures |Listing(s, StatusFilter(st))| <= 500
    ensures forall q :: q in Listing(s, StatusFilter(st)) ==> q.status == st
  {
    ListingBounded(s, StatusFilter(st));
    ListingMatches(s, StatusFilter(st));
    forall q | q in Listing(s, StatusFilter(st))
      ensures q.status == st
    {
      assert StatusValue(q.status) in StatusValues([st]);
      StatusRoundTrip(q.status);
      StatusRoundTrip(st);
    }
  }

  /** Requested candidates are records stored under the requested names. */
  lemma RequestedCandidates(s: Store, ids: Option<seq<string>>)
    requires Given(ids)
    ensures forall q :: q in ValidateCandidates(s, ids) ==> exists j :: 0 <= j < |ids.value| && Load(s.files, ids.value[j]) == Some(q)
    ensures ScrapeCandidates(s, ids) == ValidateCandidates(s, ids)
  {
    LoadAllFrom(s.files, ids.value);
  }

  /** Without a request, validation picks at most 500 records, all pending. */
  lemma DefaultValidateCandidates(s: Store, ids: Option<seq<string>>)
    requires Consistent(s) && !Given(ids)
    ensures |ValidateCandidates(s, ids)| <= 500
    ensures forall q :: q in ValidateCandidates(s, ids) ==> q.status == Pending
  {
    ListedStatus(s, Pending);
  }

  /** Without a request, scraping picks at most 500 records, all accessible and not yet scraped. */
  lemma DefaultScrapeCandidates(s: Store, ids: Option<seq<string>>)
    requires Consistent(s) && !Given(ids)
    ensures |ScrapeCandidates(s, ids)| <= 500
    ensures forall q :: q in ScrapeCandidates(s, ids) ==> q.status == Accessible && q.scrapedAt.None?
  {
    ListedStatus(s, Accessible);
  }

  /** Downloading everything picks at most 500 records, all accessible and without media. */
  lemma AllCandidates(s: Store)
    requires Consistent(s)
    ensures |DownloadAllCandidates(s)| <= 500
    ensures forall q :: q in DownloadAllCandidates(s) ==> q.status == Accessible && q.mediaPaths == []
  {
    ListedStatus(s, Accessible);
  }

  /** A batch candidate is a requested record that loads and has no media, and every such record is one. */
  lemma {:induction false} BatchCandidatesSpec(s: Store, ids: seq<string>)
    ensures |BatchCandidates(s, ids)| <= |ids|
    ensures forall q :: q in BatchCandidates(s, ids) <==>
      q.mediaPaths == [] && exists j :: 0 <= j < |ids| && Load(s.files, ids[j]) == Some(q)
    decreases |ids|
  {
    if ids != [] {
      var init := ids[..|ids| - 1];
      BatchCandidatesSpec(s, init);
      forall q ensures (exists j :: 0 <= j < |ids| && Load(s.files, ids[j]) == Some(q)) <==>
        (exists j :: 0 <= j < |init| && Load(s.files, init[j]) == Some(q)) || Load(s.files, ids[|ids| - 1]) == Some(q)
      {
        if exists j :: 0 <= j < |ids| && Load(s.files, ids[j]) == Some(q) {
          var j :| 0 <= j < |ids| && Load(s.files, ids[j]) == Some(q);
          if j < |init| {
            assert init[j] == ids[j];
          }
        }
        if exists j :: 0 <= j < |init| && Load(s.files, init[j]) == Some(q) {
          var j :| 0 <= j < |init| && Load(s.files, init[j]) == Some(q);
          assert ids[j] == init[j];
        }
      }
    }
  }

  /** The loop of `download_batch` that picks its candidates. */
  method SelectBatch(db: Database, ids: seq<string>) returns (posts: seq<Post>)
    ensures posts == BatchCandidates(db.State(), ids)
  {
    posts := [];
    for i := 0 to |ids|
      invariant posts == BatchCandidates(db.State(), ids[..i])
    {
      assert ids[..i + 1][..i] == ids[..i];
      var p := db.GetPost(ids[i]);
      if p.Some? && p.value.mediaPaths == [] {
        posts := posts + [p.value];
      }
    }
    assert ids[..|ids|] == ids;
  }

  // ---------------------------------------------------------------- the handlers

  /** A stage request's answer: 409, nothing to do, or the task started for `count` records. */
  datatype Reply = Conflict | NothingToDo | Started(count: nat)

  /**
   * The answer a stage request gets, given the flag and its candidates. The
   * handlers here claim `is_running` as they schedule the task, which
   * `Tasks.ClaimedExclusive` shows keeps tasks one at a time.
   */
  function Answer(running: bool, posts: seq<Post>): (r: Reply)
    ensures r.Conflict? <==> running
    ensures r.NothingToDo? <==> !running && posts == []
    ensures r.Started? ==> r.count == |posts| && r.count > 0
  {
    if running then Conflict else if posts == [] then NothingToDo else Started(|posts|)
  }

  /** `POST /api/validate`. */
  method ValidateUrls(db: Database, ts: TaskState, ids: Option<seq<string>>, check: nat -> Try<V.ValidationResult>, clock: nat -> Instant)
      returns (r: Reply)
    requires db.Valid()
    modifies db, ts
    ensures db.Valid()
    ensures r == Answer(old(ts.isRunning), ValidateCandidates(old(db.State()), ids))
    ensures !r.Started? ==> db.State() == old(db.State()) && ts.isRunning == old(ts.isRunning)
    ensures r.Started? ==>
      (db.State() == StageStore(old(db.State()), ValidateCandidates(old(db.State()), ids), ValidateStep(check, clock))
       && ts.errors == StageErrors(ValidateCandidates(old(db.State()), ids), ValidateStep(check, clock))
       && !ts.isRunning && ts.progress == ts.total == r.count)
  {
    var posts := ValidateCandidates(db.State(), ids);
    r := Answer(ts.isRunning, posts);
    if r.Started? {
      ts.isRunning := true;
      ValidateTask(db, ts, posts, check, clock);
    }
  }

  /** `POST /api/scrape`. */
  method ScrapePosts(db: Database, ts: TaskState, ids: Option<seq<string>>, scrape: nat -> Try<ScraperBase.ScrapeResult>,
                     thumb: nat -> Option<string>, clock: nat -> Instant) returns (r: Reply)
    requires db.Valid()
    modifies db, ts
    ensures db.Valid()
    ensures r == Answer(old(ts.isRunning), ScrapeCandidates(old(db.State()), ids))
    ensures !r.Started? ==> db.State() == old(db.State()) && ts.isRunning == old(ts.isRunning)
    ensures r.Started? ==>
      (db.State() == StageStore(old(db.State()), ScrapeCandidates(old(db.State()), ids), ScrapeStep(scrape, thumb, clock))
       && ts.errors == StageErrors(ScrapeCandidates(old(db.State()), ids), ScrapeStep(scrape, thumb, clock))
       && !ts.isRunning && ts.progress == ts.total == r.count)
  {
    var posts := ScrapeCandidates(db.State(), ids);
    r := Answer(ts.isRunning, posts);
    if r.Started? {
      ts.isRunning := true;
      ScrapeTask(db, ts, posts, scrape, thumb, clock);
    }
  }

  /** `POST /api/download-batch`. */
  method DownloadBatch(db: Database, ts: TaskState, ids: seq<string>, fetch: nat -> Try<MD.DownloadResult>) returns (r: Reply)
    requires db.Valid()
    modifies db, ts
    ensures db.Valid()
    ensures r == Answer(old(ts.isRunning), BatchCandidates(old(db.State()), ids))
    ensures !r.Started? ==> db.State() == old(db.State()) && ts.isRunning == old(ts.isRunning)
    ensures r.Started? ==>
      (db.State() == StageStore(old(db.State()), BatchCandidates(old(db.State()), ids), DownloadStep(fetch))
       && ts.currentTask == "Batch Downloading" && ts.message == "Batch download complete"
       && !ts.isRunning && ts.progress == ts.total == r.count)
  {
    if ts.isRunning {
      return Conflict;
    }
    var posts := SelectBatch(db, ids);
    r := Answer(false, posts);
    if r.Started? {
      ts.isRunning := true;
      DownloadTask(db, ts, posts, fetch, "Batch Downloading", "Batch download complete");
    }
  }

  /** `POST /api/download-all`. */
  method DownloadAll(db: Database, ts: TaskState, fetch: nat -> Try<MD.DownloadResult>) returns (r: Reply)
    requires db.Valid()
    modifies db, ts
    ensures db.Valid()
    ensures r == Answer(old(ts.isRunning), DownloadAllCandidates(old(db.State())))
    ensures !r.Started? ==> db.State() == old(db.State()) && ts.isRunning == old(ts.isRunning)
    ensures r.Started? ==>
      (db.State() == StageStore(old(db.State()), DownloadAllCandidates(old(db.State())), DownloadStep(fetch))
       && ts.currentTask == "Downloading media" && ts.message == "Download complete"
       && !ts.isRunning && ts.progress == ts.total == r.count)
  {
    var posts := DownloadAllCandidates(db.State());
    r := Answer(ts.isRunning, posts);
    if r.Started? {
      ts.isRunning := true;
      DownloadTask(db, ts, posts, fetch, "Downloading media", "Download complete");
    }
  }

  /** What `POST /api/download/{post_id}` answers. */
  datatype SingleReply = NotFound | AlreadyDownloaded(paths: seq<string>) | DownloadStarted

  /**
   * `POST /api/download/{post_id}`: 404 for a record that does not load,
   * its paths when it has media, else a download whose success is saved and
   * whose failure or exception is dropped. There is no `is_running` guard.
   */
  method DownloadOne(db: Database, id: string, fetch: nat -> Try<MD.DownloadResult>) returns (r: SingleReply)
    requires db.Valid()
    modifies db
    ensures db.Valid()
    ensures r.NotFound? <==> Load(old(db.State()).files, id).None?
    ensures r.AlreadyDownloaded? ==> r.paths == Load(old(db.State()).files, id).value.mediaPaths && r.paths != []
    ensures r.DownloadStarted? ==> db.State() == StageStore(old(db.State()), [Load(old(db.State()).files, id).value], DownloadStep(fetch))
    ensures !r.DownloadStarted? ==> db.State() == old(db.State())
  {
    var p := db.GetPost(id);
    if p.None? {
      return NotFound;
    }
    var post := p.value;
    if post.mediaPaths != [] {
      return AlreadyDownloaded(post.mediaPaths);
    }
    r := DownloadStarted;
    assert [post][..0] == [];
    var o := DownloadOutcome(fetch, 0, post);
    if o.Save? {
      db.SavePost(o.post);
    }
  }
}
