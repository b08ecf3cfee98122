/**
 * The record types of the collection: platforms, record statuses, the
 * post record itself, the statistics summary and the listing filter,
 * with the defaults and field bounds their declarations carry.
 */
module Models {
  import opened Wrappers

  /** A point in time. Clock readings and date parsing are outside the model; only order matters. */
  type Instant = int

  datatype Platform = Instagram | Facebook | LinkedIn | Threads | UnknownPlatform

  /** The enum value stored for a platform. */
  function PlatformValue(p: Platform): string
  {
    match p
    case Instagram => "instagram"
    case Facebook => "facebook"
    case LinkedIn => "linkedin"
    case Threads => "threads"
    case UnknownPlatform => "unknown"
  }

  /** `Platform(s)`: the member with value `s`, or `None` where the enum raises. */
  function PlatformOf(s: string): (r: Option<Platform>)
    ensures r.Some? <==> s in {"instagram", "facebook", "linkedin", "threads", "unknown"}
    ensures r.Some? ==> PlatformValue(r.value) == s
  {
    if s == "instagram" then Some(Instagram)
    else if s == "facebook" then Some(Facebook)
    else if s == "linkedin" then Some(LinkedIn)
    else if s == "threads" then Some(Threads)
    else if s == "unknown" then Some(UnknownPlatform)
    else None
  }

  /** The message of the `ValueError` that `Platform(value)` raises for a value naming no platform. */
  function PlatformError(v: string): string
  {
    "'" + v + "' is not a valid Platform"
  }

  /** Each platform is recovered from its stored value, so distinct platforms have distinct values. */
  lemma PlatformRoundTrip(p: Platform)
    ensures PlatformOf(PlatformValue(p)) == Some(p)
  {
  }

  datatype PostStatus = Pending | Accessible | Private | Deleted | Failed

  function StatusValue(s: PostStatus): string
  {
    match s
    case Pending => "pending"
    case Accessible => "accessible"
    case Private => "private"
    case Deleted => "deleted"
    case Failed => "failed"
  }

  /** `PostStatus(s)`: the member with value `s`, or `None` where the enum raises. */
  function StatusOf(s: string): (r: Option<PostStatus>)
    ensures r.Some? <==> s in {"pending", "accessible", "private", "deleted", "failed"}
    ensures r.Some? ==> StatusValue(r.value) == s
  {
    if s == "pending" then Some(Pending)
    else if s == "accessible" then Some(Accessible)
    else if s == "private" then Some(Private)
    else if s == "deleted" then Some(Deleted)
    else if s == "failed" then Some(Failed)
    else None
  }

  lemma StatusRoundTrip(s: PostStatus)
    ensures StatusOf(StatusValue(s)) == Some(s)
  {
  }

  /** A collected post. Metrics are plain integers here; `MetricsValid` is the declared bound. */
  datatype Post = Post(
    id: string,
    url: string,
    platform: Platform,
    author: Option<string>,
    authorUrl: Option<string>,
    title: Option<string>,
    content: Option<string>,
    postedAt: Option<Instant>,
    status: PostStatus,
    scrapedAt: Option<Instant>,
    validatedAt: Option<Instant>,
    views: Option<int>,
    likes: Option<int>,
    comments: Option<int>,
    shares: Option<int>,
    thumbnailUrl: Option<string>,
    thumbnailPath: Option<string>,
    mediaUrls: seq<string>,
    mediaPaths: seq<string>,
    mediaType: Option<string>,
    tags: seq<string>,
    category: Option<string>,
    sourceFile: string,
    sourceContext: Option<string>,
    errorMessage: Option<string>,
    note: Option<string>)

  predicate NonNegative(v: Option<int>)
  {
    v.None? || v.value >= 0
  }

  /** The `ge=0` bound on views, likes, comments and shares. */
  predicate MetricsValid(p: Post)
  {
    NonNegative(p.views) && NonNegative(p.likes) && NonNegative(p.comments) && NonNegative(p.shares)
  }

  /**
   * Building (or loading) a record: validation accepts it exactly when the
   * metric bounds hold, and otherwise raises (`None`).
   */
  function ValidatePost(p: Post): (r: Option<Post>)
    ensures r.Some? <==> MetricsValid(p)
    ensures r.Some? ==> r.value == p
  {
    if MetricsValid(p) then Some(p) else None
  }

  /** A record built from only its required fields: every other field takes its declared default. */
  function NewPost(id: string, url: string, platform: Platform, sourceFile: string): (p: Post)
    ensures p.id == id && p.url == url && p.platform == platform && p.sourceFile == sourceFile
    ensures p.status == Pending
    ensures p.mediaUrls == [] && p.mediaPaths == [] && p.tags == []
    ensures p.author.None? && p.authorUrl.None? && p.title.None? && p.content.None? && p.postedAt.None?
    ensures p.scrapedAt.None? && p.validatedAt.None? && p.thumbnailUrl.None? && p.thumbnailPath.None?
    ensures p.mediaType.None? && p.category.None? && p.sourceContext.None? && p.errorMessage.None? && p.note.None?
    ensures MetricsValid(p)
  {
    Post(id, url, platform, None, None, None, None, None, Pending, None, None, None, None, None, None,
         None, None, [], [], None, [], None, sourceFile, None, None, None)
  }

  /** The summary over the index; the floating-point media size is not part of the model. */
  datatype Statistics = Statistics(
    totalPosts: nat,
    uniquePosts: nat,
    accessible: nat,
    private: nat,
    deleted: nat,
    pending: nat,
    failed: nat,
    byPlatform: seq<(string, nat)>,
    byAuthor: seq<(string, nat)>,
    totalMediaDownloaded: nat)

  function EmptyStatistics(): (s: Statistics)
    ensures s.totalPosts == 0 && s.uniquePosts == 0 && s.totalMediaDownloaded == 0
    ensures s.accessible == 0 && s.private == 0 && s.deleted == 0 && s.pending == 0 && s.failed == 0
    ensures s.byPlatform == [] && s.byAuthor == []
  {
    Statistics(0, 0, 0, 0, 0, 0, 0, [], [], 0)
  }

  datatype FilterOptions = FilterOptions(
    platforms: Option<seq<Platform>>,
    statuses: Option<seq<PostStatus>>,
    authors: Option<seq<string>>,
    tags: Option<seq<string>>,
    categories: Option<seq<string>>,
    mediaTypes: Option<seq<string>>,
    note: Option<string>,
    postedAfter: Option<Instant>,
    postedBefore: Option<Instant>,
    searchQuery: Option<string>,
    limit: int,
    offset: int,
    sortBy: string,
    sortDesc: bool)
  {
    /** The pagination bounds: `1 <= limit <= 500` and `offset >= 0`. */
    predicate Valid()
    {
      1 <= limit <= 500 && offset >= 0
    }
  }

  /** Validation of a filter: accepted exactly when the pagination bounds hold. */
  function ValidateFilter(f: FilterOptions): (r: Option<FilterOptions>)
    ensures r.Some? <==> 1 <= f.limit <= 500 && f.offset >= 0
    ensures r.Some? ==> r.value == f
  {
    if f.Valid() then Some(f) else None
  }

  /** `FilterOptions()`: no criteria, 50 per page from the start, newest `scraped_at` first. */
  function DefaultFilter(): (f: FilterOptions)
    ensures f.Valid()
    ensures f.limit == 50 && f.offset == 0
    ensures f.sortBy == "scraped_at" && f.sortDesc
    ensures f.platforms.None? && f.statuses.None? && f.authors.None? && f.tags.None?
    ensures f.categories.None? && f.mediaTypes.None? && f.postedAfter.None? && f.postedBefore.None?
  {
    FilterOptions(None, None, None, None, None, None, None, None, None, None, 50, 0, "scraped_at", true)
  }
}
