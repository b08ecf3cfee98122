/**
 * Aggregates over the index: the statistics summary, the analytics
 * report and the sorted lists of tags, categories and authors. Each is a
 * function of the entries in index order; the loops that compute them
 * are in the `Database` class.
 */
module DbStats {
  import opened Wrappers
  import opened Text
  import opened Models
  import opened Grouping
  import opened Tallies
  import opened Sorting
  import opened DbStore
  import ScraperBase

  /** `_index.values()`: the entries of the ordered ids. */
  function EntriesOf(order: seq<string>, index: map<string, Entry>): seq<Entry>
    decreases |order|
  {
    if order == [] then []
    else
      var id := order[|order| - 1];
      EntriesOf(order[..|order| - 1], index) + (if id in index then [index[id]] else [])
  }

  lemma {:induction false} EntriesOfLength(order: seq<string>, index: map<string, Entry>)
    requires forall k :: 0 <= k < |order| ==> order[k] in index
    ensures |EntriesOf(order, index)| == |order|
    decreases |order|
  {
    if order != [] {
      EntriesOfLength(order[..|order| - 1], index);
    }
  }

  /** One more id of the order: its entry, if it has one, comes last. */
  lemma EntriesOfStep(order: seq<string>, index: map<string, Entry>, i: nat)
    requires i < |order|
    ensures EntriesOf(order[..i + 1], index) ==
      EntriesOf(order[..i], index) + (if order[i] in index then [index[order[i]]] else [])
  {
    assert order[..i + 1][..i] == order[..i];
  }

  function EntryStatus(e: Entry): string { e.status }
  function EntryPlatform(e: Entry): string { e.platform }
  function EntryMedia(e: Entry): bool { e.hasMedia }
  function EntryMediaType(e: Entry): Option<string> { e.mediaType }

  /** The author of an entry with one, as a string. */
  function EntryAuthor(e: Entry): string
  {
    if e.author.Some? then e.author.value else ""
  }

  /** `meta.get("author") or "Unknown"`. */
  function AuthorOrUnknown(e: Entry): string
  {
    if ScraperBase.Truthy(e.author) then e.author.value else "Unknown"
  }

  /** The entries with a non-empty author, in order. */
  function Authored(es: seq<Entry>): seq<Entry>
    decreases |es|
  {
    if es == [] then []
    else Authored(es[..|es| - 1]) + (if ScraperBase.Truthy(es[|es| - 1].author) then [es[|es| - 1]] else [])
  }

  /** The number of entries with status `v`. */
  function InStatus(es: seq<Entry>, v: string): nat
  {
    |WithKey(es, EntryStatus, v)|
  }

  /** The counters `get_stats` fills in its loop. */
  datatype Tallied = Tallied(
    total: nat,
    accessible: nat,
    private: nat,
    deleted: nat,
    pending: nat,
    failed: nat,
    byPlatform: seq<(string, nat)>,
    byAuthor: seq<(string, nat)>,
    media: nat)

  /** The counters over `es`, each by its definition. */
  function Counted(es: seq<Entry>): Tallied
  {
    Tallied(|es|, InStatus(es, "accessible"), InStatus(es, "private"), InStatus(es, "deleted"),
            InStatus(es, "pending"), InStatus(es, "failed"), Tally(es, EntryPlatform),
            Tally(Authored(es), EntryAuthor), |WithKey(es, EntryMedia, true)|)
  }

  /** One pass of the loop body of `get_stats` for entry `e`. */
  function CountStep(t: Tallied, e: Entry): Tallied
  {
    t.(total := t.total + 1,
       accessible := if e.status == "accessible" then t.accessible + 1 else t.accessible,
       private := if e.status == "private" then t.private + 1 else t.private,
       deleted := if e.status == "deleted" then t.deleted + 1 else t.deleted,
       pending := if e.status == "pending" then t.pending + 1 else t.pending,
       failed := if e.status == "failed" then t.failed + 1 else t.failed,
       byPlatform := Bump(t.byPlatform, e.platform),
       byAuthor := if ScraperBase.Truthy(e.author) then Bump(t.byAuthor, e.author.value) else t.byAuthor,
       media := if e.hasMedia then t.media + 1 else t.media)
  }

  lemma InStatusAppend(es: seq<Entry>, e: Entry, v: string)
    ensures InStatus(es + [e], v) == InStatus(es, v) + (if e.status == v then 1 else 0)
  {
    WithKeyAppend(es, e, EntryStatus, v);
  }

  lemma AuthoredAppend(es: seq<Entry>, e: Entry)
    ensures Authored(es + [e]) == Authored(es) + (if ScraperBase.Truthy(e.author) then [e] else [])
  {
    assert (es + [e])[..|es|] == es;
  }

  lemma TallyAppend<T, K>(xs: seq<T>, x: T, key: T -> K)
    ensures Tally(xs + [x], key) == Bump(Tally(xs, key), key(x))
  {
    assert (xs + [x])[..|xs|] == xs;
  }

  lemma AuthorTallyAppend(es: seq<Entry>, e: Entry)
    ensures Tally(Authored(es + [e]), EntryAuthor) ==
      if ScraperBase.Truthy(e.author) then Bump(Tally(Authored(es), EntryAuthor), e.author.value) else Tally(Authored(es), EntryAuthor)
  {
    AuthoredAppend(es, e);
    if ScraperBase.Truthy(e.author) {
      TallyAppend(Authored(es), e, EntryAuthor);
    } else {
      assert Authored(es + [e]) == Authored(es);
    }
  }

  /** The loop body keeps the counters equal to their definitions. */
  lemma CountedAppend(es: seq<Entry>, e: Entry)
    ensures Counted(es + [e]) == CountStep(Counted(es), e)
  {
    InStatusAppend(es, e, "accessible");
    InStatusAppend(es, e, "private");
    InStatusAppend(es, e, "deleted");
    InStatusAppend(es, e, "pending");
    InStatusAppend(es, e, "failed");
    TallyAppend(es, e, EntryPlatform);
    AuthorTallyAppend(es, e);
    WithKeyAppend(es, e, EntryMedia, true);
  }

  /** `-count`, the key `get_stats` sorts authors by. */
  function NegCount(c: (string, nat)): Key
  {
    Num(0 - c.1 as int)
  }

  /** The first `n` elements, or all of them. */
  function Prefix<T>(xs: seq<T>, n: nat): (r: seq<T>)
    ensures |r| <= n && r <= xs
    ensures |xs| <= n ==> r == xs
  {
    if |xs| <= n then xs else xs[..n]
  }

  /** `dict(sorted(by_author.items(), key=lambda x: -x[1])[:20])`. */
  function TopAuthors(cs: seq<(string, nat)>): seq<(string, nat)>
  {
    Prefix(SortBy(cs, NegCount, false), 20)
  }

  /** `get_stats` on the store. */
  function StatsOf(s: Store): Statistics
  {
    var t := Counted(EntriesOf(s.order, s.index));
    Statistics(t.total, |s.index|, t.accessible, t.private, t.deleted, t.pending, t.failed,
               t.byPlatform, TopAuthors(t.byAuthor), t.media)
  }

  /** The five status values `get_stats` counts. */
  const StatusBuckets: seq<string> := ["accessible", "private", "deleted", "pending", "failed"]

  lemma StatusBucketsDistinct()
    ensures Distinct(StatusBuckets)
  {
  }

  lemma BucketsAreCounts(es: seq<Entry>)
    ensures CountsFor(es, EntryStatus, StatusBuckets) ==
      InStatus(es, "accessible") + InStatus(es, "private") + InStatus(es, "deleted") + InStatus(es, "pending") + InStatus(es, "failed")
  {
    var ks := StatusBuckets;
    assert ks[1..][1..][1..][1..][1..] == [];
  }

  /** `total_posts` and `unique_posts` are both the number of index entries. */
  lemma StatsTotals(s: Store)
    requires Valid(s)
    ensures StatsOf(s).totalPosts == Count(s) && StatsOf(s).uniquePosts == Count(s)
  {
    EntriesOfLength(s.order, s.index);
    CountIsSize(s);
  }

  /** Each entry lands in at most one status bucket, and media are counted per entry. */
  lemma StatsBuckets(s: Store)
    ensures var st := StatsOf(s);
      st.accessible + st.private + st.deleted + st.pending + st.failed <= st.totalPosts
    ensures StatsOf(s).totalMediaDownloaded <= StatsOf(s).totalPosts
  {
    var es := EntriesOf(s.order, s.index);
    StatusBucketsDistinct();
    BucketsAreCounts(es);
    CountsForBound(es, EntryStatus, StatusBuckets);
    assert [true][1..] == [];
    CountsForBound(es, EntryMedia, [true]);
  }

  /**
   * `by_platform` has each platform once, in order of first appearance,
   * with the number of its entries, and the counts add up to the total.
   */
  lemma StatsPlatforms(s: Store)
    ensures var es, b := EntriesOf(s.order, s.index), StatsOf(s).byPlatform;
      Distinct(CounterKeys(b)) && Total(b) == StatsOf(s).totalPosts
    ensures var es, b := EntriesOf(s.order, s.index), StatsOf(s).byPlatform;
      forall j :: 0 <= j < |b| ==> b[j].1 == |WithKey(es, EntryPlatform, b[j].0)|
    ensures var es, b := EntriesOf(s.order, s.index), StatsOf(s).byPlatform;
      forall p :: p in CounterKeys(b) <==> p in Keys(es, EntryPlatform)
  {
    TallySpec(EntriesOf(s.order, s.index), EntryPlatform);
  }

  /** Ranking by `-count` in ascending order puts counts in non-increasing order. */
  lemma RankedCounts(r: seq<(string, nat)>)
    requires SortedBy(r, NegCount, false)
    ensures forall i, j :: 0 <= i < j < |r| ==> r[i].1 >= r[j].1
  {
    forall i, j | 0 <= i < j < |r|
      ensures r[i].1 >= r[j].1
    {
      assert !KeyLess(NegCount(r[j]), NegCount(r[i]));
    }
  }

  lemma TopAuthorsOrder(cs: seq<(string, nat)>)
    ensures |TopAuthors(cs)| <= 20
    ensures var b := TopAuthors(cs);
      forall i, j :: 0 <= i < j < |b| ==> b[i].1 >= b[j].1
  {
    SortSorted(cs, NegCount, false);
    RankedCounts(SortBy(cs, NegCount, false));
  }

  /** No pair left out of the top 20 has a higher count than a kept one. */
  lemma TopAuthorsBest(cs: seq<(string, nat)>)
    ensures var b := TopAuthors(cs);
      forall x, i :: x in cs && x !in b && 0 <= i < |b| ==> x.1 <= b[i].1
  {
    var r := SortBy(cs, NegCount, false);
    var b := TopAuthors(cs);
    SortSorted(cs, NegCount, false);
    RankedCounts(r);
    forall x, i | x in cs && x !in b && 0 <= i < |b|
      ensures x.1 <= b[i].1
    {
      assert x in multiset(r);
      var j :| 0 <= j < |r| && r[j] == x;
      assert b == r[..|b|];
    }
  }

  lemma TopAuthorsFrom(cs: seq<(string, nat)>)
    ensures var b := TopAuthors(cs);
      forall j :: 0 <= j < |b| ==> exists i :: 0 <= i < |cs| && cs[i] == b[j]
  {
    var r := SortBy(cs, NegCount, false);
    var b := TopAuthors(cs);
    forall j | 0 <= j < |b|
      ensures exists i :: 0 <= i < |cs| && cs[i] == b[j]
    {
      assert b[j] == r[j] && r[j] in multiset(cs);
      assert r[j] in cs;
    }
  }

  /**
   * At most 20 authors are kept, in non-increasing order of count; every
   * author left out has a count no greater than any kept one; and each
   * kept author's count is the number of entries with that author.
   */
  lemma StatsTopAuthors(s: Store)
    ensures |StatsOf(s).byAuthor| <= 20
    ensures var b := StatsOf(s).byAuthor;
      forall i, j :: 0 <= i < j < |b| ==> b[i].1 >= b[j].1
    ensures var all, b := Counted(EntriesOf(s.order, s.index)).byAuthor, StatsOf(s).byAuthor;
      forall x, i :: x in all && x !in b && 0 <= i < |b| ==> x.1 <= b[i].1
    ensures var es, b := EntriesOf(s.order, s.index), StatsOf(s).byAuthor;
      forall j :: 0 <= j < |b| ==> b[j].1 == |WithKey(Authored(es), EntryAuthor, b[j].0)| && b[j].1 > 0
  {
    var es := EntriesOf(s.order, s.index);
    var all := Tally(Authored(es), EntryAuthor);
    TopAuthorsOrder(all);
    TopAuthorsBest(all);
    TopAuthorsFrom(all);
    TallySpec(Authored(es), EntryAuthor);
  }

  // ---------------------------------------------------------------- analytics

  /** One author's row of `author_stats`. */
  datatype AuthorStat = AuthorStat(name: string, count: nat, likes: int, comments: int)

  /** The report `get_analytics` returns; each dict is a list of pairs in insertion order. */
  datatype Analytics = Analytics(
    platformCounts: seq<(string, nat)>,
    authorStats: seq<AuthorStat>,
    mediaTypeCounts: seq<(string, nat)>,
    statusCounts: seq<(string, nat)>)

  function LikesOf(e: Entry): int { if e.likes.Some? then e.likes.value else 0 }
  function CommentsOf(e: Entry): int { if e.comments.Some? then e.comments.value else 0 }

  /** Adds one entry's likes and comments to the row of `name`, opening the row last when it has none. */
  function BumpAuthor(ss: seq<AuthorStat>, name: string, likes: int, comments: int): seq<AuthorStat>
    decreases |ss|
  {
    if ss == [] then [AuthorStat(name, 1, likes, comments)]
    else if ss[0].name == name then [ss[0].(count := ss[0].count + 1, likes := ss[0].likes + likes, comments := ss[0].comments + comments)] + ss[1..]
    else [ss[0]] + BumpAuthor(ss[1..], name, likes, comments)
  }

  /** `author_map` after the loop over `es`. */
  function AuthorTable(es: seq<Entry>): seq<AuthorStat>
    decreases |es|
  {
    if es == [] then []
    else
      var e := es[|es| - 1];
      BumpAuthor(AuthorTable(es[..|es| - 1]), AuthorOrUnknown(e), LikesOf(e), CommentsOf(e))
  }

  /** The rows for the author groups: size and sums of likes and comments. */
  function RowsOf(gs: seq<(string, seq<Entry>)>): (r: seq<AuthorStat>)
    ensures |r| == |gs|
    ensures forall j :: 0 <= j < |gs| ==> r[j] == AuthorStat(gs[j].0, |gs[j].1|, SumOf(gs[j].1, LikesOf), SumOf(gs[j].1, CommentsOf))
  {
    seq(|gs|, j requires 0 <= j < |gs| => AuthorStat(gs[j].0, |gs[j].1|, SumOf(gs[j].1, LikesOf), SumOf(gs[j].1, CommentsOf)))
  }

  lemma {:induction false} BumpAuthorRows(gs: seq<(string, seq<Entry>)>, k: string, x: Entry)
    ensures BumpAuthor(RowsOf(gs), k, LikesOf(x), CommentsOf(x)) == RowsOf(AddToGroup(gs, k, x))
    decreases |gs|
  {
    if gs != [] {
      assert RowsOf(gs)[1..] == RowsOf(gs[1..]);
      if gs[0].0 != k {
        BumpAuthorRows(gs[1..], k, x);
      } else {
        SumOfAppend(gs[0].1, x, LikesOf);
        SumOfAppend(gs[0].1, x, CommentsOf);
      }
    } else {
      SumOfAppend([], x, LikesOf);
      SumOfAppend([], x, CommentsOf);
      assert [] + [x] == [x];
    }
  }

  lemma {:induction false} AuthorTableRows(es: seq<Entry>)
    ensures AuthorTable(es) == RowsOf(Groups(es, AuthorOrUnknown))
    decreases |es|
  {
    if es != [] {
      AuthorTableRows(es[..|es| - 1]);
      BumpAuthorRows(Groups(es[..|es| - 1], AuthorOrUnknown), AuthorOrUnknown(es[|es| - 1]), es[|es| - 1]);
    }
  }

  function AuthorNames(ss: seq<AuthorStat>): (r: seq<string>)
    ensures |r| == |ss| && forall j :: 0 <= j < |ss| ==> r[j] == ss[j].name
  {
    seq(|ss|, j requires 0 <= j < |ss| => ss[j].name)
  }

  /**
   * `author_map` has one row per author (an entry without one counting as
   * "Unknown"), in order of first appearance, holding that author's
   * number of entries and sums of likes and comments, missing ones as 0.
   */
  lemma AuthorTableSpec(es: seq<Entry>)
    ensures Distinct(AuthorNames(AuthorTable(es)))
    ensures forall a :: a in AuthorNames(AuthorTable(es)) <==> a in Keys(es, AuthorOrUnknown)
    ensures forall j :: 0 <= j < |AuthorTable(es)| ==>
      var row, mine := AuthorTable(es)[j], WithKey(es, AuthorOrUnknown, AuthorTable(es)[j].name);
      row.count == |mine| && row.likes == SumOf(mine, LikesOf) && row.comments == SumOf(mine, CommentsOf)
  {
    AuthorTableRows(es);
    GroupsSpec(es, AuthorOrUnknown);
    FirstOfEachKeys(es, AuthorOrUnknown);
    assert AuthorNames(AuthorTable(es)) == GroupKeys(Groups(es, AuthorOrUnknown));
  }

  function MediaTypeCount(es: seq<Entry>, t: string): nat
  {
    |WithKey(es, EntryMediaType, Some(t))|
  }

  function ByCount(a: AuthorStat): Key
  {
    Num(a.count)
  }

  /** `get_analytics` on the store. */
  function AnalyticsOf(s: Store): Analytics
  {
    var es := EntriesOf(s.order, s.index);
    Analytics(
      Tally(es, EntryPlatform),
      SortBy(AuthorTable(es), ByCount, true),
      [("image", MediaTypeCount(es, "image")), ("video", MediaTypeCount(es, "video")), ("carousel", MediaTypeCount(es, "carousel"))],
      Tally(es, EntryStatus))
  }

  /**
   * The platform counts and the status counts each add up to the number
   * of index entries, with one key per value.
   */
  lemma AnalyticsCounts(s: Store)
    requires Valid(s)
    ensures Total(AnalyticsOf(s).platformCounts) == Count(s) && Distinct(CounterKeys(AnalyticsOf(s).platformCounts))
    ensures Total(AnalyticsOf(s).statusCounts) == Count(s) && Distinct(CounterKeys(AnalyticsOf(s).statusCounts))
  {
    var es := EntriesOf(s.order, s.index);
    EntriesOfLength(s.order, s.index);
    TallySpec(es, EntryPlatform);
    TallySpec(es, EntryStatus);
  }

  /** The three media-type counts count each entry at most once. */
  lemma AnalyticsMediaTypes(s: Store)
    ensures var m := AnalyticsOf(s).mediaTypeCounts;
      m[0].1 + m[1].1 + m[2].1 <= |EntriesOf(s.order, s.index)|
  {
    var es := EntriesOf(s.order, s.index);
    var ks := [Some("image"), Some("video"), Some("carousel")];
    assert ks[1..][1..][1..] == [];
    CountsForBound(es, EntryMediaType, ks);
  }

  /**
   * `author_stats` is the author table reordered by count, highest first,
   * with authors of equal count in order of first appearance.
   */
  lemma AnalyticsAuthors(s: Store, k: Key)
    ensures var es := EntriesOf(s.order, s.index);
      multiset(AnalyticsOf(s).authorStats) == multiset(AuthorTable(es))
    ensures var a := AnalyticsOf(s).authorStats;
      forall i, j :: 0 <= i < j < |a| ==> a[i].count >= a[j].count
    ensures var es := EntriesOf(s.order, s.index);
      WithKey(AnalyticsOf(s).authorStats, ByCount, k) == WithKey(AuthorTable(es), ByCount, k)
  {
    var es := EntriesOf(s.order, s.index);
    var a := AnalyticsOf(s).authorStats;
    SortSorted(AuthorTable(es), ByCount, true);
    SortStable(AuthorTable(es), ByCount, true, k);
    forall i, j | 0 <= i < j < |a|
      ensures a[i].count >= a[j].count
    {
      assert !KeyLess(ByCount(a[i]), ByCount(a[j]));
    }
  }

  // ---------------------------------------------------------------- tags, categories, authors

  /** Every tag of every entry, in order. */
  function TagsOf(es: seq<Entry>): seq<string>
    decreases |es|
  {
    if es == [] then [] else TagsOf(es[..|es| - 1]) + es[|es| - 1].tags
  }

  /** The non-empty categories, in order. */
  function CategoriesOf(es: seq<Entry>): seq<string>
    decreases |es|
  {
    if es == [] then []
    else
      var c := es[|es| - 1].category;
      CategoriesOf(es[..|es| - 1]) + (if ScraperBase.Truthy(c) then [c.value] else [])
  }

  /** The non-empty authors, in order. */
  function AuthorsOf(es: seq<Entry>): seq<string>
    decreases |es|
  {
    if es == [] then []
    else
      var a := es[|es| - 1].author;
      AuthorsOf(es[..|es| - 1]) + (if ScraperBase.Truthy(a) then [a.value] else [])
  }

  lemma {:induction false} TagsOfMembers(es: seq<Entry>)
    ensures forall t :: t in TagsOf(es) <==> exists j :: 0 <= j < |es| && t in es[j].tags
    decreases |es|
  {
    if es != [] {
      var init := es[..|es| - 1];
      TagsOfMembers(init);
      assert forall j :: 0 <= j < |init| ==> init[j] == es[j];
    }
  }

  lemma {:induction false} CategoriesOfMembers(es: seq<Entry>)
    ensures forall c :: c in CategoriesOf(es) <==> exists j :: 0 <= j < |es| && es[j].category == Some(c) && c != ""
    decreases |es|
  {
    if es != [] {
      var init := es[..|es| - 1];
      CategoriesOfMembers(init);
      assert forall j :: 0 <= j < |init| ==> init[j] == es[j];
    }
  }

  lemma {:induction false} AuthorsOfMembers(es: seq<Entry>)
    ensures forall a :: a in AuthorsOf(es) <==> exists j :: 0 <= j < |es| && es[j].author == Some(a) && a != ""
    decreases |es|
  {
    if es != [] {
      var init := es[..|es| - 1];
      AuthorsOfMembers(init);
      assert forall j :: 0 <= j < |init| ==> init[j] == es[j];
    }
  }

  lemma {:induction false} EntriesOfMembers(order: seq<string>, index: map<string, Entry>)
    ensures forall e :: e in EntriesOf(order, index) <==>
      exists k :: 0 <= k < |order| && order[k] in index && index[order[k]] == e
    decreases |order|
  {
    if order != [] {
      var init := order[..|order| - 1];
      EntriesOfMembers(init, index);
      assert forall k :: 0 <= k < |init| ==> init[k] == order[k];
    }
  }

  /** Over a valid store, the entries are exactly the index's values. */
  lemma EntriesOfIndex(s: Store)
    requires Valid(s)
    ensures forall e :: e in EntriesOf(s.order, s.index) <==> exists id :: id in s.index && s.index[id] == e
  {
    EntriesOfMembers(s.order, s.index);
    forall id | id in s.index
      ensures s.index[id] in EntriesOf(s.order, s.index)
    {
      var k :| 0 <= k < |s.order| && s.order[k] == id;
    }
  }

  /** `get_all_tags` collects exactly the tags some indexed entry carries. */
  lemma IndexTags(s: Store)
    requires Valid(s)
    ensures forall t :: t in TagsOf(EntriesOf(s.order, s.index)) <==> exists id :: id in s.index && t in s.index[id].tags
  {
    var es := EntriesOf(s.order, s.index);
    TagsOfMembers(es);
    EntriesOfIndex(s);
    forall id, t | id in s.index && t in s.index[id].tags
      ensures t in TagsOf(es)
    {
      assert s.index[id] in es;
      var j :| 0 <= j < |es| && es[j] == s.index[id];
    }
    forall t | t in TagsOf(es)
      ensures exists id :: id in s.index && t in s.index[id].tags
    {
      var j :| 0 <= j < |es| && t in es[j].tags;
      assert es[j] in es;
    }
  }

  /** `get_all_categories` collects exactly the non-empty categories of indexed entries. */
  lemma IndexCategories(s: Store)
    requires Valid(s)
    ensures forall c :: c in CategoriesOf(EntriesOf(s.order, s.index)) <==>
      c != "" && exists id :: id in s.index && s.index[id].category == Some(c)
  {
    var es := EntriesOf(s.order, s.index);
    CategoriesOfMembers(es);
    EntriesOfIndex(s);
    forall id | id in s.index && s.index[id].category.Some? && s.index[id].category.value != ""
      ensures s.index[id].category.value in CategoriesOf(es)
    {
      assert s.index[id] in es;
      var j :| 0 <= j < |es| && es[j] == s.index[id];
    }
    forall c | c in CategoriesOf(es)
      ensures exists id :: id in s.index && s.index[id].category == Some(c)
    {
      var j :| 0 <= j < |es| && es[j].category == Some(c) && c != "";
      assert es[j] in es;
    }
  }

  /** `get_all_authors` collects exactly the non-empty authors of indexed entries. */
  lemma IndexAuthors(s: Store)
    requires Valid(s)
    ensures forall a :: a in AuthorsOf(EntriesOf(s.order, s.index)) <==>
      a != "" && exists id :: id in s.index && s.index[id].author == Some(a)
  {
    var es := EntriesOf(s.order, s.index);
    AuthorsOfMembers(es);
    EntriesOfIndex(s);
    forall id | id in s.index && s.index[id].author.Some? && s.index[id].author.value != ""
      ensures s.index[id].author.value in AuthorsOf(es)
    {
      assert s.index[id] in es;
      var j :| 0 <= j < |es| && es[j] == s.index[id];
    }
    forall a | a in AuthorsOf(es)
      ensures exists id :: id in s.index && s.index[id].author == Some(a)
    {
      var j :| 0 <= j < |es| && es[j].author == Some(a) && a != "";
      assert es[j] in es;
    }
  }
}
