/**
 * Listing records: the filter over index entries, the sort key, and the
 * offset/limit page, ending with the records of the page that load.
 */
module DbQuery {
  import opened Wrappers
  import opened Models
  import opened Grouping
  import opened Sorting
  import opened DbStore

  /** A list criterion applies only when it is given and non-empty. */
  predicate Given<T>(xs: Option<seq<T>>)
  {
    xs.Some? && xs.value != []
  }

  function PlatformValues(ps: seq<Platform>): (r: seq<string>)
    ensures |r| == |ps| && forall k :: 0 <= k < |ps| ==> r[k] == PlatformValue(ps[k])
  {
    seq(|ps|, k requires 0 <= k < |ps| => PlatformValue(ps[k]))
  }

  function StatusValues(ss: seq<PostStatus>): (r: seq<string>)
    ensures |r| == |ss| && forall k :: 0 <= k < |ss| ==> r[k] == StatusValue(ss[k])
  {
    seq(|ss|, k requires 0 <= k < |ss| => StatusValue(ss[k]))
  }

  /** `meta.get(field) in xs` for an optional field: an absent value is in no list of strings. */
  predicate Listed(v: Option<string>, xs: seq<string>)
  {
    v.Some? && v.value in xs
  }

  /** The criteria checked before the date range: platform, status, author, any shared tag, category. */
  predicate FieldsMatch(e: Entry, f: FilterOptions)
  {
    (!Given(f.platforms) || e.platform in PlatformValues(f.platforms.value))
    && (!Given(f.statuses) || e.status in StatusValues(f.statuses.value))
    && (!Given(f.authors) || Listed(e.author, f.authors.value))
    && (!Given(f.tags) || exists t :: t in e.tags && t in f.tags.value)
    && (!Given(f.categories) || Listed(e.category, f.categories.value))
  }

  /** The criterion checked last: the media type. */
  predicate MediaTypeMatches(e: Entry, f: FilterOptions)
  {
    !Given(f.mediaTypes) || Listed(e.mediaType, f.mediaTypes.value)
  }

  /** Posted no earlier than `posted_after`, when given; a record without a date fails a given bound. */
  predicate AfterOk(e: Entry, f: FilterOptions)
  {
    f.postedAfter.None? || (e.postedAt.Some? && e.postedAt.value >= f.postedAfter.value)
  }

  /** Posted no later than `posted_before`, when given. */
  predicate BeforeOk(e: Entry, f: FilterOptions)
  {
    f.postedBefore.None? || (e.postedAt.Some? && e.postedAt.value <= f.postedBefore.value)
  }

  /**
   * `_matches_filter` as evidently intended: every given criterion holds,
   * each date bound on its own. `note` and `search_query` are never
   * applied.
   */
  predicate Matches(e: Entry, f: FilterOptions)
  {
    FieldsMatch(e, f) && AfterOk(e, f) && BeforeOk(e, f) && MediaTypeMatches(e, f)
  }

  /**
   * `_matches_filter` as written, where the `posted_before` check sits
   * inside the `posted_after` branch: `None` is the `TypeError` raised by
   * comparing a date with an absent `posted_before`.
   */
  function MatchesAsWritten(e: Entry, f: FilterOptions): Option<bool>
  {
    if !FieldsMatch(e, f) then Some(false)
    else if f.postedAfter.Some? then
      if e.postedAt.None? || e.postedAt.value < f.postedAfter.value then Some(false)
      else if f.postedBefore.None? then None
      else if e.postedAt.value > f.postedBefore.value then Some(false)
      else Some(MediaTypeMatches(e, f))
    else Some(MediaTypeMatches(e, f))
  }

  /** Given both date bounds or neither, the code as written decides as intended. */
  lemma AsWrittenAgrees(e: Entry, f: FilterOptions)
    requires f.postedAfter.Some? <==> f.postedBefore.Some?
    ensures MatchesAsWritten(e, f) == Some(Matches(e, f))
  {
  }

  /** As written, the check raises exactly for a record that passes the other criteria and `posted_after` when `posted_before` is absent. */
  lemma AsWrittenRaises(e: Entry, f: FilterOptions)
    ensures MatchesAsWritten(e, f).None? <==>
      FieldsMatch(e, f) && f.postedAfter.Some? && f.postedBefore.None? && AfterOk(e, f)
  {
  }

  /** As written, `posted_before` alone is ignored: a later record still matches. */
  lemma AsWrittenIgnoresBefore(e: Entry, f: FilterOptions)
    requires f.postedAfter.None? && f.postedBefore.Some?
    requires FieldsMatch(e, f) && MediaTypeMatches(e, f)
    requires e.postedAt.Some? && e.postedAt.value > f.postedBefore.value
    ensures MatchesAsWritten(e, f) == Some(true)
    ensures !Matches(e, f)
  {
  }

  function OrZero(v: Option<int>): int
  {
    if v.Some? then v.value else 0
  }

  function OrEmpty(v: Option<string>): string
  {
    if v.Some? then v.value else ""
  }

  /**
   * `get_sort_value`: the entry's value of the sort field, a missing or
   * zero number counting as 0 and any other falsy value as "". The tags
   * are a list unless empty, and `has_media` is `True` or, when false, "".
   * A field the index does not hold (`shares`, `content`, ...) is 0 or ""
   * for every entry.
   */
  function SortKey(e: Entry, sortBy: string): Key
  {
    if sortBy == "views" then Num(OrZero(e.views))
    else if sortBy == "likes" then Num(OrZero(e.likes))
    else if sortBy == "comments" then Num(OrZero(e.comments))
    else if sortBy == "shares" then Num(0)
    else if sortBy == "posted_at" then Time(e.postedAt)
    else if sortBy == "scraped_at" then Time(e.scrapedAt)
    else if sortBy == "url" then Str(e.url)
    else if sortBy == "platform" then Str(e.platform)
    else if sortBy == "status" then Str(e.status)
    else if sortBy == "author" then Str(OrEmpty(e.author))
    else if sortBy == "category" then Str(OrEmpty(e.category))
    else if sortBy == "media_type" then Str(OrEmpty(e.mediaType))
    else if sortBy == "thumbnail_path" then Str(OrEmpty(e.thumbnailPath))
    else if sortBy == "tags" then (if e.tags == [] then Str("") else Strs(e.tags))
    else if sortBy == "has_media" then (if e.hasMedia then Flag(true) else Str(""))
    else Str("")
  }

  /** The sort key of an `(id, entry)` row. */
  function RowKey(sortBy: string): ((string, Entry)) -> Key
  {
    (r: (string, Entry)) => SortKey(r.1, sortBy)
  }

  /** The sort key of a loaded record: that of its projection. */
  function PostKey(sortBy: string): Post -> Key
  {
    (p: Post) => SortKey(Projection(p), sortBy)
  }

  /** The `(id, entry)` rows of the index that match, in index order. */
  function Matching(order: seq<string>, index: map<string, Entry>, f: FilterOptions): seq<(string, Entry)>
    decreases |order|
  {
    if order == [] then []
    else
      var id := order[|order| - 1];
      Matching(order[..|order| - 1], index, f)
        + (if id in index && Matches(index[id], f) then [(id, index[id])] else [])
  }

  /** `xs[offset:offset + limit]`, as Python clamps a slice to the list. */
  function Page<T>(xs: seq<T>, offset: nat, limit: nat): (r: seq<T>)
    ensures |r| <= limit
    ensures |r| == if offset >= |xs| then 0 else if |xs| - offset < limit then |xs| - offset else limit
    ensures forall j :: 0 <= j < |r| ==> r[j] == xs[offset + j]
  {
    var lo := if offset < |xs| then offset else |xs|;
    var hi := if offset + limit < |xs| then offset + limit else |xs|;
    xs[lo..hi]
  }

  function Ids(rows: seq<(string, Entry)>): (r: seq<string>)
    ensures |r| == |rows| && forall j :: 0 <= j < |rows| ==> r[j] == rows[j].0
  {
    seq(|rows|, j requires 0 <= j < |rows| => rows[j].0)
  }

  /** The matching rows in sort order. */
  function SortedRows(s: Store, f: FilterOptions): seq<(string, Entry)>
  {
    SortBy(Matching(s.order, s.index, f), RowKey(f.sortBy), f.sortDesc)
  }

  /** The rows of the requested page. */
  function PageRows(s: Store, f: FilterOptions): seq<(string, Entry)>
    requires f.Valid()
  {
    Page(SortedRows(s, f), f.offset, f.limit)
  }

  /** `list_posts`: the records of the page's rows that load, in page order. */
  function Listing(s: Store, f: FilterOptions): seq<Post>
    requires f.Valid()
  {
    LoadAll(s.files, Ids(PageRows(s, f)))
  }

  /** Python's message when `sort` compares keys of two kinds. */
  const SortTypeError := "TypeError: '<' not supported between instances of different types"

  /**
   * `list_posts` with its failure: when the matching rows hold sort keys
   * of two kinds (a list or `True` beside ""), `sort` raises; otherwise the
   * listing.
   */
  function ListResult(s: Store, f: FilterOptions): (r: Result<seq<Post>>)
    requires f.Valid()
  {
    if Mixed(Matching(s.order, s.index, f), RowKey(f.sortBy)) then Failure(SortTypeError)
    else Success(Listing(s, f))
  }

  /** The filter `list_posts` applies: the one given, or `FilterOptions()`. */
  function FilterOr(filters: Option<FilterOptions>): (f: FilterOptions)
    ensures filters.Some? ==> f == filters.value
    ensures filters.None? ==> f == DefaultFilter()
  {
    if filters.Some? then filters.value else DefaultFilter()
  }

  // ---------------------------------------------------------------- lemmas

  /** Every row taken is an indexed id with its own entry, and the entry matches. */
  ghost predicate IndexRows(rows: seq<(string, Entry)>, index: map<string, Entry>, f: FilterOptions)
  {
    forall j :: 0 <= j < |rows| ==> rows[j].0 in index && rows[j].1 == index[rows[j].0] && Matches(rows[j].1, f)
  }

  lemma {:induction false} MatchingRows(order: seq<string>, index: map<string, Entry>, f: FilterOptions)
    ensures IndexRows(Matching(order, index, f), index, f)
    decreases |order|
  {
    if order != [] {
      MatchingRows(order[..|order| - 1], index, f);
    }
  }

  /** Every indexed id of the order whose entry matches is taken. */
  lemma {:induction false} MatchingComplete(order: seq<string>, index: map<string, Entry>, f: FilterOptions)
    ensures forall k :: 0 <= k < |order| && order[k] in index && Matches(index[order[k]], f) ==>
      (order[k], index[order[k]]) in Matching(order, index, f)
    decreases |order|
  {
    if order != [] {
      var init := order[..|order| - 1];
      MatchingComplete(init, index, f);
      assert forall k :: 0 <= k < |init| ==> init[k] == order[k];
    }
  }

  lemma RowsInSorted(s: Store, f: FilterOptions)
    ensures IndexRows(SortedRows(s, f), s.index, f)
  {
    var m := Matching(s.order, s.index, f);
    var r := SortedRows(s, f);
    MatchingRows(s.order, s.index, f);
    forall j | 0 <= j < |r|
      ensures r[j].0 in s.index && r[j].1 == s.index[r[j].0] && Matches(r[j].1, f)
    {
      assert r[j] in multiset(m);
      var i :| 0 <= i < |m| && m[i] == r[j];
    }
  }

  /**
   * The sorted rows are the matching rows rearranged: sorted by the sort
   * key (reversed for `sort_desc`), with rows of equal key in index order.
   */
  lemma SortedRowsSpec(s: Store, f: FilterOptions, k: Key)
    ensures multiset(SortedRows(s, f)) == multiset(Matching(s.order, s.index, f))
    ensures SortedBy(SortedRows(s, f), RowKey(f.sortBy), f.sortDesc)
    ensures WithKey(SortedRows(s, f), RowKey(f.sortBy), k) == WithKey(Matching(s.order, s.index, f), RowKey(f.sortBy), k)
  {
    SortSorted(Matching(s.order, s.index, f), RowKey(f.sortBy), f.sortDesc);
    SortStable(Matching(s.order, s.index, f), RowKey(f.sortBy), f.sortDesc, k);
  }

  lemma PageSorted<T>(xs: seq<T>, offset: nat, limit: nat, key: T -> Key, desc: bool)
    requires SortedBy(xs, key, desc)
    ensures SortedBy(Page(xs, offset, limit), key, desc)
  {
  }

  lemma PageRowsSpec(s: Store, f: FilterOptions)
    requires f.Valid()
    ensures IndexRows(PageRows(s, f), s.index, f)
    ensures SortedBy(PageRows(s, f), RowKey(f.sortBy), f.sortDesc)
  {
    RowsInSorted(s, f);
    SortSorted(Matching(s.order, s.index, f), RowKey(f.sortBy), f.sortDesc);
    PageSorted(SortedRows(s, f), f.offset, f.limit, RowKey(f.sortBy), f.sortDesc);
  }

  lemma {:induction false} LoadAllLength(files: map<string, RecordFile>, names: seq<string>)
    ensures |LoadAll(files, names)| <= |names|
    decreases |names|
  {
    if names != [] {
      LoadAllLength(files, names[..|names| - 1]);
    }
  }

  /** Each record returned is loaded from one of the names. */
  lemma {:induction false} LoadAllFrom(files: map<string, RecordFile>, names: seq<string>)
    ensures forall q :: q in LoadAll(files, names) ==> exists j :: 0 <= j < |names| && Load(files, names[j]) == Some(q)
    decreases |names|
  {
    if names != [] {
      var init := names[..|names| - 1];
      LoadAllFrom(files, init);
      assert forall j :: 0 <= j < |init| ==> init[j] == names[j];
    }
  }

  /** `list_posts` returns at most `limit` records. */
  lemma ListingBounded(s: Store, f: FilterOptions)
    requires f.Valid()
    ensures |Listing(s, f)| <= f.limit
  {
    LoadAllLength(s.files, Ids(PageRows(s, f)));
  }

  /** With the index consistent with the files, every record `list_posts` returns matches the filter. */
  lemma ListingMatches(s: Store, f: FilterOptions)
    requires f.Valid() && Consistent(s)
    ensures forall q :: q in Listing(s, f) ==> Matches(Projection(q), f)
  {
    var rows := PageRows(s, f);
    PageRowsSpec(s, f);
    LoadAllFrom(s.files, Ids(rows));
    forall q | q in Listing(s, f)
      ensures Matches(Projection(q), f)
    {
      var j :| 0 <= j < |Ids(rows)| && Load(s.files, Ids(rows)[j]) == Some(q);
      assert rows[j].0 in s.index && rows[j].1 == s.index[rows[j].0];
    }
  }

  /** A loaded record has the key of its row, when the row's entry is the record's projection. */
  ghost predicate KeysAgree(files: map<string, RecordFile>, rows: seq<(string, Entry)>)
  {
    forall j :: 0 <= j < |rows| && Load(files, rows[j].0).Some? ==> Projection(Load(files, rows[j].0).value) == rows[j].1
  }

  lemma {:induction false} LoadAllKeys(files: map<string, RecordFile>, rows: seq<(string, Entry)>, sortBy: string)
    requires KeysAgree(files, rows)
    ensures forall q :: q in LoadAll(files, Ids(rows)) ==>
      exists j :: 0 <= j < |rows| && PostKey(sortBy)(q) == RowKey(sortBy)(rows[j])
    decreases |rows|
  {
    LoadAllFrom(files, Ids(rows));
    forall q | q in LoadAll(files, Ids(rows))
      ensures exists j :: 0 <= j < |rows| && PostKey(sortBy)(q) == RowKey(sortBy)(rows[j])
    {
      var j :| 0 <= j < |Ids(rows)| && Load(files, Ids(rows)[j]) == Some(q);
      assert PostKey(sortBy)(q) == RowKey(sortBy)(rows[j]);
    }
  }

  lemma LoadAllSortedStep(files: map<string, RecordFile>, rows: seq<(string, Entry)>, sortBy: string, desc: bool)
    requires rows != [] && KeysAgree(files, rows)
    requires SortedBy(rows, RowKey(sortBy), desc)
    requires SortedBy(LoadAll(files, Ids(rows[..|rows| - 1])), PostKey(sortBy), desc)
    ensures SortedBy(LoadAll(files, Ids(rows)), PostKey(sortBy), desc)
  {
    var init := rows[..|rows| - 1];
    var last := rows[|rows| - 1];
    assert Ids(rows)[..|rows| - 1] == Ids(init);
    assert KeysAgree(files, init);
    var prev := LoadAll(files, Ids(init));
    match Load(files, last.0)
    case None =>
    case Some(q) =>
      LoadAllKeys(files, init, sortBy);
      forall i | 0 <= i < |prev|
        ensures !Before(PostKey(sortBy)(q), PostKey(sortBy)(prev[i]), desc)
      {
        assert prev[i] in prev;
        var j :| 0 <= j < |init| && PostKey(sortBy)(prev[i]) == RowKey(sortBy)(init[j]);
        assert rows[j] == init[j];
      }
      assert LoadAll(files, Ids(rows)) == prev + [q];
  }

  /** Loading a sorted run of rows keeps their order. */
  lemma {:induction false} LoadAllSorted(files: map<string, RecordFile>, rows: seq<(string, Entry)>, sortBy: string, desc: bool)
    requires KeysAgree(files, rows)
    requires SortedBy(rows, RowKey(sortBy), desc)
    ensures SortedBy(LoadAll(files, Ids(rows)), PostKey(sortBy), desc)
    decreases |rows|
  {
    if rows != [] {
      var init := rows[..|rows| - 1];
      assert KeysAgree(files, init);
      assert SortedBy(init, RowKey(sortBy), desc);
      LoadAllSorted(files, init, sortBy, desc);
      LoadAllSortedStep(files, rows, sortBy, desc);
    }
  }

  /** With the index consistent with the files, `list_posts` returns its records in sort order. */
  lemma ListingSorted(s: Store, f: FilterOptions)
    requires f.Valid() && Consistent(s)
    ensures SortedBy(Listing(s, f), PostKey(f.sortBy), f.sortDesc)
  {
    var rows := PageRows(s, f);
    PageRowsSpec(s, f);
    assert KeysAgree(s.files, rows);
    LoadAllSorted(s.files, rows, f.sortBy, f.sortDesc);
  }

  /** Every sort field except `tags` and `has_media` gives keys of one kind for every entry. */
  lemma OneKind(e: Entry, d: Entry, sortBy: string)
    requires sortBy != "tags" && sortBy != "has_media"
    ensures Rank(SortKey(e, sortBy)) == Rank(SortKey(d, sortBy))
  {
  }

  /** Sorting by any field but `tags` or `has_media` never raises: the result is the listing. */
  lemma ListResultScalar(s: Store, f: FilterOptions)
    requires f.Valid() && f.sortBy != "tags" && f.sortBy != "has_media"
    ensures ListResult(s, f) == Success(Listing(s, f))
  {
    var rows := Matching(s.order, s.index, f);
    forall i, j | 0 <= i < |rows| && 0 <= j < |rows|
      ensures Rank(RowKey(f.sortBy)(rows[i])) == Rank(RowKey(f.sortBy)(rows[j]))
    {
      OneKind(rows[i].1, rows[j].1, f.sortBy);
    }
  }

  /** The sort key of the tags: "" for no tags, else the list. */
  lemma TagsKey(e: Entry)
    ensures Rank(SortKey(e, "tags")) == if e.tags == [] then 1 else 3
  {
  }

  /** The sort key of `has_media`: `True`, or "" for false. */
  lemma HasMediaKey(e: Entry)
    ensures Rank(SortKey(e, "has_media")) == if e.hasMedia then 4 else 1
  {
  }

  /** Keys of one kind when `p` holds and of another when it does not are mixed exactly when `p` holds for one element and not for another. */
  lemma MixedSplit<T>(xs: seq<T>, key: T -> Key, p: T -> bool, a: nat, b: nat)
    requires a != b
    requires forall k :: 0 <= k < |xs| ==> Rank(key(xs[k])) == if p(xs[k]) then a else b
    ensures Mixed(xs, key) <==> exists i, j :: 0 <= i < |xs| && 0 <= j < |xs| && p(xs[i]) && !p(xs[j])
  {
    if Mixed(xs, key) {
      var i, j :| 0 <= i < |xs| && 0 <= j < |xs| && Rank(key(xs[i])) != Rank(key(xs[j]));
      if p(xs[i]) {
        assert p(xs[i]) && !p(xs[j]);
      } else {
        assert p(xs[j]) && !p(xs[i]);
      }
    }
    if exists i, j :: 0 <= i < |xs| && 0 <= j < |xs| && p(xs[i]) && !p(xs[j]) {
      var i, j :| 0 <= i < |xs| && 0 <= j < |xs| && p(xs[i]) && !p(xs[j]);
      assert Rank(key(xs[i])) != Rank(key(xs[j]));
    }
  }

  /** Sorting by `tags` raises exactly when a matching record has no tags and another has some. */
  lemma ListResultTags(s: Store, f: FilterOptions)
    requires f.Valid() && f.sortBy == "tags"
    ensures var rows := Matching(s.order, s.index, f);
      ListResult(s, f).Failure? <==>
        exists i, j :: 0 <= i < |rows| && 0 <= j < |rows| && rows[i].1.tags == [] && rows[j].1.tags != []
  {
    var rows := Matching(s.order, s.index, f);
    var p := (r: (string, Entry)) => r.1.tags == [];
    forall k | 0 <= k < |rows|
      ensures Rank(RowKey("tags")(rows[k])) == if p(rows[k]) then 1 else 3
    {
      TagsKey(rows[k].1);
    }
    MixedSplit(rows, RowKey("tags"), p, 1, 3);
  }

  /** Sorting by `has_media` raises exactly when a matching record has no media and another has some. */
  lemma ListResultHasMedia(s: Store, f: FilterOptions)
    requires f.Valid() && f.sortBy == "has_media"
    ensures var rows := Matching(s.order, s.index, f);
      ListResult(s, f).Failure? <==>
        exists i, j :: 0 <= i < |rows| && 0 <= j < |rows| && !rows[i].1.hasMedia && rows[j].1.hasMedia
  {
    var rows := Matching(s.order, s.index, f);
    var p := (r: (string, Entry)) => !r.1.hasMedia;
    forall k | 0 <= k < |rows|
      ensures Rank(RowKey("has_media")(rows[k])) == if p(rows[k]) then 1 else 4
    {
      HasMediaKey(rows[k].1);
    }
    MixedSplit(rows, RowKey("has_media"), p, 1, 4);
  }
}
