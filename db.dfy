/**
 * The `Database` object: the index held in memory beside the directory of
 * record files. Each method applies in place the store function of the
 * same name in `DbStore`, `DbQuery` or `DbStats`, so the properties proved
 * about those functions are properties of the object's state.
 */
module Db {
  import opened Wrappers
  import opened Models
  import opened Grouping
  import opened Tallies
  import opened Sorting
  import opened Text
  import opened DbStore
  import opened DbQuery
  import opened DbStats
  import ScraperBase

  class Database {
    /** The index keys in insertion order. */
    var order: seq<string>
    /** `_index`: post id to index entry. */
    var index: map<string, Entry>
    /** The record files of the posts directory, by post id. */
    var files: map<string, RecordFile>

    function State(): Store
      reads this
    {
      Store(order, index, files)
    }

    /** The order lists each indexed id once: what a dict's key order is. */
    ghost predicate Valid()
      reads this
    {
      DbStore.Valid(State())
    }

    /**
     * Opening the database: the index read from the index file when there
     * is one, and an empty index otherwise.
     */
    constructor (indexFile: Option<(seq<string>, map<string, Entry>)>, posts: map<string, RecordFile>)
      requires indexFile.Some? ==> DbStore.Valid(Store(indexFile.value.0, indexFile.value.1, posts))
      ensures indexFile.Some? ==> State() == Store(indexFile.value.0, indexFile.value.1, posts)
      ensures indexFile.None? ==> State() == Store([], map[], posts)
      ensures Valid()
    {
      if indexFile.Some? {
        order, index := indexFile.value.0, indexFile.value.1;
      } else {
        order, index := [], map[];
      }
      files := posts;
    }

    /** `save_post`: writes the record file, then the index entry. */
    method SavePost(p: Post)
      requires Valid()
      modifies this
      ensures State() == Saved(old(State()), p)
      ensures Valid()
    {
      SaveIndex(State(), p);
      files := files[p.id := Record(Stored(p))];
      if p.id !in index {
        order := order + [p.id];
      }
      index := index[p.id := Projection(p)];
    }

    /** `get_post`. */
    method GetPost(id: string) returns (r: Option<Post>)
      ensures r == Load(files, id)
    {
      if id !in files {
        return None;
      }
      match files[id]
      case Unreadable =>
        r := None;
      case Record(q) =>
        r := ValidatePost(q);
    }

    /** `delete_post`: removes the file, then the index entry if there is one. */
    method DeletePost(id: string) returns (deleted: bool)
      requires Valid()
      modifies this
      ensures (State(), deleted) == DbStore.Deleted(old(State()), id)
      ensures Valid()
    {
      if id !in files {
        return false;
      }
      ghost var s := State();
      files := files - {id};
      if id in index {
        order := Without(order, id);
        index := index - {id};
      } else {
        WithoutAbsent(order, id);
        assert index == s.index - {id};
      }
      deleted := true;
      assert State() == DbStore.Deleted(s, id).0;
      DeleteSpec(s, id);
    }

    /** `exists`. */
    method Exists(id: string) returns (b: bool)
      ensures b <==> DbStore.Exists(State(), id)
    {
      b := id in index;
    }

    /** `count`: the number of index entries. */
    method Count() returns (n: nat)
      requires Valid()
      ensures n == DbStore.Count(State()) && n == |index|
    {
      CountIsSize(State());
      n := |order|;
    }

    /**
     * `list_posts`: the matching index rows in index order, sorted, cut to
     * the page, and the records of that page that load; or the `TypeError`
     * of a sort over keys of two kinds.
     */
    method ListPosts(filters: Option<FilterOptions>) returns (result: Result<seq<Post>>)
      requires filters.Some? ==> filters.value.Valid()
      ensures result == ListResult(State(), FilterOr(filters))
    {
      var f := FilterOr(filters);
      var matching: seq<(string, Entry)> := [];
      for i := 0 to |order|
        invariant matching == Matching(order[..i], index, f)
      {
        assert order[..i + 1][..i] == order[..i];
        var id := order[i];
        if id in index && Matches(index[id], f) {
          matching := matching + [(id, index[id])];
        }
      }
      assert order[..|order|] == order;
      if Mixed(matching, RowKey(f.sortBy)) {
        return Failure(SortTypeError);
      }
      var sorted := SortBy(matching, RowKey(f.sortBy), f.sortDesc);
      var page := Page(sorted, f.offset, f.limit);
      var posts := [];
      for i := 0 to |page|
        invariant posts == LoadAll(files, Ids(page)[..i])
      {
        assert Ids(page)[..i + 1][..i] == Ids(page)[..i];
        var r := GetPost(page[i].0);
        if r.Some? {
          posts := posts + [r.value];
        }
      }
      assert Ids(page)[..|page|] == Ids(page);
      result := Success(posts);
    }

    /** `get_all_tags`: every tag of an indexed entry, once each, in increasing order. */
    method GetAllTags() returns (r: seq<string>)
      requires Valid()
      ensures StrictlySorted(r)
      ensures forall t :: t in r <==> exists id :: id in index && t in index[id].tags
    {
      var tags: seq<string> := [];
      for i := 0 to |order|
        invariant tags == TagsOf(EntriesOf(order[..i], index))
      {
        assert order[..i + 1][..i] == order[..i];
        if order[i] in index {
          tags := tags + index[order[i]].tags;
        }
      }
      assert order[..|order|] == order;
      IndexTags(State());
      r := SortedUnique(tags);
    }

    /** `get_all_categories`: every non-empty category of an indexed entry, once each, in increasing order. */
    method GetAllCategories() returns (r: seq<string>)
      requires Valid()
      ensures StrictlySorted(r)
      ensures forall c :: c in r <==> c != "" && exists id :: id in index && index[id].category == Some(c)
    {
      var categories: seq<string> := [];
      for i := 0 to |order|
        invariant categories == CategoriesOf(EntriesOf(order[..i], index))
      {
        assert order[..i + 1][..i] == order[..i];
        if order[i] in index {
          var c := index[order[i]].category;
          if ScraperBase.Truthy(c) {
            categories := categories + [c.value];
          }
        }
      }
      assert order[..|order|] == order;
      IndexCategories(State());
      r := SortedUnique(categories);
    }

    /** `get_all_authors`: every non-empty author of an indexed entry, once each, in increasing order. */
    method GetAllAuthors() returns (r: seq<string>)
      requires Valid()
      ensures StrictlySorted(r)
      ensures forall a :: a in r <==> a != "" && exists id :: id in index && index[id].author == Some(a)
    {
      var authors: seq<string> := [];
      for i := 0 to |order|
        invariant authors == AuthorsOf(EntriesOf(order[..i], index))
      {
        assert order[..i + 1][..i] == order[..i];
        if order[i] in index {
          var a := index[order[i]].author;
          if ScraperBase.Truthy(a) {
            authors := authors + [a.value];
          }
        }
      }
      assert order[..|order|] == order;
      IndexAuthors(State());
      r := SortedUnique(authors);
    }

    /** `update_tags`: false for a record that does not load; otherwise it is saved with the new tags. */
    method UpdateTags(id: string, tags: seq<string>) returns (updated: bool)
      requires Valid()
      modifies this
      ensures (State(), updated) == TagsUpdated(old(State()), id, tags)
      ensures Valid()
    {
      var q := GetPost(id);
      if q.None? {
        return false;
      }
      SavePost(q.value.(tags := tags));
      updated := true;
    }

    /** `update_category`: as `update_tags`, for the category. */
    method UpdateCategory(id: string, category: Option<string>) returns (updated: bool)
      requires Valid()
      modifies this
      ensures (State(), updated) == CategoryUpdated(old(State()), id, category)
      ensures Valid()
    {
      var q := GetPost(id);
      if q.None? {
        return false;
      }
      SavePost(q.value.(category := category));
      updated := true;
    }

    /** `get_stats`: one pass over the entries filling the counters, then the top 20 authors. */
    method GetStats() returns (st: Statistics)
      ensures st == StatsOf(State())
    {
      var t := Tallied(0, 0, 0, 0, 0, 0, [], [], 0);
      for i := 0 to |order|
        invariant t == Counted(EntriesOf(order[..i], index))
      {
        EntriesOfStep(order, index, i);
        ghost var es := EntriesOf(order[..i], index);
        var id := order[i];
        if id in index {
          var e := index[id];
          assert EntriesOf(order[..i + 1], index) == es + [e];
          CountedAppend(es, e);
          ghost var before := t;
          t := t.(total := t.total + 1);
          if e.status == "accessible" {
            t := t.(accessible := t.accessible + 1);
          } else if e.status == "private" {
            t := t.(private := t.private + 1);
          } else if e.status == "deleted" {
            t := t.(deleted := t.deleted + 1);
          } else if e.status == "pending" {
            t := t.(pending := t.pending + 1);
          } else if e.status == "failed" {
            t := t.(failed := t.failed + 1);
          }
          t := t.(byPlatform := Bump(t.byPlatform, e.platform));
          if ScraperBase.Truthy(e.author) {
            t := t.(byAuthor := Bump(t.byAuthor, e.author.value));
          }
          if e.hasMedia {
            t := t.(media := t.media + 1);
          }
          assert t == CountStep(before, e);
          assert t == Counted(es + [e]);
        } else {
          assert EntriesOf(order[..i + 1], index) == es;
        }
      }
      assert order[..|order|] == order;
      st := Statistics(t.total, |index|, t.accessible, t.private, t.deleted, t.pending, t.failed,
                       t.byPlatform, TopAuthors(t.byAuthor), t.media);
    }

    /**
     * `reindex` over the listing of the posts directory: every record file
     * that loads is indexed under its post id, and the number of such
     * files is returned.
     */
    method Reindex(listing: seq<string>) returns (count: nat)
      requires Distinct(listing) && forall n :: n in listing <==> n in files
      requires Valid()
      modifies this
      ensures (State(), count) == Rebuilt(old(files), listing)
      ensures Valid() && files == old(files)
      ensures WellNamed(files) ==> Consistent(State()) && count == DbStore.Count(State())
      ensures WellNamed(files) ==> forall id :: id in index <==> id in files && Load(files, id).Some?
    {
      var newOrder: seq<string> := [];
      var newIndex: map<string, Entry> := map[];
      count := 0;
      for i := 0 to |listing|
        invariant files == old(files)
        invariant (Store(newOrder, newIndex, files), count) == Rebuilt(files, listing[..i])
      {
        assert listing[..i + 1][..i] == listing[..i];
        var r := GetPost(listing[i]);
        if r.Some? {
          var q := r.value;
          if q.id !in newIndex {
            newOrder := newOrder + [q.id];
          }
          newIndex := newIndex[q.id := Projection(q)];
          count := count + 1;
        }
      }
      assert listing[..|listing|] == listing;
      RebuiltFiles(files, listing);
      if WellNamed(files) {
        RebuiltWellNamed(files, listing);
      }
      order, index := newOrder, newIndex;
    }

    /** `get_analytics`: one pass filling the four reports, then authors by count, highest first. */
    method GetAnalytics() returns (a: Analytics)
      ensures a == AnalyticsOf(State())
    {
      var platforms: seq<(string, nat)> := [];
      var statuses: seq<(string, nat)> := [];
      var image, video, carousel := 0, 0, 0;
      var authors: seq<AuthorStat> := [];
      for i := 0 to |order|
        invariant var es := EntriesOf(order[..i], index);
          platforms == Tally(es, EntryPlatform) && statuses == Tally(es, EntryStatus)
          && image == MediaTypeCount(es, "image") && video == MediaTypeCount(es, "video")
          && carousel == MediaTypeCount(es, "carousel") && authors == AuthorTable(es)
      {
        EntriesOfStep(order, index, i);
        ghost var es := EntriesOf(order[..i], index);
        var id := order[i];
        if id in index {
          var e := index[id];
          assert EntriesOf(order[..i + 1], index) == es + [e];
          AnalyticsAppend(es, e);
          platforms := Bump(platforms, e.platform);
          statuses := Bump(statuses, e.status);
          if e.mediaType == Some("image") {
            image := image + 1;
          } else if e.mediaType == Some("video") {
            video := video + 1;
          } else if e.mediaType == Some("carousel") {
            carousel := carousel + 1;
          }
          authors := BumpAuthor(authors, AuthorOrUnknown(e), LikesOf(e), CommentsOf(e));
        } else {
          assert EntriesOf(order[..i + 1], index) == es;
        }
      }
      assert order[..|order|] == order;
      a := Analytics(platforms, SortBy(authors, ByCount, true),
                     [("image", image), ("video", video), ("carousel", carousel)], statuses);
    }
  }

  /** The loop body of `get_analytics` keeps each report equal to its definition. */
  lemma AnalyticsAppend(es: seq<Entry>, e: Entry)
    ensures Tally(es + [e], EntryPlatform) == Bump(Tally(es, EntryPlatform), e.platform)
    ensures Tally(es + [e], EntryStatus) == Bump(Tally(es, EntryStatus), e.status)
    ensures forall t :: MediaTypeCount(es + [e], t) == MediaTypeCount(es, t) + (if e.mediaType == Some(t) then 1 else 0)
    ensures AuthorTable(es + [e]) == BumpAuthor(AuthorTable(es), AuthorOrUnknown(e), LikesOf(e), CommentsOf(e))
  {
    TallyAppend(es, e, EntryPlatform);
    TallyAppend(es, e, EntryStatus);
    forall t {
      WithKeyAppend(es, e, EntryMediaType, Some(t));
    }
    assert (es + [e])[..|es|] == es;
  }
}
