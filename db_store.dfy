/**
 * The record store as a value: the index (post id to a projection of the
 * record, in insertion order, as a Python dict keeps it) beside the
 * directory of record files, one per post id. Saving, loading, deleting,
 * retagging and rebuilding the index are functions of the store; the
 * `Database` class applies them in place.
 */
module DbStore {
  import opened Wrappers
  import opened Models
  import opened Grouping
  import ScraperBase
  import opened Text

  /** The index entry of a record: the fields kept for fast filtering, sorting and the dashboard. */
  datatype Entry = Entry(
    url: string,
    platform: string,
    author: Option<string>,
    status: string,
    postedAt: Option<Instant>,
    scrapedAt: Option<Instant>,
    tags: seq<string>,
    category: Option<string>,
    hasMedia: bool,
    mediaType: Option<string>,
    views: Option<int>,
    likes: Option<int>,
    comments: Option<int>,
    thumbnailPath: Option<string>)

  /** The entry `save_post` and `reindex` write for a record; enums are stored by value. */
  function Projection(p: Post): (e: Entry)
    ensures e.hasMedia <==> p.mediaPaths != []
  {
    Entry(p.url, PlatformValue(p.platform), p.author, StatusValue(p.status), p.postedAt, p.scrapedAt,
          p.tags, p.category, p.mediaPaths != [], p.mediaType, p.views, p.likes, p.comments, p.thumbnailPath)
  }

  /**
   * A record file: front matter and body that parse to a record, or a file
   * that does not parse. The record is the one the file parses to, so its
   * content is the body with surrounding whitespace stripped, as
   * python-frontmatter returns it.
   */
  datatype RecordFile = Record(post: Post) | Unreadable

  /** `body.strip()` as python-frontmatter applies it when a record file is read. */
  function StripBody(body: string): (r: string)
    decreases |body|
  {
    if body != [] && IsSpace(body[0]) then StripBody(body[1..])
    else if body != [] && IsSpace(body[|body| - 1]) then StripBody(body[..|body| - 1])
    else body
  }

  /**
   * The stripped body is a slice of the body with only whitespace around
   * it, and it neither starts nor ends with whitespace.
   */
  lemma {:induction false} StripBodyShape(body: string) returns (i: nat)
    ensures var r := StripBody(body);
      r == [] || (!IsSpace(r[0]) && !IsSpace(r[|r| - 1]))
    ensures var r := StripBody(body);
      i <= |body| - |r| && r == body[i..i + |r|]
      && (forall k :: 0 <= k < i ==> IsSpace(body[k]))
      && (forall k :: i + |r| <= k < |body| ==> IsSpace(body[k]))
    decreases |body|
  {
    var r := StripBody(body);
    if body != [] && IsSpace(body[0]) {
      var t := body[1..];
      var j := StripBodyShape(t);
      i := j + 1;
      assert r == body[i..i + |r|];
      assert forall k :: 1 <= k < i ==> body[k] == t[k - 1];
    } else if body != [] && IsSpace(body[|body| - 1]) {
      var t := body[..|body| - 1];
      i := StripBodyShape(t);
      assert r == body[i..i + |r|];
    } else {
      i := 0;
      assert r == body[0..|body|];
    }
  }

  /** A body without surrounding whitespace is stored as it is. */
  lemma StripBodyKeeps(body: string)
    requires body == [] || (!IsSpace(body[0]) && !IsSpace(body[|body| - 1]))
    ensures StripBody(body) == body
  {
  }

  /**
   * The record a file written by `save_post(p)` parses back to: the body
   * is the content or "", stripped of surrounding whitespace when the file
   * is read, and the note is kept only when it is non-empty. Every other
   * field is written as it is.
   */
  function Stored(p: Post): (q: Post)
    ensures q.content.Some?
    ensures q.note.Some? ==> q.note == p.note
    ensures q.(content := p.content, note := p.note) == p
  {
    p.(content := Some(StripBody(if p.content.Some? then p.content.value else "")),
       note := if ScraperBase.Truthy(p.note) then p.note else None)
  }

  /** `get_post` on the files: the record, unless the file is missing, does not parse or fails validation. */
  function Load(files: map<string, RecordFile>, id: string): (r: Option<Post>)
    ensures r.Some? ==> id in files && files[id] == Record(r.value) && MetricsValid(r.value)
    ensures r.None? ==> id !in files || files[id].Unreadable? || !MetricsValid(files[id].post)
  {
    if id !in files then None
    else
      match files[id]
      case Unreadable => None
      case Record(q) => ValidatePost(q)
  }

  /** The records of the files `names` that load, in order. */
  function LoadAll(files: map<string, RecordFile>, names: seq<string>): seq<Post>
    decreases |names|
  {
    if names == [] then []
    else
      var init := LoadAll(files, names[..|names| - 1]);
      match Load(files, names[|names| - 1])
      case None => init
      case Some(q) => init + [q]
  }

  /** The index keys in insertion order, the index itself, and the record files keyed by post id. */
  datatype Store = Store(order: seq<string>, index: map<string, Entry>, files: map<string, RecordFile>)

  /** The order lists each indexed id exactly once. */
  ghost predicate Valid(s: Store)
  {
    Distinct(s.order) && forall id :: id in s.order <==> id in s.index
  }

  /** Every indexed record that loads is the one its entry projects. */
  ghost predicate Consistent(s: Store)
  {
    forall id :: id in s.index && Load(s.files, id).Some? ==> Projection(Load(s.files, id).value) == s.index[id]
  }

  /** Every record file that loads holds the post its name says. */
  ghost predicate WellNamed(files: map<string, RecordFile>)
  {
    forall n :: n in files && Load(files, n).Some? ==> Load(files, n).value.id == n
  }

  /** `exists`: the index alone decides. */
  predicate Exists(s: Store, id: string)
  {
    id in s.index
  }

  /** `count`. */
  function Count(s: Store): nat
  {
    |s.order|
  }

  /** `_index[id] = e`: an id already present keeps its place, a new one goes last. */
  function IndexPut(s: Store, id: string, e: Entry): Store
  {
    s.(order := if id in s.index then s.order else s.order + [id], index := s.index[id := e])
  }

  /** `save_post`: the record file and the index entry of `p.id`. */
  function Saved(s: Store, p: Post): Store
  {
    IndexPut(s, p.id, Projection(p)).(files := s.files[p.id := Record(Stored(p))])
  }

  /** `xs` without `x`. */
  function Without(xs: seq<string>, x: string): seq<string>
    decreases |xs|
  {
    if xs == [] then []
    else Without(xs[..|xs| - 1], x) + (if xs[|xs| - 1] == x then [] else [xs[|xs| - 1]])
  }

  /** `delete_post`: nothing without a file; otherwise the file and any index entry go, and the result is true. */
  function Deleted(s: Store, id: string): (Store, bool)
  {
    if id !in s.files then (s, false)
    else (Store(Without(s.order, id), s.index - {id}, s.files - {id}), true)
  }

  /** `update_tags`: loads the record and saves it with the new tags. */
  function TagsUpdated(s: Store, id: string, tags: seq<string>): (Store, bool)
  {
    match Load(s.files, id)
    case None => (s, false)
    case Some(q) => (Saved(s, q.(tags := tags)), true)
  }

  /** `update_category`: loads the record and saves it with the new category. */
  function CategoryUpdated(s: Store, id: string, category: Option<string>): (Store, bool)
  {
    match Load(s.files, id)
    case None => (s, false)
    case Some(q) => (Saved(s, q.(category := category)), true)
  }

  /** `reindex` over the record files `names`, in listing order: the rebuilt store and the number of records parsed. */
  function Rebuilt(files: map<string, RecordFile>, names: seq<string>): (Store, nat)
    decreases |names|
  {
    if names == [] then (Store([], map[], files), 0)
    else
      var prev := Rebuilt(files, names[..|names| - 1]);
      match Load(files, names[|names| - 1])
      case None => prev
      case Some(q) => (IndexPut(prev.0, q.id, Projection(q)), prev.1 + 1)
  }

  // ---------------------------------------------------------------- lemmas

  lemma IndexPutValid(s: Store, id: string, e: Entry)
    requires Valid(s)
    ensures Valid(IndexPut(s, id, e))
  {
    if id !in s.index {
      DistinctAppend(s.order, id);
    }
  }

  /**
   * After `save_post(p)` the id exists and its entry is the projection of
   * `p`; every other entry is unchanged; an id already indexed keeps its
   * place and a new one is appended.
   */
  lemma SaveIndex(s: Store, p: Post)
    requires Valid(s)
    ensures Valid(Saved(s, p))
    ensures Exists(Saved(s, p), p.id) && Saved(s, p).index[p.id] == Projection(p)
    ensures forall id :: id != p.id ==> (Exists(Saved(s, p), id) <==> Exists(s, id))
    ensures forall id :: id != p.id && id in s.index ==> Saved(s, p).index[id] == s.index[id]
    ensures Count(Saved(s, p)) == if Exists(s, p.id) then Count(s) else Count(s) + 1
    ensures s.order <= Saved(s, p).order
  {
    IndexPutValid(s, p.id, Projection(p));
  }

  /**
   * Loading what `save_post(p)` wrote gives `p` back with its content
   * made present and stripped, and an empty note dropped (when `p` passes validation);
   * every other file loads as before.
   */
  lemma SaveThenGet(s: Store, p: Post)
    ensures Load(Saved(s, p).files, p.id).Some? <==> MetricsValid(p)
    ensures MetricsValid(p) ==> Load(Saved(s, p).files, p.id) == Some(Stored(p))
    ensures forall id :: id != p.id ==> Load(Saved(s, p).files, id) == Load(s.files, id)
  {
  }

  /**
   * Saving a loaded record again writes the same file; the index entry
   * does not see the normalisation; and exactly the records with content
   * that has no surrounding whitespace and without an empty note come
   * back unchanged.
   */
  lemma StoredRoundTrip(p: Post)
    ensures Stored(Stored(p)) == Stored(p)
    ensures Projection(Stored(p)) == Projection(p)
    ensures Stored(p) == p <==> p.content.Some? && StripBody(p.content.value) == p.content.value && p.note != Some("")
  {
    var c := Stored(p).content.value;
    var _ := StripBodyShape(if p.content.Some? then p.content.value else "");
    StripBodyKeeps(c);
  }

  lemma SaveConsistent(s: Store, p: Post)
    requires Consistent(s)
    ensures Consistent(Saved(s, p))
  {
    StoredRoundTrip(p);
  }

  lemma SaveWellNamed(s: Store, p: Post)
    requires WellNamed(s.files)
    ensures WellNamed(Saved(s, p).files)
  {
  }

  lemma {:induction false} WithoutMembers(xs: seq<string>, x: string)
    ensures forall y :: y in Without(xs, x) <==> y in xs && y != x
    decreases |xs|
  {
    if xs != [] {
      WithoutMembers(xs[..|xs| - 1], x);
      assert xs == xs[..|xs| - 1] + [xs[|xs| - 1]];
    }
  }

  lemma {:induction false} WithoutAbsent(xs: seq<string>, x: string)
    requires x !in xs
    ensures Without(xs, x) == xs
    decreases |xs|
  {
    if xs != [] {
      WithoutAbsent(xs[..|xs| - 1], x);
      assert xs == xs[..|xs| - 1] + [xs[|xs| - 1]];
    }
  }

  lemma {:induction false} WithoutDistinct(xs: seq<string>, x: string)
    requires Distinct(xs)
    ensures Distinct(Without(xs, x))
    decreases |xs|
  {
    if xs != [] {
      var init, last := xs[..|xs| - 1], xs[|xs| - 1];
      assert forall i, j :: 0 <= i < j < |init| ==> init[i] == xs[i] && init[j] == xs[j];
      WithoutDistinct(init, x);
      WithoutMembers(init, x);
      if last != x {
        assert last !in init;
        DistinctAppend(Without(init, x), last);
      }
    }
  }

  /**
   * `delete_post` returns false and changes nothing when the file is
   * absent; otherwise it returns true, and the id neither exists nor
   * loads afterwards while every other id is untouched.
   */
  lemma DeleteSpec(s: Store, id: string)
    requires Valid(s)
    ensures var (t, deleted) := Deleted(s, id);
      deleted <==> id in s.files
    ensures var (t, deleted) := Deleted(s, id);
      !deleted ==> t == s
    ensures var (t, deleted) := Deleted(s, id);
      deleted ==> Valid(t) && !Exists(t, id) && Load(t.files, id).None?
    ensures var (t, deleted) := Deleted(s, id);
      forall n :: n != id ==> (Exists(t, n) <==> Exists(s, n)) && Load(t.files, n) == Load(s.files, n)
  {
    if id in s.files {
      WithoutDistinct(s.order, id);
      WithoutMembers(s.order, id);
    }
  }

  lemma DeleteConsistent(s: Store, id: string)
    requires Consistent(s)
    ensures Consistent(Deleted(s, id).0)
  {
  }

  /**
   * `update_tags` is false and changes nothing for a record that does not
   * load; otherwise only the tags change: the record of a well-named file
   * loads back with the new tags, and every other file and entry is as
   * before.
   */
  lemma UpdateTagsSpec(s: Store, id: string, tags: seq<string>)
    requires Valid(s) && WellNamed(s.files)
    ensures TagsUpdated(s, id, tags).1 <==> Load(s.files, id).Some?
    ensures !TagsUpdated(s, id, tags).1 ==> TagsUpdated(s, id, tags).0 == s
    ensures var t := TagsUpdated(s, id, tags).0;
      Valid(t) && WellNamed(t.files)
    ensures var t := TagsUpdated(s, id, tags).0;
      Load(s.files, id).Some? ==>
        Load(t.files, id) == Some(Stored(Load(s.files, id).value).(tags := tags))
    ensures var t := TagsUpdated(s, id, tags).0;
      forall n :: n != id ==> Load(t.files, n) == Load(s.files, n) && (Exists(t, n) <==> Exists(s, n))
  {
    match Load(s.files, id)
    case None =>
    case Some(q) =>
      SaveIndex(s, q.(tags := tags));
      SaveWellNamed(s, q.(tags := tags));
  }

  /** `update_category`: as `update_tags`, for the category. */
  lemma UpdateCategorySpec(s: Store, id: string, category: Option<string>)
    requires Valid(s) && WellNamed(s.files)
    ensures CategoryUpdated(s, id, category).1 <==> Load(s.files, id).Some?
    ensures !CategoryUpdated(s, id, category).1 ==> CategoryUpdated(s, id, category).0 == s
    ensures var t := CategoryUpdated(s, id, category).0;
      Valid(t) && WellNamed(t.files)
    ensures var t := CategoryUpdated(s, id, category).0;
      Load(s.files, id).Some? ==>
        Load(t.files, id) == Some(Stored(Load(s.files, id).value).(category := category))
    ensures var t := CategoryUpdated(s, id, category).0;
      forall n :: n != id ==> Load(t.files, n) == Load(s.files, n) && (Exists(t, n) <==> Exists(s, n))
  {
    match Load(s.files, id)
    case None =>
    case Some(q) =>
      SaveIndex(s, q.(category := category));
      SaveWellNamed(s, q.(category := category));
  }

  lemma {:induction false} DistinctCard(xs: seq<string>)
    requires Distinct(xs)
    ensures |set x | x in xs| == |xs|
    decreases |xs|
  {
    if xs != [] {
      var init, last := xs[..|xs| - 1], xs[|xs| - 1];
      assert forall i, j :: 0 <= i < j < |init| ==> init[i] == xs[i] && init[j] == xs[j];
      DistinctCard(init);
      assert xs == init + [last];
      assert (set x | x in xs) == (set x | x in init) + {last};
      assert last !in init;
    }
  }

  /** `count` is the number of index entries. */
  lemma CountIsSize(s: Store)
    requires Valid(s)
    ensures Count(s) == |s.index|
  {
    DistinctCard(s.order);
    assert s.index.Keys == set x | x in s.order;
  }

  lemma {:induction false} RebuiltFiles(files: map<string, RecordFile>, names: seq<string>)
    ensures Valid(Rebuilt(files, names).0) && Rebuilt(files, names).0.files == files
    ensures Rebuilt(files, names).1 == |LoadAll(files, names)|
    ensures Count(Rebuilt(files, names).0) <= Rebuilt(files, names).1
    decreases |names|
  {
    if names != [] {
      var init := names[..|names| - 1];
      RebuiltFiles(files, init);
      var prev := Rebuilt(files, init);
      match Load(files, names[|names| - 1])
      case None =>
      case Some(q) =>
        IndexPutValid(prev.0, q.id, Projection(q));
    }
  }

  lemma RebuiltStep(files: map<string, RecordFile>, names: seq<string>)
    requires names != [] && WellNamed(files)
    requires names[|names| - 1] !in Rebuilt(files, names[..|names| - 1]).0.index
    ensures var t, prev := Rebuilt(files, names).0, Rebuilt(files, names[..|names| - 1]).0;
      var last := names[|names| - 1];
      (forall id :: id in t.index <==> id in prev.index || (id == last && Load(files, last).Some?))
      && (forall id :: id in prev.index ==> t.index[id] == prev.index[id])
      && (Load(files, last).Some? ==> t.index[last] == Projection(Load(files, last).value))
      && (Count(t) == Count(prev) + (if Load(files, last).Some? then 1 else 0))
  {
    var last := names[|names| - 1];
    var prev := Rebuilt(files, names[..|names| - 1]);
    match Load(files, last)
    case None =>
      assert Rebuilt(files, names) == prev;
    case Some(q) =>
      assert last in files && q.id == last;
      assert Rebuilt(files, names).0 == IndexPut(prev.0, last, Projection(q));
      IndexPutNew(prev.0, last, Projection(q));
  }

  lemma IndexPutNew(s: Store, id: string, e: Entry)
    requires id !in s.index
    ensures forall x :: x in IndexPut(s, id, e).index <==> x in s.index || x == id
    ensures forall x :: x in s.index ==> IndexPut(s, id, e).index[x] == s.index[x]
    ensures IndexPut(s, id, e).index[id] == e && Count(IndexPut(s, id, e)) == Count(s) + 1
  {
  }

  /** Over a duplicate-free listing of well-named files, exactly the files that load are indexed, each by its projection. */
  lemma {:induction false} RebuiltKeys(files: map<string, RecordFile>, names: seq<string>)
    requires WellNamed(files) && Distinct(names)
    ensures var t := Rebuilt(files, names).0;
      forall id :: id in t.index <==> id in names && Load(files, id).Some?
    ensures var t := Rebuilt(files, names).0;
      forall id :: id in t.index ==> Load(files, id).Some? && t.index[id] == Projection(Load(files, id).value)
    decreases |names|
  {
    if names != [] {
      var init, last := names[..|names| - 1], names[|names| - 1];
      assert forall i, j :: 0 <= i < j < |init| ==> init[i] == names[i] && init[j] == names[j];
      RebuiltKeys(files, init);
      assert names == init + [last];
      assert last !in init;
      RebuiltStep(files, names);
    }
  }

  lemma {:induction false} RebuiltCount(files: map<string, RecordFile>, names: seq<string>)
    requires WellNamed(files) && Distinct(names)
    ensures Count(Rebuilt(files, names).0) == Rebuilt(files, names).1
    decreases |names|
  {
    if names != [] {
      var init, last := names[..|names| - 1], names[|names| - 1];
      assert forall i, j :: 0 <= i < j < |init| ==> init[i] == names[i] && init[j] == names[j];
      RebuiltCount(files, init);
      RebuiltKeys(files, init);
      assert last !in init by {
        assert names == init + [last];
      }
      RebuiltStep(files, names);
    }
  }

  /**
   * `reindex` over a duplicate-free listing of well-named files: exactly
   * the files that load are indexed, each entry is its record's
   * projection, the index is consistent with the files, and the count
   * returned is the number of entries.
   */
  lemma RebuiltWellNamed(files: map<string, RecordFile>, names: seq<string>)
    requires WellNamed(files) && Distinct(names)
    ensures var t := Rebuilt(files, names).0;
      Valid(t) && t.files == files
    ensures var t := Rebuilt(files, names).0;
      forall id :: id in t.index <==> id in names && Load(files, id).Some?
    ensures var t := Rebuilt(files, names).0;
      forall id :: id in t.index ==> Load(files, id).Some? && t.index[id] == Projection(Load(files, id).value)
    ensures Consistent(Rebuilt(files, names).0)
    ensures Count(Rebuilt(files, names).0) == Rebuilt(files, names).1
  {
    RebuiltFiles(files, names);
    RebuiltKeys(files, names);
    RebuiltCount(files, names);
  }
}
