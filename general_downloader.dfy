/**
 * The general download manager: per-item dispatch by media type, and for
 * images the file name derived from the title or the URL, its extension,
 * its cleaning and the search for a name that is not taken.
 *
 * The save directory is a map from file name to size; the names next to
 * it in its parent directory are a set, since a cleaned name that is
 * empty makes the source write beside the directory.
 */
module GeneralDownloader {
  import opened Wrappers
  import opened Text
  import opened Extractor
  import opened PathNames

  // ---- the base name ----

  /** `url.split('/')[-1]`. */
  function LastSegment(url: string): string
  {
    var parts := Split(url, '/');
    parts[|parts| - 1]
  }

  /** A split with one piece leaves the string whole. */
  lemma {:induction false} SplitSingle(s: string, sep: char)
    requires |Split(s, sep)| == 1
    ensures Split(s, sep)[0] == s
    decreases |s|
  {
    if s != [] {
      SplitSingle(s[1..], sep);
      assert [s[0]] + s[1..] == s;
    }
  }

  /** The last segment is what follows the last '/', or the whole URL when it has none. */
  lemma {:induction false} LastSegmentShape(url: string)
    ensures '/' !in LastSegment(url)
    ensures |LastSegment(url)| <= |url| && LastSegment(url) == url[|url| - |LastSegment(url)|..]
    ensures |LastSegment(url)| < |url| ==> url[|url| - |LastSegment(url)| - 1] == '/'
    decreases |url|
  {
    var parts := Split(url, '/');
    assert '/' !in parts[|parts| - 1];
    if url != [] {
      var t := url[1..];
      var rest := Split(t, '/');
      LastSegmentShape(t);
      var l := rest[|rest| - 1];
      if url[0] != '/' && |rest| == 1 {
        SplitSingle(t, '/');
        assert LastSegment(url) == [url[0]] + t == url;
      } else {
        assert LastSegment(url) == l;
        assert url[|url| - |l|..] == t[|t| - |l|..];
        if |l| == |t| {
          assert l == t;
          SplitNoSep(t, '/');
          assert |rest| == 1;
        } else {
          assert url[|url| - |l| - 1] == t[|t| - |l| - 1];
        }
      }
    }
  }

  /** `name.split('?')[0]` when there is a '?', else the name. */
  function BeforeQuery(name: string): string
  {
    if '?' in name then Split(name, '?')[0] else name
  }

  /** The cut is a prefix without '?', and only a '?' ends it early. */
  lemma {:induction false} BeforeQueryShape(name: string)
    ensures '?' !in BeforeQuery(name)
    ensures |BeforeQuery(name)| <= |name| && BeforeQuery(name) == name[..|BeforeQuery(name)|]
    ensures |BeforeQuery(name)| < |name| ==> name[|BeforeQuery(name)|] == '?'
    decreases |name|
  {
    if '?' in name && name[0] != '?' {
      assert '?' in name[1..];
      BeforeQueryShape(name[1..]);
      assert Split(name, '?')[0] == [name[0]] + Split(name[1..], '?')[0];
    }
  }

  /** The name before an extension: the title when it is set and at most 50 characters, else from the URL. */
  function BaseName(title: Option<string>, url: string): (r: string)
    ensures title.Some? && title.value != [] && |title.value| <= 50 ==> r == title.value
    ensures !(title.Some? && title.value != [] && |title.value| <= 50) ==>
      r == BeforeQuery(LastSegment(url)) && '/' !in r && '?' !in r
  {
    if title.Some? && title.value != [] && |title.value| <= 50 then title.value
    else
      LastSegmentShape(url);
      BeforeQueryShape(LastSegment(url));
      var r := BeforeQuery(LastSegment(url));
      assert forall k :: 0 <= k < |r| ==> r[k] == LastSegment(url)[k];
      r
  }

  /** The extension for a name without a dot, from the `content-type` header (empty when absent). */
  function ExtensionFor(contentType: string): (e: string)
    ensures e == ".jpg" || e == ".png" || e == ".gif"
    ensures (Contains(contentType, "jpeg") || Contains(contentType, "jpg")) ==> e == ".jpg"
    ensures e == ".png" <==> !Contains(contentType, "jpeg") && !Contains(contentType, "jpg") && Contains(contentType, "png")
    ensures e == ".gif" <==> (!Contains(contentType, "jpeg") && !Contains(contentType, "jpg") && !Contains(contentType, "png")
      && Contains(contentType, "gif"))
  {
    if Contains(contentType, "jpeg") || Contains(contentType, "jpg") then ".jpg"
    else if Contains(contentType, "png") then ".png"
    else if Contains(contentType, "gif") then ".gif"
    else ".jpg"
  }

  /** The name with an extension added when it has no dot at all. */
  function WithExtension(name: string, contentType: Option<string>): (r: string)
    ensures '.' in r
    ensures '.' in name ==> r == name
    ensures '.' !in name ==> r == name + ExtensionFor(if contentType.Some? then contentType.value else "")
  {
    if '.' in name then name
    else
      var e := ExtensionFor(if contentType.Some? then contentType.value else "");
      assert (name + e)[|name|] == '.';
      name + e
  }

  // ---- cleaning ----

  /** The characters a file name keeps: letters, digits (`isalpha`, `isdigit`) and ` ._-()`. */
  predicate Allowed(c: char)
  {
    IsAlpha(c) || IsUnicodeDigit(c) || c in " ._-()"
  }

  /** The only whitespace a file name keeps is the plain space. */
  lemma AllowedSpace(c: char)
    requires Allowed(c) && IsSpace(c)
    ensures c == ' '
  {
  }

  /** The allowed characters of `s`, in order. */
  function KeepAllowed(s: string): (r: string)
    ensures |r| <= |s|
    ensures forall k :: 0 <= k < |r| ==> Allowed(r[k])
    ensures (forall k :: 0 <= k < |s| ==> Allowed(s[k])) ==> r == s
  {
    if s == [] then []
    else
      var init := KeepAllowed(s[..|s| - 1]);
      assert forall k :: 0 <= k < |s| - 1 ==> s[..|s| - 1][k] == s[k];
      if Allowed(s[|s| - 1]) then
        assert s[..|s| - 1] + [s[|s| - 1]] == s;
        init + [s[|s| - 1]]
      else init
  }

  /** Each allowed character is kept as often as it occurs, and every other character is dropped. */
  lemma {:induction false} KeepAllowedCounts(s: string)
    ensures forall c :: multiset(KeepAllowed(s))[c] == if Allowed(c) then multiset(s)[c] else 0
    decreases |s|
  {
    if s != [] {
      var init := s[..|s| - 1];
      KeepAllowedCounts(init);
      assert s == init + [s[|s| - 1]];
    }
  }

  /** Filtering distributes over concatenation, so the kept characters keep their order. */
  lemma {:induction false} KeepAllowedAppend(a: string, b: string)
    ensures KeepAllowed(a + b) == KeepAllowed(a) + KeepAllowed(b)
    decreases |b|
  {
    if b != [] {
      var init := b[..|b| - 1];
      KeepAllowedAppend(a, init);
      assert (a + b)[..|a + b| - 1] == a + init;
      assert (a + b)[|a + b| - 1] == b[|b| - 1];
    } else {
      assert a + b == a;
    }
  }

  /** `"".join(c for c in name if allowed(c)).rstrip()`: the kept characters without their trailing spaces. */
  function CleanName(name: string): (r: string)
    ensures forall k :: 0 <= k < |r| ==> Allowed(r[k])
    ensures r == [] || r[|r| - 1] != ' '
    ensures |r| <= |KeepAllowed(name)| <= |name|
    ensures KeepAllowed(name) == r + seq(|KeepAllowed(name)| - |r|, _ => ' ')
  {
    var kept := KeepAllowed(name);
    var r := TrimEnd(kept, IsSpace);
    assert forall k :: 0 <= k < |r| ==> r[k] == kept[k];
    forall k | |r| <= k < |kept|
      ensures kept[k] == ' '
    {
      AllowedSpace(kept[k]);
    }
    assert kept == r + kept[|r|..];
    r
  }

  /** Cleaning a clean name changes nothing. */
  lemma CleanNameIdempotent(name: string)
    ensures CleanName(CleanName(name)) == CleanName(name)
  {
    var r := CleanName(name);
    assert KeepAllowed(r) == r;
  }

  /** The image's file name before the collision search. */
  function ImageName(title: Option<string>, url: string, contentType: Option<string>): string
  {
    CleanName(WithExtension(BaseName(title, url), contentType))
  }

  // ---- a name that is not taken ----

  /** `f"{stem}_{counter}{suffix}"`. */
  function Candidate(stem: string, k: nat, suffix: string): string
  {
    stem + "_" + NatToString(k) + suffix
  }

  lemma CandidatesDiffer(stem: string, j: nat, k: nat, suffix: string)
    requires j != k
    ensures Candidate(stem, j, suffix) != Candidate(stem, k, suffix)
  {
    NatToStringValue(j);
    NatToStringValue(k);
    var a, b := NatToString(j), NatToString(k);
    if |a| == |b| {
      var n := |stem| + 1;
      assert Candidate(stem, j, suffix)[n..n + |a|] == a;
      assert Candidate(stem, k, suffix)[n..n + |b|] == b;
    } else {
      assert |Candidate(stem, j, suffix)| != |Candidate(stem, k, suffix)|;
    }
  }

  /** The candidates numbered 1 to `k - 1`. */
  function Tried(stem: string, suffix: string, k: nat): set<string>
  {
    set j | 1 <= j < k :: Candidate(stem, j, suffix)
  }

  lemma {:induction false} TriedSize(stem: string, suffix: string, k: nat)
    requires k >= 1
    ensures |Tried(stem, suffix, k)| == k - 1
    decreases k
  {
    if k == 1 {
      assert Tried(stem, suffix, k) == {};
    } else {
      var c := Candidate(stem, k - 1, suffix);
      forall j | 1 <= j < k - 1
        ensures Candidate(stem, j, suffix) != c
      {
        CandidatesDiffer(stem, j, k - 1, suffix);
      }
      assert Tried(stem, suffix, k) == Tried(stem, suffix, k - 1) + {c};
      TriedSize(stem, suffix, k - 1);
    }
  }

  lemma SubsetSize(a: set<string>, b: set<string>)
    requires a <= b
    ensures |a| <= |b|
  {
    assert b == a + (b - a);
  }

  /** The first counter from `k` on whose candidate is free; the ones before are all taken. */
  function FirstFreeFrom(taken: set<string>, stem: string, suffix: string, k: nat): (r: nat)
    requires k >= 1 && forall j :: 1 <= j < k ==> Candidate(stem, j, suffix) in taken
    ensures r >= k && Candidate(stem, r, suffix) !in taken
    ensures forall j :: 1 <= j < r ==> Candidate(stem, j, suffix) in taken
    decreases |taken| - (k - 1)
  {
    if Candidate(stem, k, suffix) !in taken then k
    else
      TriedSize(stem, suffix, k + 1);
      SubsetSize(Tried(stem, suffix, k + 1), taken);
      FirstFreeFrom(taken, stem, suffix, k + 1)
  }

  /** The name the collision loop settles on: the name itself when free, else its first free numbered variant. */
  function ChooseName(taken: set<string>, name: string): (r: string)
    ensures r !in taken
    ensures name !in taken ==> r == name
  {
    if name !in taken then name
    else Candidate(Stem(name), FirstFreeFrom(taken, Stem(name), Suffix(name), 1), Suffix(name))
  }

  /** A taken name gives the numbered variant with the smallest counter that is free, keeping the suffix. */
  lemma ChooseNameSmallest(taken: set<string>, name: string)
    requires name in taken
    ensures exists k :: (k >= 1 && ChooseName(taken, name) == Stem(name) + "_" + NatToString(k) + Suffix(name)
      && forall j :: 1 <= j < k ==> Candidate(Stem(name), j, Suffix(name)) in taken)
  {
    var k := FirstFreeFrom(taken, Stem(name), Suffix(name), 1);
    assert ChooseName(taken, name) == Candidate(Stem(name), k, Suffix(name));
  }

  // ---- the directories ----

  /** Where a file goes: into the save directory, or beside it in its parent. */
  datatype Place = InDir(name: string) | Beside(name: string)

  /** The save directory and the names in its parent directory. */
  datatype Dirs = Dirs(files: map<string, nat>, beside: set<string>)

  /** The names that exist in the save directory: its files and `..`. */
  function TakenInDir(d: Dirs): set<string>
  {
    d.files.Keys + {".."}
  }

  /**
   * `save_dir / name` after the collision loop. A cleaned name that is empty
   * or "." is the save directory itself, which exists, so the loop numbers
   * the directory's own name in its parent.
   */
  function ImagePlace(d: Dirs, dirName: string, name: string): (p: Place)
    ensures (name == "" || name == ".") ==> p.Beside? && p.name !in d.beside && p.name != dirName
    ensures !(name == "" || name == ".") ==> p == InDir(ChooseName(TakenInDir(d), name))
    ensures p.InDir? ==> p.name !in d.files
  {
    if name == "" || name == "." then Beside(ChooseName(d.beside + {dirName}, dirName))
    else InDir(ChooseName(TakenInDir(d), name))
  }

  /** Writing a file of `size` bytes at `p`. */
  function Write(d: Dirs, p: Place, size: nat): Dirs
  {
    match p
    case InDir(n) => d.(files := d.files[n := size])
    case Beside(n) => d.(beside := d.beside + {n})
  }

  /** How the image request ends: a response with its status, content type and body size, or an exception. */
  datatype ImageReply = Reply(status: int, contentType: Option<string>, size: nat) | RequestFailed(message: string)

  /** How yt-dlp's download ends: the file it saved in the directory, or an exception. */
  datatype VideoReply = Saved(name: string, size: nat) | VideoFailed(message: string)

  /** `raise_for_status` raises for 4xx and 5xx statuses. */
  predicate RaisesForStatus(status: int)
  {
    400 <= status < 600
  }

  /**
   * `_download_image`: nothing changes unless the response is usable; then
   * exactly one name that did not exist is added, in the save directory
   * with the body's size or beside it, and nothing else changes.
   */
  function ImageStep(d: Dirs, dirName: string, item: MediaItem, reply: ImageReply): (r: Dirs)
    ensures reply.RequestFailed? || RaisesForStatus(reply.status) ==> r == d
    ensures reply.Reply? && !RaisesForStatus(reply.status) ==>
      (exists n :: n !in d.files && r == d.(files := d.files[n := reply.size]))
      || (exists n :: n !in d.beside && r == d.(beside := d.beside + {n}))
  {
    match reply
    case RequestFailed(_) => d
    case Reply(status, contentType, size) =>
      if RaisesForStatus(status) then d
      else Write(d, ImagePlace(d, dirName, ImageName(item.title, item.url, contentType)), size)
  }

  /** An image download never overwrites: the new file's name was free, and every other entry is as it was. */
  lemma ImageNoOverwrite(d: Dirs, dirName: string, item: MediaItem, reply: ImageReply)
    requires reply.Reply? && !RaisesForStatus(reply.status)
    ensures var p := ImagePlace(d, dirName, ImageName(item.title, item.url, reply.contentType));
      var r := ImageStep(d, dirName, item, reply);
      (p.InDir? ==> p.name !in d.files && r.files == d.files[p.name := reply.size] && r.beside == d.beside)
      && (p.Beside? ==> p.name !in d.beside && r.files == d.files && r.beside == d.beside + {p.name})
  {
  }

  /** The outside world of one `download_items` call. */
  datatype World = World(image: string -> ImageReply, video: (string, Option<string>) -> VideoReply)

  /** One item: videos through yt-dlp, images through the request, any other type skipped; exceptions change nothing. */
  function ItemStep(d: Dirs, dirName: string, cookies: Option<string>, item: MediaItem, w: World): (r: Dirs)
    ensures item.kind != "video" && item.kind != "image" ==> r == d
  {
    if item.kind == "video" then
      match w.video(item.url, cookies)
      case Saved(name, size) => d.(files := d.files[name := size])
      case VideoFailed(_) => d
    else if item.kind == "image" then ImageStep(d, dirName, item, w.image(item.url))
    else d
  }

  /** The directories after the items, one after another. */
  function AfterItems(d: Dirs, dirName: string, cookies: Option<string>, items: seq<MediaItem>, w: World): Dirs
  {
    if items == [] then d
    else ItemStep(AfterItems(d, dirName, cookies, items[..|items| - 1], w), dirName, cookies, items[|items| - 1], w)
  }

  /** Items of other types leave the directories as they are. */
  lemma {:induction false} SkippedItems(d: Dirs, dirName: string, cookies: Option<string>, items: seq<MediaItem>, w: World)
    requires forall k :: 0 <= k < |items| ==> items[k].kind != "video" && items[k].kind != "image"
    ensures AfterItems(d, dirName, cookies, items, w) == d
    decreases |items|
  {
    if items != [] {
      SkippedItems(d, dirName, cookies, items[..|items| - 1], w);
    }
  }

  /** Downloading only ever adds: no file of the save directory disappears. */
  lemma {:induction false} ItemsKeepFiles(d: Dirs, dirName: string, cookies: Option<string>, items: seq<MediaItem>, w: World)
    ensures d.files.Keys <= AfterItems(d, dirName, cookies, items, w).files.Keys
    ensures d.beside <= AfterItems(d, dirName, cookies, items, w).beside
    decreases |items|
  {
    if items != [] {
      ItemsKeepFiles(d, dirName, cookies, items[..|items| - 1], w);
    }
  }

  /** `f"Downloading {idx+1}/{total}: {item.title}"`. */
  function ProgressLine(idx: nat, total: nat, title: Option<string>): string
  {
    "Downloading " + NatToString(idx + 1) + "/" + NatToString(total) + ": " + (if title.Some? then title.value else "None")
  }

  /** `DownloadManager`: the save directory it writes to. */
  class DownloadManager {
    var files: map<string, nat>
    var beside: set<string>
    const dirName: string
    const cookiesBrowser: Option<string>

    ghost function State(): Dirs
      reads this
    {
      Dirs(files, beside)
    }

    /** Creates the save directory in its parent if it is not there (`mkdir(exist_ok=True)`). */
    constructor (dirName: string, existing: map<string, nat>, parent: set<string>, cookiesBrowser: Option<string>)
      ensures this.dirName == dirName && this.cookiesBrowser == cookiesBrowser
      ensures State() == Dirs(existing, parent + {dirName})
    {
      this.dirName := dirName;
      this.cookiesBrowser := cookiesBrowser;
      files := existing;
      beside := parent + {dirName};
    }

    /** The collision loop: `name`, then `stem_1`, `stem_2`, … until one does not exist. */
    method FreeName(taken: set<string>, name: string) returns (r: string)
      ensures r == ChooseName(taken, name)
    {
      var stem, suffix := Stem(name), Suffix(name);
      ghost var last := if name in taken then FirstFreeFrom(taken, stem, suffix, 1) else 0;
      r := name;
      var counter := 1;
      while r in taken
        invariant counter >= 1
        invariant counter == 1 ==> r == name
        invariant counter > 1 ==> name in taken && r == Candidate(stem, counter - 1, suffix) && counter - 1 <= last
        invariant forall j :: 1 <= j < counter - 1 ==> Candidate(stem, j, suffix) in taken
        decreases last + 1 - counter
      {
        r := Candidate(stem, counter, suffix);
        counter := counter + 1;
      }
      if name in taken {
        assert counter > 1;
        assert Candidate(stem, counter - 1, suffix) !in taken;
        assert counter - 1 == last;
      }
    }

    /** `_download_image`. */
    method DownloadImage(item: MediaItem, reply: ImageReply)
      modifies this
      ensures State() == ImageStep(old(State()), dirName, item, reply)
    {
      match reply
      case RequestFailed(_) =>
      case Reply(status, contentType, size) =>
        if !RaisesForStatus(status) {
          var name := ImageName(item.title, item.url, contentType);
          if name == "" || name == "." {
            var n := FreeName(beside + {dirName}, dirName);
            beside := beside + {n};
          } else {
            var n := FreeName(files.Keys + {".."}, name);
            files := files[n := size];
          }
        }
    }

    /** `download_items`: every item in order; one that fails does not stop the rest. */
    method DownloadItems(items: seq<MediaItem>, w: World) returns (progress: seq<string>)
      modifies this
      ensures State() == AfterItems(old(State()), dirName, cookiesBrowser, items, w)
      ensures |progress| == |items|
      ensures forall k :: 0 <= k < |items| ==> progress[k] == ProgressLine(k, |items|, items[k].title)
    {
      progress := [];
      var i := 0;
      while i < |items|
        invariant 0 <= i <= |items|
        invariant State() == AfterItems(old(State()), dirName, cookiesBrowser, items[..i], w)
        invariant |progress| == i
        invariant forall k :: 0 <= k < i ==> progress[k] == ProgressLine(k, |items|, items[k].title)
      {
        var item := items[i];
        progress := progress + [ProgressLine(i, |items|, item.title)];
        assert items[..i + 1][..i] == items[..i];
        if item.kind == "video" {
          match w.video(item.url, cookiesBrowser)
          case Saved(name, size) =>
            files := files[name := size];
          case VideoFailed(_) =>
        } else if item.kind == "image" {
          DownloadImage(item, w.image(item.url));
        }
        i := i + 1;
      }
      assert items[..i] == items;
    }
  }
}
