/**
 * The yt-dlp media downloader: the command it runs for a post, how the
 * files it then finds are sorted into media and one thumbnail, the direct
 * download it falls back to, thumbnail processing, and the lookup and
 * removal of a post's files. The media and thumbnail directories are maps
 * from file name to size (a name with "/" is a file in a sub-directory of
 * the media directory); the tool, the image library and the HTTP replies
 * are outcomes the caller supplies.
 */
module MediaDownloader {
  import opened Wrappers
  import opened Text
  import opened PathNames
  import opened Grouping
  import YtDlp
  import ScraperBase

  /** `DownloadResult`; paths are names in the media and thumbnail directories, and the time stamp and duration are not modelled. */
  datatype DownloadResult = DownloadResult(
    success: bool,
    url: string,
    postId: string,
    mediaPaths: seq<string>,
    thumbnailPath: Option<string>,
    totalSize: nat,
    errorMessage: Option<string>)

  /** A failed result: no paths, no size, and the message. */
  function Failed(url: string, postId: string, message: string): (r: DownloadResult)
    ensures !r.success && r.url == url && r.postId == postId && r.errorMessage == Some(message)
    ensures r.mediaPaths == [] && r.thumbnailPath.None? && r.totalSize == 0
  {
    DownloadResult(false, url, postId, [], None, 0, Some(message))
  }

  /** The files of the media directory and of the thumbnail directory, and the sub-directories of the media directory. */
  datatype Disk = Disk(media: map<string, nat>, thumbs: map<string, nat>, dirs: set<string>)

  /** A file: a name in the media directory or in the thumbnail directory. */
  datatype Loc = InMedia(name: string) | InThumbs(name: string)

  /** The size of the file at `l`, if it exists. */
  function SizeAt(d: Disk, l: Loc): Option<nat>
  {
    match l
    case InMedia(n) => if n in d.media then Some(d.media[n]) else None
    case InThumbs(n) => if n in d.thumbs then Some(d.thumbs[n]) else None
  }

  /** Writes a file of `size` bytes at `l`, replacing what was there. */
  function Put(d: Disk, l: Loc, size: nat): (r: Disk)
    ensures SizeAt(r, l) == Some(size) && r.dirs == d.dirs
    ensures forall k :: k != l ==> SizeAt(r, k) == SizeAt(d, k)
  {
    match l
    case InMedia(n) => d.(media := d.media[n := size])
    case InThumbs(n) => d.(thumbs := d.thumbs[n := size])
  }

  /** Removes the file at `l`. */
  function Unlink(d: Disk, l: Loc): (r: Disk)
    ensures SizeAt(r, l).None? && r.dirs == d.dirs
    ensures forall k :: k != l ==> SizeAt(r, k) == SizeAt(d, k)
  {
    match l
    case InMedia(n) => d.(media := d.media - {n})
    case InThumbs(n) => d.(thumbs := d.thumbs - {n})
  }

  // ---- thumbnails ----

  /**
   * `_process_thumbnail`: the resized JPEG (of the size the image library
   * produces, `None` when it raises) replaces `dest`; failing that, a copy
   * of `source`; failing that, nothing. On success `source` is removed when
   * it is not `dest`. A missing source makes both attempts fail, and so
   * does copying a file onto itself.
   */
  function ProcessThumbnail(d: Disk, source: Loc, dest: Loc, resize: Loc -> Option<nat>): (r: (Disk, Option<Loc>))
    ensures r.1.Some? <==> SizeAt(d, source).Some? && (resize(source).Some? || source != dest)
    ensures r.1.Some? ==> r.1.value == dest
    ensures r.1.Some? && resize(source).Some? ==> SizeAt(r.0, dest) == resize(source)
    ensures r.1.Some? && resize(source).None? ==> SizeAt(r.0, dest) == SizeAt(d, source)
    ensures r.1.Some? && source != dest ==> SizeAt(r.0, source).None?
    ensures r.1.None? ==> r.0 == d
    ensures forall l :: l != source && l != dest ==> SizeAt(r.0, l) == SizeAt(d, l)
    ensures r.0.dirs == d.dirs
  {
    match SizeAt(d, source)
    case None => (d, None)
    case Some(size) =>
      match resize(source)
      case Some(jpeg) =>
        var written := Put(d, dest, jpeg);
        (if source != dest then Unlink(written, source) else written, Some(dest))
      case None =>
        if source == dest then (d, None)
        else (Unlink(Put(d, dest, size), source), Some(dest))
  }

  /** The extensions `download_thumbnail_only` looks for, in order. */
  const ThumbExts: seq<string> := ["jpg", "jpeg", "webp", "png"]

  /** The suffixes, compared lower-cased, of the files taken for thumbnails. */
  const ImageSuffixes: seq<string> := [".jpg", ".jpeg", ".webp", ".png"]

  /** `file.suffix.lower() in ['.jpg', '.jpeg', '.webp', '.png']`. */
  predicate IsImage(name: string)
  {
    ToLower(Suffix(name)) in ImageSuffixes
  }

  /** The thumbnail name of a post. */
  function ThumbName(postId: string): string
  {
    postId + ".jpg"
  }

  // ---- the lookup `glob(f"{post_id}.*")` ----

  /** A name the lookup yields from the media directory: the id and a dot, then anything, with no sub-directory. */
  predicate MatchesPost(name: string, postId: string)
  {
    StartsWith(name, postId + ".") && '/' !in name
  }

  /** `listing` is what the lookup yields from `media`: each matching name once, and nothing else. */
  ghost predicate Lists(listing: seq<string>, media: map<string, nat>, postId: string)
  {
    Distinct(listing) && forall n :: n in listing <==> n in media && MatchesPost(n, postId)
  }

  /** The names of `names` that are not images, in order. */
  function NonImages(names: seq<string>): seq<string>
  {
    if names == [] then []
    else NonImages(names[..|names| - 1]) + (if IsImage(names[|names| - 1]) then [] else [names[|names| - 1]])
  }

  /** The names of `names` that are images, in order. */
  function Images(names: seq<string>): seq<string>
  {
    if names == [] then []
    else Images(names[..|names| - 1]) + (if IsImage(names[|names| - 1]) then [names[|names| - 1]] else [])
  }

  lemma {:induction false} NonImagesMembers(names: seq<string>)
    ensures forall n :: n in NonImages(names) <==> n in names && !IsImage(n)
  {
    if names != [] {
      NonImagesMembers(names[..|names| - 1]);
      assert names == names[..|names| - 1] + [names[|names| - 1]];
    }
  }

  /** Every name is either an image or not. */
  lemma {:induction false} PartitionEmpty(names: seq<string>)
    ensures NonImages(names) == [] && Images(names) == [] <==> names == []
  {
    if names != [] {
      PartitionEmpty(names[..|names| - 1]);
    }
  }

  /** The sizes in `m` of `names`, added up. */
  function SizeSum(m: map<string, nat>, names: seq<string>): nat
  {
    if names == [] then 0
    else SizeSum(m, names[..|names| - 1]) + (if names[|names| - 1] in m then m[names[|names| - 1]] else 0)
  }

  lemma {:induction false} SizeSumSame(m1: map<string, nat>, m2: map<string, nat>, names: seq<string>)
    requires forall n :: n in names ==> n in m1 && n in m2 && m1[n] == m2[n]
    ensures SizeSum(m1, names) == SizeSum(m2, names)
  {
    if names != [] {
      SizeSumSame(m1, m2, names[..|names| - 1]);
    }
  }

  // ---- sorting the found files ----

  /** The classification loop's state: the disk, `media_paths`, `thumbnail_path` and `total_size`. */
  datatype Scan = Scan(disk: Disk, media: seq<string>, thumb: Option<string>, total: nat)

  /** The thumbnail name a processing result stands for. */
  function NameOf(t: Option<Loc>): Option<string>
  {
    if t.Some? then Some(t.value.name) else None
  }

  /** One file of the loop: its size is counted; an image is processed into the post's thumbnail, and anything else is a media file. */
  function ScanStep(s: Scan, name: string, postId: string, resize: Loc -> Option<nat>): Scan
  {
    var size := if name in s.disk.media then s.disk.media[name] else 0;
    if IsImage(name) then
      var t := ProcessThumbnail(s.disk, InMedia(name), InThumbs(ThumbName(postId)), resize);
      Scan(t.0, s.media, NameOf(t.1), s.total + size)
    else Scan(s.disk, s.media + [name], s.thumb, s.total + size)
  }

  /** The loop over `names` in order. */
  function ScanFiles(d: Disk, names: seq<string>, postId: string, resize: Loc -> Option<nat>): Scan
  {
    if names == [] then Scan(d, [], None, 0)
    else ScanStep(ScanFiles(d, names[..|names| - 1], postId, resize), names[|names| - 1], postId, resize)
  }

  /** The media files found are the non-image names, in order. */
  lemma {:induction false} ScanMedia(d: Disk, names: seq<string>, postId: string, resize: Loc -> Option<nat>)
    ensures ScanFiles(d, names, postId, resize).media == NonImages(names)
  {
    if names != [] {
      ScanMedia(d, names[..|names| - 1], postId, resize);
    }
  }

  /** A media file not yet visited is where it was, with its size. */
  lemma {:induction false} ScanKeeps(d: Disk, names: seq<string>, postId: string, resize: Loc -> Option<nat>, n: string)
    requires n !in names
    ensures SizeAt(ScanFiles(d, names, postId, resize).disk, InMedia(n)) == SizeAt(d, InMedia(n))
  {
    if names != [] {
      ScanKeeps(d, names[..|names| - 1], postId, resize, n);
    }
  }

  /** The total is the sum of the sizes of all the names, images included. */
  lemma {:induction false} ScanTotal(d: Disk, names: seq<string>, postId: string, resize: Loc -> Option<nat>)
    requires Distinct(names)
    ensures ScanFiles(d, names, postId, resize).total == SizeSum(d.media, names)
  {
    if names != [] {
      var init, last := names[..|names| - 1], names[|names| - 1];
      assert Distinct(init);
      ScanTotal(d, init, postId, resize);
      ScanKeeps(d, init, postId, resize, last);
    }
  }

  /**
   * When every name is a file, there is a thumbnail exactly when some name
   * is an image, and it is the post's thumbnail file, which exists.
   */
  lemma {:induction false} ScanThumb(d: Disk, names: seq<string>, postId: string, resize: Loc -> Option<nat>)
    requires Distinct(names) && forall n :: n in names ==> n in d.media
    ensures var s := ScanFiles(d, names, postId, resize);
      s.thumb.Some? <==> Images(names) != []
    ensures var s := ScanFiles(d, names, postId, resize);
      s.thumb.Some? ==> s.thumb.value == ThumbName(postId) && ThumbName(postId) in s.disk.thumbs
  {
    if names != [] {
      var init, last := names[..|names| - 1], names[|names| - 1];
      assert Distinct(init);
      assert forall n :: n in init ==> n in names;
      ScanThumb(d, init, postId, resize);
      ScanKeeps(d, init, postId, resize, last);
      var prev := ScanFiles(d, init, postId, resize);
      assert ScanFiles(d, names, postId, resize) == ScanStep(prev, last, postId, resize);
      if IsImage(last) {
        var t := ProcessThumbnail(prev.disk, InMedia(last), InThumbs(ThumbName(postId)), resize);
        assert SizeAt(prev.disk, InMedia(last)).Some?;
        assert t.1 == Some(InThumbs(ThumbName(postId)));
        assert SizeAt(t.0, InThumbs(ThumbName(postId))).Some?;
        assert Images(names) == Images(init) + [last];
      } else {
        assert Images(names) == Images(init);
      }
    }
  }

  // ---- the yt-dlp run ----

  /** `%(title).100s-%(id)s.%(ext)s`, the name yt-dlp gives its output. */
  const OutputName := "%(title).100s-%(id)s.%(ext)s"

  /** `--cookies-from-browser <browser>` when a browser is given. */
  function CookieArgs(cookies: Option<string>): seq<string>
  {
    if ScraperBase.Truthy(cookies) then ["--cookies-from-browser", cookies.value] else []
  }

  /** The command `download` runs: the options, the output template, the URL, then the cookie browser. */
  function DownloadCommand(template: string, url: string, cookies: Option<string>): (cmd: seq<string>)
    ensures |cmd| >= 9
    ensures cmd[..9] == ["yt-dlp", "--no-warnings", "--no-playlist", "-o", template, "--write-thumbnail", "--convert-thumbnails", "jpg", url]
    ensures ScraperBase.Truthy(cookies) ==> cmd[9..] == ["--cookies-from-browser", cookies.value]
    ensures !ScraperBase.Truthy(cookies) ==> |cmd| == 9
  {
    ["yt-dlp", "--no-warnings", "--no-playlist", "-o", template, "--write-thumbnail", "--convert-thumbnails", "jpg", url] + CookieArgs(cookies)
  }

  /** The command `download_thumbnail_only` runs: no video, the thumbnail named after the post. */
  function ThumbnailCommand(postId: string, url: string, cookies: Option<string>): (cmd: seq<string>)
    ensures |cmd| >= 9
    ensures cmd[..9] == ["yt-dlp", "--no-warnings", "--skip-download", "--write-thumbnail", "--convert-thumbnails", "jpg", "-o", postId + ".%(ext)s", url]
    ensures ScraperBase.Truthy(cookies) ==> cmd[9..] == ["--cookies-from-browser", cookies.value]
    ensures !ScraperBase.Truthy(cookies) ==> |cmd| == 9
  {
    ["yt-dlp", "--no-warnings", "--skip-download", "--write-thumbnail", "--convert-thumbnails", "jpg", "-o", postId + ".%(ext)s", url]
      + CookieArgs(cookies)
  }

  /**
   * How a run of the tool ends: it exits with a code, its standard error
   * and the files it wrote into the output directory (name and size, in
   * order); or it is not installed (`FileNotFoundError`); or starting or
   * talking to it raises something else.
   */
  datatype ToolRun =
    | Finished(code: int, stderr: string, written: seq<(string, nat)>)
    | NotInstalled
    | Crashed(message: string)

  /** The files `ws`, written in order into the directory `prefix` names. */
  function WriteAll(m: map<string, nat>, prefix: string, ws: seq<(string, nat)>): map<string, nat>
  {
    if ws == [] then m
    else WriteAll(m, prefix, ws[..|ws| - 1])[prefix + ws[|ws| - 1].0 := ws[|ws| - 1].1]
  }

  /** Writing into a sub-directory leaves the files of the directory itself as they are. */
  lemma {:induction false} WriteAllKeeps(m: map<string, nat>, dir: string, ws: seq<(string, nat)>, n: string)
    requires '/' !in n
    ensures n in WriteAll(m, dir + "/", ws) <==> n in m
    ensures n in m ==> WriteAll(m, dir + "/", ws)[n] == m[n]
  {
    if ws != [] {
      WriteAllKeeps(m, dir, ws[..|ws| - 1], n);
      var k := dir + "/" + ws[|ws| - 1].0;
      assert k[|dir|] == '/';
      assert n != k;
    }
  }

  /**
   * What the tool writes for `download` goes into the author's
   * sub-directory, where the lookup never looks: the files it lists
   * afterwards are exactly those it would have listed before.
   */
  lemma ToolOutputNeverListed(listing: seq<string>, m: map<string, nat>, dir: string, ws: seq<(string, nat)>, postId: string)
    ensures Lists(listing, WriteAll(m, dir + "/", ws), postId) <==> Lists(listing, m, postId)
  {
    forall n | MatchesPost(n, postId)
      ensures n in WriteAll(m, dir + "/", ws) <==> n in m
    {
      WriteAllKeeps(m, dir, ws, n);
    }
  }

  // ---- the direct-download fallback ----

  /** An HTTP reply: a status and the size of the body, or an exception with its text. */
  datatype Reply = Response(status: int, size: nat) | RequestError(message: string)

  /** The file name for the `i`-th of `count` media URLs. */
  function FallbackName(postId: string, i: nat, count: nat, mediaUrl: string): (r: string)
    ensures var ext := if Contains(mediaUrl, "mp4") then "mp4" else "jpg";
      count > 1 ==> r == postId + "_" + NatToString(i) + "." + ext
    ensures var ext := if Contains(mediaUrl, "mp4") then "mp4" else "jpg";
      count <= 1 ==> r == postId + "." + ext
  {
    var ext := if Contains(mediaUrl, "mp4") then "mp4" else "jpg";
    if count > 1 then postId + "_" + NatToString(i) + "." + ext else postId + "." + ext
  }

  /** With several URLs, different positions get different names. */
  lemma FallbackNamesDiffer(postId: string, i: nat, j: nat, count: nat, u: string, v: string)
    requires count > 1 && i != j
    ensures FallbackName(postId, i, count, u) != FallbackName(postId, j, count, v)
  {
    var a, b := FallbackName(postId, i, count, u), FallbackName(postId, j, count, v);
    var p := |postId| + 1;
    if |a| == |b| {
      assert a[p..|a| - 4] == NatToString(i);
      assert b[p..|b| - 4] == NatToString(j);
      if NatToString(i) == NatToString(j) {
        NatToStringInjective(i, j);
      }
    }
  }

  /** A single URL's file is found by the lookup; the files of several URLs are not. */
  lemma FallbackNamesListed(postId: string, i: nat, count: nat, u: string)
    requires '/' !in postId
    ensures count <= 1 ==> MatchesPost(FallbackName(postId, i, count, u), postId)
    ensures count > 1 ==> !MatchesPost(FallbackName(postId, i, count, u), postId)
  {
    var r := FallbackName(postId, i, count, u);
    if count > 1 {
      assert r[|postId|] == '_';
      assert (postId + ".")[|postId|] == '.';
    } else {
      assert r == (postId + ".") + (if Contains(u, "mp4") then "mp4" else "jpg");
    }
  }

  /** The fallback loop's state: the disk, `downloaded_paths`, and the exception that ended it, if one did. */
  datatype Fetched = Fetched(disk: Disk, paths: seq<string>, error: Option<string>)

  /** A reply whose body is saved. */
  predicate Saved(reply: Reply)
  {
    reply.Response? && reply.status == 200
  }

  /** The fallback loop over the first `k` media URLs: a 200 reply is saved under its name, another status is skipped, and an exception ends the loop. */
  function FallbackOver(d: Disk, postId: string, urls: seq<string>, k: nat, fetch: string -> Reply): (f: Fetched)
    requires k <= |urls|
  {
    if k == 0 then Fetched(d, [], None)
    else
      var f := FallbackOver(d, postId, urls, k - 1, fetch);
      if f.error.Some? then f
      else
        match fetch(urls[k - 1])
        case RequestError(m) => f.(error := Some(m))
        case Response(status, size) =>
          if status == 200 then
            var name := FallbackName(postId, k - 1, |urls|, urls[k - 1]);
            Fetched(Put(f.disk, InMedia(name), size), f.paths + [name], None)
          else f
  }

  /** Once an exception has ended the loop, later URLs change nothing. */
  lemma {:induction false} FallbackStops(d: Disk, postId: string, urls: seq<string>, j: nat, k: nat, fetch: string -> Reply)
    requires j <= k <= |urls| && FallbackOver(d, postId, urls, j, fetch).error.Some?
    ensures FallbackOver(d, postId, urls, k, fetch) == FallbackOver(d, postId, urls, j, fetch)
    decreases k
  {
    if k > j {
      FallbackStops(d, postId, urls, j, k - 1, fetch);
    }
  }

  /** The loop ends without an exception exactly when every request got a reply. */
  lemma {:induction false} FallbackNoError(d: Disk, postId: string, urls: seq<string>, k: nat, fetch: string -> Reply)
    requires k <= |urls|
    ensures FallbackOver(d, postId, urls, k, fetch).error.None? <==> forall i :: 0 <= i < k ==> fetch(urls[i]).Response?
  {
    if k > 0 {
      FallbackNoError(d, postId, urls, k - 1, fetch);
    }
  }

  /** Without an exception, something is kept exactly when some reply had status 200. */
  lemma {:induction false} FallbackKept(d: Disk, postId: string, urls: seq<string>, k: nat, fetch: string -> Reply)
    requires k <= |urls|
    ensures var f := FallbackOver(d, postId, urls, k, fetch);
      f.error.None? ==> (f.paths != [] <==> exists i :: 0 <= i < k && Saved(fetch(urls[i])))
  {
    if k > 0 {
      FallbackKept(d, postId, urls, k - 1, fetch);
    }
  }

  /** The failure message when the fallback raises too. */
  function BothFailedMessage(e: string, fe: string): (m: string)
    ensures StartsWith(m, "Both yt-dlp and fallback failed: ")
  {
    "Both yt-dlp and fallback failed: " + e + " | " + fe
  }

  /** The `except Exception as e` branch: the fallback when there are media URLs, else the exception's text. */
  function FallbackResult(d: Disk, url: string, postId: string, mediaUrls: Option<seq<string>>, e: string, fetch: string -> Reply)
    : (r: (Disk, DownloadResult))
  {
    if mediaUrls.None? || mediaUrls.value == [] then (d, Failed(url, postId, e))
    else
      var urls := mediaUrls.value;
      var f := FallbackOver(d, postId, urls, |urls|, fetch);
      if f.error.Some? then (f.disk, Failed(url, postId, BothFailedMessage(e, f.error.value)))
      else if f.paths != [] then (f.disk, DownloadResult(true, url, postId, f.paths, None, SizeSum(f.disk.media, f.paths), None))
      else (f.disk, Failed(url, postId, e))
  }

  // ---- download ----

  /** What `download` consults outside the program: the tool, the image library and the HTTP replies. */
  datatype World = World(run: seq<string> -> ToolRun, resize: Loc -> Option<nat>, fetch: string -> Reply)

  /** `author or "unknown"`. */
  function AuthorOr(author: Option<string>): string
  {
    if ScraperBase.Truthy(author) then author.value else "unknown"
  }

  /**
   * `download`, once the author's directory name `dir` is known: the tool
   * is run into that directory; then the files the lookup yields
   * (`listing`) are sorted, or the fallback is tried.
   */
  function DownloadWith(d: Disk, url: string, postId: string, mediaUrls: Option<seq<string>>, cookies: Option<string>,
                        dir: string, listing: seq<string>, w: World): (r: (Disk, DownloadResult))
  {
    var d0 := d.(dirs := d.dirs + {dir});
    match w.run(DownloadCommand(dir + "/" + OutputName, url, cookies))
    case NotInstalled => (d0, Failed(url, postId, "yt-dlp not installed"))
    case Crashed(e) => FallbackResult(d0, url, postId, mediaUrls, e, w.fetch)
    case Finished(code, stderr, written) =>
      var d1 := d0.(media := WriteAll(d0.media, dir + "/", written));
      if code != 0 then (d1, Failed(url, postId, YtDlp.FailedMessage(stderr)))
      else
        var s := ScanFiles(d1, listing, postId, w.resize);
        if s.media == [] && s.thumb.None? then (s.disk, Failed(url, postId, "No files downloaded"))
        else (s.disk, DownloadResult(true, url, postId, s.media, s.thumb, s.total, None))
  }

  /**
   * After a clean exit: the download succeeds exactly when the lookup
   * finds some file of the post; the media are the non-image files in
   * lookup order, there is a thumbnail exactly when some file is an image,
   * and the size counts every file found.
   */
  lemma DownloadFound(d: Disk, url: string, postId: string, mediaUrls: Option<seq<string>>, cookies: Option<string>,
                      dir: string, listing: seq<string>, w: World)
    requires Lists(listing, d.media, postId)
    requires w.run(DownloadCommand(dir + "/" + OutputName, url, cookies)).Finished?
    requires w.run(DownloadCommand(dir + "/" + OutputName, url, cookies)).code == 0
    ensures var r := DownloadWith(d, url, postId, mediaUrls, cookies, dir, listing, w).1;
      (r.success <==> listing != []) && r.url == url && r.postId == postId
    ensures var r := DownloadWith(d, url, postId, mediaUrls, cookies, dir, listing, w).1;
      !r.success ==> r.errorMessage == Some("No files downloaded")
    ensures var r := DownloadWith(d, url, postId, mediaUrls, cookies, dir, listing, w).1;
      r.success ==> (r.mediaPaths == NonImages(listing) && r.totalSize == SizeSum(d.media, listing)
        && (r.thumbnailPath.Some? <==> Images(listing) != []))
  {
    var written := w.run(DownloadCommand(dir + "/" + OutputName, url, cookies)).written;
    var d1 := d.(dirs := d.dirs + {dir}, media := WriteAll(d.media, dir + "/", written));
    forall n | n in listing
      ensures n in d1.media && n in d.media && d1.media[n] == d.media[n]
    {
      WriteAllKeeps(d.media, dir, written, n);
    }
    ScanMedia(d1, listing, postId, w.resize);
    ScanTotal(d1, listing, postId, w.resize);
    ScanThumb(d1, listing, postId, w.resize);
    SizeSumSame(d1.media, d.media, listing);
    PartitionEmpty(listing);
  }

  /** The tool's failures: not installed, and a non-zero exit, which keeps what it wrote and tries no fallback. */
  lemma DownloadToolFailed(d: Disk, url: string, postId: string, mediaUrls: Option<seq<string>>, cookies: Option<string>,
                           dir: string, listing: seq<string>, w: World)
    ensures var run := w.run(DownloadCommand(dir + "/" + OutputName, url, cookies));
      var r := DownloadWith(d, url, postId, mediaUrls, cookies, dir, listing, w);
      run.NotInstalled? ==> r.1 == Failed(url, postId, "yt-dlp not installed") && r.0 == d.(dirs := d.dirs + {dir})
    ensures var run := w.run(DownloadCommand(dir + "/" + OutputName, url, cookies));
      var r := DownloadWith(d, url, postId, mediaUrls, cookies, dir, listing, w);
      run.Finished? && run.code != 0 ==>
        r.1 == Failed(url, postId, YtDlp.FailedMessage(run.stderr))
        && r.0.media == WriteAll(d.media, dir + "/", run.written) && r.0.thumbs == d.thumbs
  {
  }

  /**
   * Any other exception: without media URLs the failure carries its text;
   * with them the download succeeds exactly when every request got a reply
   * and one of them had status 200, and otherwise fails with the combined
   * message (a request raised) or the original text (nothing kept).
   */
  lemma DownloadFellBack(d: Disk, url: string, postId: string, mediaUrls: Option<seq<string>>, cookies: Option<string>,
                         dir: string, listing: seq<string>, w: World)
    requires w.run(DownloadCommand(dir + "/" + OutputName, url, cookies)).Crashed?
    ensures var e := w.run(DownloadCommand(dir + "/" + OutputName, url, cookies)).message;
      var r := DownloadWith(d, url, postId, mediaUrls, cookies, dir, listing, w).1;
      (mediaUrls.None? || mediaUrls.value == []) ==> r == Failed(url, postId, e)
    ensures var r := DownloadWith(d, url, postId, mediaUrls, cookies, dir, listing, w).1;
      (mediaUrls.Some? && mediaUrls.value != []) ==>
        (r.success <==> (forall i :: 0 <= i < |mediaUrls.value| ==> w.fetch(mediaUrls.value[i]).Response?)
                        && exists i :: 0 <= i < |mediaUrls.value| && Saved(w.fetch(mediaUrls.value[i])))
    ensures var e := w.run(DownloadCommand(dir + "/" + OutputName, url, cookies)).message;
      var r := DownloadWith(d, url, postId, mediaUrls, cookies, dir, listing, w).1;
      (mediaUrls.Some? && mediaUrls.value != [] && !r.success) ==>
        (r.errorMessage == Some(e) || StartsWith(r.errorMessage.value, "Both yt-dlp and fallback failed: "))
  {
    if mediaUrls.Some? && mediaUrls.value != [] {
      var urls := mediaUrls.value;
      var d0 := d.(dirs := d.dirs + {dir});
      FallbackNoError(d0, postId, urls, |urls|, w.fetch);
      FallbackKept(d0, postId, urls, |urls|, w.fetch);
    }
  }

  /** `download` as written: `self._sanitize_filename` is not defined, so the call raises `AttributeError` before it does anything. */
  datatype Outcome = Returned(result: DownloadResult) | RaisedError(message: string)

  /** The message of that `AttributeError`. */
  const MissingSanitizer := "'MediaDownloader' object has no attribute '_sanitize_filename'"

  function DownloadAsWritten(d: Disk, url: string, postId: string, author: Option<string>): (r: (Disk, Outcome))
    ensures r.0 == d && r.1 == RaisedError(MissingSanitizer)
  {
    (d, RaisedError(MissingSanitizer))
  }

  // ---- download_thumbnail_only ----

  /** The position of the first extension from `k` on whose thumbnail file exists. */
  function FirstPresent(thumbs: map<string, nat>, postId: string, k: nat): (r: Option<nat>)
    requires k <= |ThumbExts|
    ensures r.Some? ==> k <= r.value < |ThumbExts| && postId + "." + ThumbExts[r.value] in thumbs
    ensures r.Some? ==> forall j :: k <= j < r.value ==> postId + "." + ThumbExts[j] !in thumbs
    ensures r.None? <==> forall j :: k <= j < |ThumbExts| ==> postId + "." + ThumbExts[j] !in thumbs
    decreases |ThumbExts| - k
  {
    if k == |ThumbExts| then None
    else if postId + "." + ThumbExts[k] in thumbs then Some(k)
    else FirstPresent(thumbs, postId, k + 1)
  }

  /** The files `ws`, written in order into the thumbnail directory. */
  function WriteThumbs(d: Disk, ws: seq<(string, nat)>): Disk
  {
    d.(thumbs := WriteAll(d.thumbs, "", ws))
  }

  /** `download_thumbnail_only`: after any run that exits, the first thumbnail found becomes the post's JPEG thumbnail. */
  function ThumbnailOnly(d: Disk, url: string, postId: string, cookies: Option<string>, w: World): (r: (Disk, Option<string>))
  {
    match w.run(ThumbnailCommand(postId, url, cookies))
    case NotInstalled => (d, None)
    case Crashed(_) => (d, None)
    case Finished(_, _, written) =>
      var d1 := WriteThumbs(d, written);
      match FirstPresent(d1.thumbs, postId, 0)
      case None => (d1, None)
      case Some(k) =>
        var name := postId + "." + ThumbExts[k];
        if name != ThumbName(postId) then
          (ProcessThumbnail(d1, InThumbs(name), InThumbs(ThumbName(postId)), w.resize).0, Some(ThumbName(postId)))
        else (d1, Some(name))
  }

  /**
   * The path returned is always the post's JPEG thumbnail, and it exists:
   * a thumbnail in another format is resized or, failing that, copied. A
   * path is returned exactly when the tool ran and some thumbnail exists.
   */
  lemma ThumbnailOnlyExists(d: Disk, url: string, postId: string, cookies: Option<string>, w: World)
    ensures var r := ThumbnailOnly(d, url, postId, cookies, w);
      r.1.Some? ==> r.1.value == ThumbName(postId) && ThumbName(postId) in r.0.thumbs
    ensures var run := w.run(ThumbnailCommand(postId, url, cookies));
      var r := ThumbnailOnly(d, url, postId, cookies, w);
      r.1.Some? <==> (run.Finished?
        && exists j :: 0 <= j < |ThumbExts| && postId + "." + ThumbExts[j] in WriteThumbs(d, run.written).thumbs)
  {
  }

  // ---- the post's files ----

  /** `m` with the files `names` removed one after another. */
  function RemoveAll(m: map<string, nat>, names: seq<string>): map<string, nat>
  {
    if names == [] then m else RemoveAll(m, names[..|names| - 1]) - {names[|names| - 1]}
  }

  lemma {:induction false} RemoveAllMembers(m: map<string, nat>, names: seq<string>)
    ensures forall n :: n in RemoveAll(m, names) <==> n in m && n !in names
    ensures forall n :: n in RemoveAll(m, names) ==> RemoveAll(m, names)[n] == m[n]
  {
    if names != [] {
      RemoveAllMembers(m, names[..|names| - 1]);
      assert names == names[..|names| - 1] + [names[|names| - 1]];
    }
  }

  /** What `delete_media` leaves: the listed files and the post's thumbnail are gone, and whether anything was removed. */
  function AfterDelete(d: Disk, postId: string, listing: seq<string>): (r: (Disk, bool))
  {
    (d.(media := RemoveAll(d.media, listing), thumbs := d.thumbs - {ThumbName(postId)}),
     listing != [] || ThumbName(postId) in d.thumbs)
  }

  /**
   * Deleting removes exactly the post's files in the media directory and
   * its thumbnail, keeps the others with their sizes, and reports whether
   * any file of the post was there.
   */
  lemma DeleteRemovesPost(d: Disk, postId: string, listing: seq<string>)
    requires Lists(listing, d.media, postId)
    ensures var r := AfterDelete(d, postId, listing);
      forall n :: n in r.0.media <==> n in d.media && !MatchesPost(n, postId)
    ensures var r := AfterDelete(d, postId, listing);
      forall n :: n in r.0.media ==> r.0.media[n] == d.media[n]
    ensures var r := AfterDelete(d, postId, listing);
      forall n :: n in r.0.thumbs <==> n in d.thumbs && n != ThumbName(postId)
    ensures var r := AfterDelete(d, postId, listing);
      r.1 <==> (exists n :: n in d.media && MatchesPost(n, postId)) || ThumbName(postId) in d.thumbs
  {
    RemoveAllMembers(d.media, listing);
    if listing != [] {
      assert listing[0] in d.media && MatchesPost(listing[0], postId);
    }
  }

  /** After deleting, the lookup yields no file. */
  lemma DeleteLeavesNothing(d: Disk, postId: string, listing: seq<string>, after: seq<string>)
    requires Lists(listing, d.media, postId)
    requires Lists(after, AfterDelete(d, postId, listing).0.media, postId)
    ensures forall n :: n !in after
  {
    DeleteRemovesPost(d, postId, listing);
  }

  /** `get_media_files` finds exactly the post's files that are not images. */
  lemma MediaFilesOfPost(media: map<string, nat>, postId: string, listing: seq<string>)
    requires Lists(listing, media, postId)
    ensures forall n :: n in NonImages(listing) <==> n in media && MatchesPost(n, postId) && !IsImage(n)
  {
    NonImagesMembers(listing);
  }

  /** The downloader, over its two directories. */
  class MediaDownloader {
    var media: map<string, nat>
    var thumbs: map<string, nat>
    var dirs: set<string>

    function State(): Disk
      reads this
    {
      Disk(media, thumbs, dirs)
    }

    /** Both directories exist after construction (`mkdir(exist_ok=True)`); what they hold is given. */
    constructor (media: map<string, nat>, thumbs: map<string, nat>, dirs: set<string>)
      ensures State() == Disk(media, thumbs, dirs)
    {
      this.media := media;
      this.thumbs := thumbs;
      this.dirs := dirs;
    }

    method PutFile(l: Loc, size: nat)
      modifies this
      ensures State() == Put(old(State()), l, size)
    {
      match l
      case InMedia(n) => media := media[n := size];
      case InThumbs(n) => thumbs := thumbs[n := size];
    }

    method UnlinkFile(l: Loc)
      modifies this
      ensures State() == Unlink(old(State()), l)
    {
      match l
      case InMedia(n) => media := media - {n};
      case InThumbs(n) => thumbs := thumbs - {n};
    }

    /** `_process_thumbnail`. */
    method ProcessThumb(source: Loc, dest: Loc, resize: Loc -> Option<nat>) returns (r: Option<Loc>)
      modifies this
      ensures (State(), r) == ProcessThumbnail(old(State()), source, dest, resize)
    {
      var size := SizeAt(State(), source);
      if size.None? {
        return None;
      }
      match resize(source)
      case Some(jpeg) =>
        PutFile(dest, jpeg);
        if source != dest {
          UnlinkFile(source);
        }
        r := Some(dest);
      case None =>
        if source == dest {
          r := None;
        } else {
          PutFile(dest, size.value);
          UnlinkFile(source);
          r := Some(dest);
        }
    }

    /** The loop of `download` over the files the lookup yields. */
    method SortFiles(listing: seq<string>, postId: string, resize: Loc -> Option<nat>)
      returns (paths: seq<string>, thumb: Option<string>, total: nat)
      modifies this
      ensures Scan(State(), paths, thumb, total) == ScanFiles(old(State()), listing, postId, resize)
    {
      paths, thumb, total := [], None, 0;
      var i := 0;
      while i < |listing|
        invariant 0 <= i <= |listing|
        invariant Scan(State(), paths, thumb, total) == ScanFiles(old(State()), listing[..i], postId, resize)
      {
        assert listing[..i + 1][..i] == listing[..i];
        paths, thumb, total := SortFile(listing[i], postId, resize, paths, thumb, total);
        i := i + 1;
      }
      assert listing[..i] == listing;
    }

    /** One pass of that loop. */
    method SortFile(name: string, postId: string, resize: Loc -> Option<nat>, paths: seq<string>, thumb: Option<string>, total: nat)
      returns (paths': seq<string>, thumb': Option<string>, total': nat)
      modifies this
      ensures Scan(State(), paths', thumb', total') == ScanStep(Scan(old(State()), paths, thumb, total), name, postId, resize)
    {
      var size := if name in media then media[name] else 0;
      total' := total + size;
      if IsImage(name) {
        var t := ProcessThumb(InMedia(name), InThumbs(ThumbName(postId)), resize);
        paths', thumb' := paths, NameOf(t);
      } else {
        paths', thumb' := paths + [name], thumb;
      }
    }

    /** The fallback loop of `download`: one request per media URL, stopping at the first exception. */
    method FetchAll(postId: string, urls: seq<string>, fetch: string -> Reply)
      returns (paths: seq<string>, error: Option<string>)
      modifies this
      ensures Fetched(State(), paths, error) == FallbackOver(old(State()), postId, urls, |urls|, fetch)
    {
      paths, error := [], None;
      var i := 0;
      while i < |urls|
        invariant 0 <= i <= |urls|
        invariant Fetched(State(), paths, error) == FallbackOver(old(State()), postId, urls, i, fetch)
        invariant error.None?
      {
        match fetch(urls[i])
        case RequestError(m) =>
          error := Some(m);
          FallbackStops(old(State()), postId, urls, i + 1, |urls|, fetch);
          return;
        case Response(status, size) =>
          if status == 200 {
            var name := FallbackName(postId, i, |urls|, urls[i]);
            PutFile(InMedia(name), size);
            paths := paths + [name];
          }
        i := i + 1;
      }
    }

    /**
     * `download` with `sanitize` for the missing `_sanitize_filename`: the
     * author's directory is created, the tool is run into it, and the
     * lookup's files (`listing`) are sorted, or the fallback is tried.
     */
    method Download(url: string, postId: string, mediaUrls: Option<seq<string>>, cookies: Option<string>,
                    author: Option<string>, sanitize: string -> string, listing: seq<string>, w: World)
      returns (r: DownloadResult)
      modifies this
      ensures (State(), r) == DownloadWith(old(State()), url, postId, mediaUrls, cookies, sanitize(AuthorOr(author)), listing, w)
    {
      var dir := sanitize(AuthorOr(author));
      dirs := dirs + {dir};
      match w.run(DownloadCommand(dir + "/" + OutputName, url, cookies))
      case NotInstalled =>
        r := Failed(url, postId, "yt-dlp not installed");
      case Crashed(e) =>
        if mediaUrls.None? || mediaUrls.value == [] {
          r := Failed(url, postId, e);
        } else {
          var paths, error := FetchAll(postId, mediaUrls.value, w.fetch);
          if error.Some? {
            r := Failed(url, postId, BothFailedMessage(e, error.value));
          } else if paths != [] {
            r := DownloadResult(true, url, postId, paths, None, SizeSum(media, paths), None);
          } else {
            r := Failed(url, postId, e);
          }
        }
      case Finished(code, stderr, written) =>
        media := WriteAll(media, dir + "/", written);
        if code != 0 {
          r := Failed(url, postId, YtDlp.FailedMessage(stderr));
        } else {
          var paths, thumb, total := SortFiles(listing, postId, w.resize);
          if paths == [] && thumb.None? {
            r := Failed(url, postId, "No files downloaded");
          } else {
            r := DownloadResult(true, url, postId, paths, thumb, total, None);
          }
        }
    }

    /** `download_thumbnail_only`. */
    method DownloadThumbnailOnly(url: string, postId: string, cookies: Option<string>, w: World) returns (r: Option<string>)
      modifies this
      ensures (State(), r) == ThumbnailOnly(old(State()), url, postId, cookies, w)
    {
      match w.run(ThumbnailCommand(postId, url, cookies))
      case Finished(_, _, written) =>
        thumbs := WriteAll(thumbs, "", written);
        var i := 0;
        while i < |ThumbExts|
          invariant 0 <= i <= |ThumbExts|
          invariant State() == WriteThumbs(old(State()), written)
          invariant forall j :: 0 <= j < i ==> postId + "." + ThumbExts[j] !in thumbs
        {
          var name := postId + "." + ThumbExts[i];
          if name in thumbs {
            if name != ThumbName(postId) {
              var _ := ProcessThumb(InThumbs(name), InThumbs(ThumbName(postId)), w.resize);
              return Some(ThumbName(postId));
            }
            return Some(name);
          }
          i := i + 1;
        }
        r := None;
      case NotInstalled =>
        r := None;
      case Crashed(_) =>
        r := None;
    }

    /** `get_thumbnail`: the post's thumbnail, if it exists. */
    function GetThumbnail(postId: string): (r: Option<string>)
      reads this
      ensures r.Some? <==> ThumbName(postId) in thumbs
      ensures r.Some? ==> r.value == ThumbName(postId)
    {
      if ThumbName(postId) in thumbs then Some(ThumbName(postId)) else None
    }

    /** `get_media_files`: the files the lookup yields, without the images. */
    method GetMediaFiles(postId: string, listing: seq<string>) returns (files: seq<string>)
      ensures files == NonImages(listing)
    {
      files := [];
      var i := 0;
      while i < |listing|
        invariant 0 <= i <= |listing|
        invariant files == NonImages(listing[..i])
      {
        assert listing[..i + 1][..i] == listing[..i];
        if !IsImage(listing[i]) {
          files := files + [listing[i]];
        }
        i := i + 1;
      }
      assert listing[..i] == listing;
    }

    /** `delete_media`: removes every file the lookup yields and the post's thumbnail. */
    method DeleteMedia(postId: string, listing: seq<string>) returns (deleted: bool)
      modifies this
      ensures (State(), deleted) == AfterDelete(old(State()), postId, listing)
      ensures GetThumbnail(postId).None?
    {
      deleted := false;
      var i := 0;
      while i < |listing|
        invariant 0 <= i <= |listing|
        invariant media == RemoveAll(old(media), listing[..i])
        invariant thumbs == old(thumbs) && dirs == old(dirs)
        invariant deleted <==> i > 0
      {
        assert listing[..i + 1][..i] == listing[..i];
        media := media - {listing[i]};
        deleted := true;
        i := i + 1;
      }
      assert listing[..i] == listing;
      if ThumbName(postId) in thumbs {
        thumbs := thumbs - {ThumbName(postId)};
        deleted := true;
      } else {
        assert thumbs - {ThumbName(postId)} == thumbs;
      }
    }
  }
}
