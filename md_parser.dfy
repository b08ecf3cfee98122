/**
 * Link extraction from Markdown notes: the combined link pattern, the
 * trimming of trailing punctuation, the front-matter skip, the one-line
 * context window, URL normalisation and link identity, the collection of
 * links, and duplicate detection.
 */
module MdParser {
  import opened Wrappers
  import opened Text
  import opened Grouping
  import Models

  /** A link found in a note; the source file is its path as text. */
  datatype ExtractedUrl = ExtractedUrl(
    url: string,
    platform: string,
    sourceFile: string,
    lineNumber: int,
    context: Option<string>)

  // ---------------------------------------------------------------------
  // Normalisation and identity
  // ---------------------------------------------------------------------

  /** A character of a tracking parameter's value: `[^&\s]`. */
  predicate ValueChar(c: char)
  {
    c != '&' && !IsSpace(c)
  }

  predicate TrackingKey(k: string)
  {
    k == "igsh" || k == "mibextid" || k == "img_index"
  }

  /** `key=` occurs at `j`. */
  predicate KeyAt(s: string, j: nat, key: string)
  {
    CharsAt(s, j, key) && j + |key| < |s| && s[j + |key|] == '='
  }

  /** The position just after `key=` for the first tracking key, in the pattern's order, that starts at `j`. */
  function KeyEnd(s: string, j: nat): (r: Option<nat>)
    requires j <= |s|
    ensures r.Some? ==> j < r.value <= |s|
  {
    if KeyAt(s, j, "igsh") then Some(j + 5)
    else if KeyAt(s, j, "mibextid") then Some(j + 9)
    else if KeyAt(s, j, "img_index") then Some(j + 10)
    else None
  }

  /** The length of a match of `[?&](igsh|mibextid|img_index)=[^&\s]*` at `i`, if one starts there. */
  function TrackingAt(s: string, i: nat): (r: Option<nat>)
    requires i <= |s|
    ensures r.Some? ==> 0 < r.value && i + r.value <= |s|
    ensures r.Some? ==> s[i] == '?' || s[i] == '&'
  {
    if i < |s| && (s[i] == '?' || s[i] == '&') then
      match KeyEnd(s, i + 1)
      case Some(v) => Some(RunEnd(s, v, ValueChar) - i)
      case None => None
    else None
  }

  /** The text from `i` on with every tracking parameter removed, scanning left to right. */
  function StripFrom(s: string, i: nat): string
    requires i <= |s|
    decreases |s| - i
  {
    if i == |s| then []
    else
      match TrackingAt(s, i)
      case Some(n) => StripFrom(s, i + n)
      case None => [s[i]] + StripFrom(s, i + 1)
  }

  /** `re.sub` of the tracking-parameter pattern by the empty string. */
  function StripTracking(url: string): string
  {
    StripFrom(url, 0)
  }

  /** `re.sub(r'\?$', '', s)`: a `?` at the end, or just before a final newline, is removed. */
  function DropFinalQuestion(s: string): (r: string)
    ensures !EndsWith(s, "?") && !EndsWith(s, "?\n") ==> r == s
    ensures EndsWith(s, "?") ==> r + "?" == s
    ensures !EndsWith(s, "?") && EndsWith(s, "?\n") ==> |r| == |s| - 1 && s == r[..|r| - 1] + "?\n"
  {
    if EndsWith(s, "?") then s[..|s| - 1]
    else if EndsWith(s, "?\n") then s[..|s| - 2] + "\n"
    else s
  }

  /** `re.sub(r'\?&', '?', s)`: each `?&`, leftmost first and without overlap, becomes `?`. */
  function CollapseQA(s: string): string
    decreases |s|
  {
    if |s| >= 2 && s[0] == '?' && s[1] == '&' then "?" + CollapseQA(s[2..])
    else if s == [] then []
    else [s[0]] + CollapseQA(s[1..])
  }

  predicate IsSlash(c: char)
  {
    c == '/'
  }

  /** `_normalize_url`: tracking parameters removed, stray `?` cleaned up, trailing slashes stripped. */
  function Normalize(url: string): (r: string)
    ensures r == [] || r[|r| - 1] != '/'
  {
    CleanUp(StripTracking(url))
  }

  /** The substitutions `_normalize_url` applies after removing the tracking parameters. */
  function CleanUp(s: string): (r: string)
    ensures r == [] || r[|r| - 1] != '/'
  {
    TrimEnd(CollapseQA(DropFinalQuestion(s)), IsSlash)
  }

  /** A link's id: the first 12 hex digits of the digest of its normalised URL. */
  function UrlId(url: string, digest: string -> string): (r: string)
    ensures |digest(Normalize(url))| >= 12 ==> |r| == 12
    ensures StartsWith(digest(Normalize(url)), r)
  {
    var h := digest(Normalize(url));
    if |h| >= 12 then h[..12] else h
  }

  /** The id of a link, which depends on its `url` only. */
  function IdKey(digest: string -> string): ExtractedUrl -> string
  {
    (e: ExtractedUrl) => UrlId(e.url, digest)
  }

  // Lemmas about appending text to a URL, used for the tracking-parameter and slash properties.

  /** Appending `t` cannot create a key match that crosses into `t` when `t` starts with `?`, `&` or `/`. */
  lemma KeyEndAppend(u: string, t: string, j: nat)
    requires j <= |u| && t != [] && (t[0] == '?' || t[0] == '&' || t[0] == '/')
    ensures KeyEnd(u + t, j) == KeyEnd(u, j)
  {
    KeyAtAppend(u, t, j, "igsh");
    KeyAtAppend(u, t, j, "mibextid");
    KeyAtAppend(u, t, j, "img_index");
  }

  lemma KeyAtAppend(u: string, t: string, j: nat, key: string)
    requires j <= |u| && t != [] && t[0] !in key && t[0] != '='
    ensures KeyAt(u + t, j, key) == KeyAt(u, j, key)
  {
    CharsAtAppend(u, t, j, key);
    if j + |key| < |u| {
      assert (u + t)[j + |key|] == u[j + |key|];
    } else if j + |key| == |u| {
      assert (u + t)[j + |key|] == t[0];
    }
  }

  /**
   * A tracking match at `i < |u|` in `u + t` is the one in `u`, except that
   * one reaching the end of `u` may run on through `t` when `t` holds only
   * value characters.
   */
  lemma TrackingAtAppend(u: string, t: string, i: nat)
    requires i < |u| && t != [] && (t[0] == '?' || t[0] == '&' || t[0] == '/')
    requires t[0] == '&' || forall j :: 0 <= j < |t| ==> ValueChar(t[j])
    ensures TrackingAt(u + t, i) == TrackingAt(u, i)
         || (TrackingAt(u, i).Some? && i + TrackingAt(u, i).value == |u|
             && TrackingAt(u + t, i) == Some(|u| + |t| - i))
  {
    var s := u + t;
    assert s[i] == u[i];
    KeyEndAppend(u, t, i + 1);
    if (u[i] == '?' || u[i] == '&') && KeyEnd(u, i + 1).Some? {
      var v := KeyEnd(u, i + 1).value;
      TrackingAtKey(s, i, v);
      TrackingAtKey(u, i, v);
      RunEndAppend(u, t, v, ValueChar);
      if RunEnd(u, v, ValueChar) == |u| {
        ValueRunAfter(u, t);
      }
    } else {
      TrackingAtNoKey(s, i);
      TrackingAtNoKey(u, i);
    }
  }

  lemma TrackingAtKey(s: string, i: nat, v: nat)
    requires i < |s| && (s[i] == '?' || s[i] == '&') && KeyEnd(s, i + 1) == Some(v)
    ensures TrackingAt(s, i) == Some(RunEnd(s, v, ValueChar) - i)
  {
  }

  lemma TrackingAtNoKey(s: string, i: nat)
    requires i < |s| && !((s[i] == '?' || s[i] == '&') && KeyEnd(s, i + 1).Some?)
    ensures TrackingAt(s, i).None?
  {
  }

  /** The value run that reaches the end of `u` stops at once in `t`, or runs through all of it. */
  lemma ValueRunAfter(u: string, t: string)
    requires t != [] && (t[0] == '&' || forall j :: 0 <= j < |t| ==> ValueChar(t[j]))
    ensures RunEnd(u + t, |u|, ValueChar) == |u| || RunEnd(u + t, |u|, ValueChar) == |u| + |t|
  {
    var s := u + t;
    assert s[|u|] == t[0];
    if t[0] != '&' {
      forall k | |u| <= k < |s|
        ensures ValueChar(s[k])
      {
        assert s[k] == t[k - |u|];
      }
      RunEndAll(s, |u|, ValueChar);
    }
  }

  /** A tracking parameter appended at the end is removed and leaves the rest alone. */
  lemma {:induction false} StripAppendParam(u: string, t: string, i: nat)
    requires i <= |u| && TrackingAt(u + t, |u|) == Some(|t|)
    requires t != [] && (t[0] == '?' || t[0] == '&')
    requires t[0] == '&' || forall j :: 0 <= j < |t| ==> ValueChar(t[j])
    ensures StripFrom(u + t, i) == StripFrom(u, i)
    decreases |u| - i
  {
    if i == |u| {
      StripAtEnd(u, t);
    } else {
      TrackingAtAppend(u, t, i);
      if TrackingAt(u + t, i) == TrackingAt(u, i) {
        StripAppendParam(u, t, NextScan(u, i));
        assert (u + t)[i] == u[i];
        StripSameStep(u + t, u, i);
      } else {
        StripExtended(u, t, i);
      }
    }
  }

  /** Where the scan goes on after position `i`: past a match, or to the next character. */
  function NextScan(u: string, i: nat): (n: nat)
    requires i < |u|
    ensures i < n <= |u|
  {
    match TrackingAt(u, i)
    case Some(k) => i + k
    case None => i + 1
  }

  lemma StripAtEnd(u: string, t: string)
    requires TrackingAt(u + t, |u|) == Some(|t|)
    ensures StripFrom(u + t, |u|) == StripFrom(u, |u|) == []
  {
    assert StripFrom(u + t, |u|) == StripFrom(u + t, |u + t|);
  }

  /** What the scan keeps at `i`: nothing where a match starts, the character otherwise. */
  function Kept(s: string, i: nat): string
    requires i < |s|
  {
    if TrackingAt(s, i).Some? then [] else [s[i]]
  }

  /** One step of the scan. */
  lemma StripNext(s: string, i: nat)
    requires i < |s|
    ensures StripFrom(s, i) == Kept(s, i) + StripFrom(s, NextScan(s, i))
  {
  }

  /**
   * When two texts take the same step at `i`, their scans agree from `i` if
   * they agree after the step (`a` is `u + t` and `b` is `u` at the call).
   */
  lemma StripSameStep(a: string, b: string, i: nat)
    requires i < |b| && i < |a| && a[i] == b[i] && TrackingAt(a, i) == TrackingAt(b, i)
    requires NextScan(b, i) <= |a| && StripFrom(a, NextScan(b, i)) == StripFrom(b, NextScan(b, i))
    ensures StripFrom(a, i) == StripFrom(b, i)
  {
    SameStep(a, b, i);
    StripNext(a, i);
    StripNext(b, i);
  }

  lemma SameStep(a: string, b: string, i: nat)
    requires i < |b| && i < |a| && a[i] == b[i] && TrackingAt(a, i) == TrackingAt(b, i)
    ensures NextScan(a, i) == NextScan(b, i) && Kept(a, i) == Kept(b, i)
  {
  }

  /** A match that ran on to the end of `u` and through `t` leaves nothing in either scan. */
  lemma StripExtended(u: string, t: string, i: nat)
    requires i < |u| && TrackingAt(u, i) == Some(|u| - i) && TrackingAt(u + t, i) == Some(|u| + |t| - i)
    ensures StripFrom(u + t, i) == StripFrom(u, i) == []
  {
    assert StripFrom(u + t, i) == StripFrom(u + t, |u + t|);
  }

  /** A slash appended at the end survives tracking removal, or is swallowed by a parameter value. */
  lemma {:induction false} StripAppendSlash(u: string, i: nat)
    requires i <= |u|
    ensures StripFrom(u + "/", i) == StripFrom(u, i) + "/" || StripFrom(u + "/", i) == StripFrom(u, i)
    decreases |u| - i
  {
    if i == |u| {
      SlashAtEnd(u);
    } else {
      TrackingAtAppend(u, "/", i);
      if TrackingAt(u + "/", i) == TrackingAt(u, i) {
        StripAppendSlash(u, NextScan(u, i));
        assert (u + "/")[i] == u[i];
        SlashSameStep(u + "/", u, i);
      } else {
        StripExtended(u, "/", i);
      }
    }
  }

  lemma SlashAtEnd(u: string)
    ensures StripFrom(u + "/", |u|) == StripFrom(u, |u|) + "/"
  {
    var s := u + "/";
    assert TrackingAt(s, |u|).None?;
    assert StripFrom(s, |u|) == [s[|u|]] + StripFrom(s, |s|);
  }

  /** As `StripSameStep`, where `a` is `u + "/"` and may keep one more slash at the end. */
  lemma SlashSameStep(a: string, b: string, i: nat)
    requires i < |b| && i < |a| && a[i] == b[i] && TrackingAt(a, i) == TrackingAt(b, i)
    requires NextScan(b, i) <= |a|
    requires StripFrom(a, NextScan(b, i)) == StripFrom(b, NextScan(b, i)) + "/"
          || StripFrom(a, NextScan(b, i)) == StripFrom(b, NextScan(b, i))
    ensures StripFrom(a, i) == StripFrom(b, i) + "/" || StripFrom(a, i) == StripFrom(b, i)
  {
    SameStep(a, b, i);
    StripNext(a, i);
    StripNext(b, i);
    ConsSlash(Kept(b, i), StripFrom(a, NextScan(b, i)), StripFrom(b, NextScan(b, i)));
  }

  lemma ConsSlash(c: string, x: string, y: string)
    requires x == y + "/" || x == y
    ensures c + x == (c + y) + "/" || c + x == c + y
  {
    if x == y + "/" {
      assert c + (y + "/") == (c + y) + "/";
    }
  }

  lemma {:induction false} CollapseAppend(s: string, c: char)
    requires c != '&'
    ensures CollapseQA(s + [c]) == CollapseQA(s) + [c]
    decreases |s|
  {
    if |s| >= 2 && s[0] == '?' && s[1] == '&' {
      assert (s + [c])[2..] == s[2..] + [c];
      CollapseAppend(s[2..], c);
    } else if s != [] {
      assert (s + [c])[1..] == s[1..] + [c];
      CollapseAppend(s[1..], c);
    }
  }

  /** The tracking parameters appended to a URL: `?k=v` or `&k=v` with a tracking key `k`. */
  function TrackingParam(sep: char, key: string, value: string): (r: string)
    ensures |r| == |key| + |value| + 2 && r[0] == sep && r[|key| + 1] == '='
  {
    [sep] + key + "=" + value
  }

  /** A separator, a tracking key, `=` and value characters up to the end make one match. */
  lemma TrackingAtOfParam(s: string, i: nat, key: string)
    requires i < |s| && (s[i] == '?' || s[i] == '&')
    requires TrackingKey(key) && KeyAt(s, i + 1, key)
    requires forall k :: i + 1 + |key| + 1 <= k < |s| ==> ValueChar(s[k])
    ensures TrackingAt(s, i) == Some(|s| - i)
  {
    var v := i + 1 + |key| + 1;
    KeyOfParam(s, i + 1, key);
    RunEndAll(s, v, ValueChar);
    TrackingAtKey(s, i, v);
  }

  /**
   * An appended tracking parameter is matched whole at its separator: the
   * separator, the key, the `=` and the value sit where they were appended.
   */
  lemma TrackingParamMatches(u: string, sep: char, key: string, value: string)
    requires sep == '?' || sep == '&'
    requires TrackingKey(key)
    requires forall j :: 0 <= j < |value| ==> ValueChar(value[j])
    ensures var s := u + TrackingParam(sep, key, value);
      && |s| == |u| + 1 + |key| + 1 + |value|
      && s[|u|] == sep
      && KeyAt(s, |u| + 1, key)
      && forall k :: |u| + 1 + |key| + 1 <= k < |s| ==> ValueChar(s[k])
    ensures TrackingAt(u + TrackingParam(sep, key, value), |u|) == Some(|TrackingParam(sep, key, value)|)
  {
    var s := u + TrackingParam(sep, key, value);
    var v := |u| + 1 + |key| + 1;
    assert s == u + [sep] + key + "=" + value;
    forall k | 0 <= k < |key|
      ensures s[|u| + 1 + k] == key[k]
    {
    }
    assert s[|u| + 1 + |key|] == '=';
    forall k | v <= k < |s|
      ensures ValueChar(s[k])
    {
      assert s[k] == value[k - v];
    }
    TrackingAtOfParam(s, |u|, key);
  }

  /** A tracking key followed by `=` is the alternative the pattern takes: the earlier ones differ in their first two characters. */
  lemma KeyOfParam(s: string, j: nat, key: string)
    requires TrackingKey(key) && KeyAt(s, j, key)
    ensures KeyEnd(s, j) == Some(j + |key| + 1)
  {
    if key == "mibextid" {
      CharsAtIndex(s, j, key, 0);
      CharsAtDiffers(s, j, "igsh", 0);
    } else if key == "img_index" {
      CharsAtIndex(s, j, key, 0);
      CharsAtIndex(s, j, key, 1);
      CharsAtDiffers(s, j, "igsh", 1);
      CharsAtDiffers(s, j, "mibextid", 0);
    }
  }

  /** URLs that differ by an appended tracking parameter normalise alike: `?igsh=…`, `&mibextid=…`, … */
  lemma TrackingParamIgnored(u: string, sep: char, key: string, value: string)
    requires sep == '?' || sep == '&'
    requires TrackingKey(key)
    requires forall j :: 0 <= j < |value| ==> ValueChar(value[j])
    ensures Normalize(u + TrackingParam(sep, key, value)) == Normalize(u)
  {
    var t := TrackingParam(sep, key, value);
    TrackingParamMatches(u, sep, key, value);
    if sep == '?' {
      QueryParamChars(key, value);
    }
    StripAppendParam(u, t, 0);
  }

  /** A `?key=value` parameter holds only value characters, so it cannot end a match before it. */
  lemma QueryParamChars(key: string, value: string)
    requires TrackingKey(key)
    requires forall j :: 0 <= j < |value| ==> ValueChar(value[j])
    ensures forall j :: 0 <= j < |TrackingParam('?', key, value)| ==> ValueChar(TrackingParam('?', key, value)[j])
  {
    var t := TrackingParam('?', key, value);
    forall j | 0 <= j < |t|
      ensures ValueChar(t[j])
    {
      if j == 0 {
      } else if j <= |key| {
        assert t[j] == key[j - 1];
      } else if j == |key| + 1 {
        assert t[j] == '=';
      } else {
        assert t[j] == value[j - |key| - 2];
      }
    }
  }

  /**
   * URLs that differ by a trailing slash normalise alike, unless removing
   * the tracking parameters leaves the shorter one ending in `?`.
   */
  lemma TrailingSlashIgnored(u: string)
    requires !EndsWith(StripTracking(u), "?") && !EndsWith(StripTracking(u), "?\n")
    ensures Normalize(u + "/") == Normalize(u)
  {
    StripAppendSlash(u, 0);
    if StripTracking(u + "/") != StripTracking(u) {
      CleanUpSlash(StripTracking(u));
    }
  }

  /** A slash after text that does not end in `?` is cleaned away. */
  lemma CleanUpSlash(x: string)
    requires !EndsWith(x, "?") && !EndsWith(x, "?\n")
    ensures CleanUp(x + "/") == CleanUp(x)
  {
    QuestionNotFinal(x);
    CollapseAppend(x, '/');
    TrimEndDropped(CollapseQA(x), '/', IsSlash);
  }

  /** A text ending in `/` has no final `?` to drop. */
  lemma QuestionNotFinal(x: string)
    ensures DropFinalQuestion(x + "/") == x + "/"
  {
    var s := x + "/";
    assert s[|s| - 1] == '/';
    assert s[|s| - 1..] != "?";
    assert |s| >= 2 ==> s[|s| - 2..][1] == '/';
  }

  lemma {:induction false} StripFromChars(s: string, i: nat)
    requires i <= |s|
    ensures forall c :: c in StripFrom(s, i) ==> c in s[i..]
    decreases |s| - i
  {
    if i < |s| {
      StripNext(s, i);
      StripFromChars(s, NextScan(s, i));
      SuffixChars(s, i, NextScan(s, i));
    }
  }

  lemma SuffixChars(s: string, i: nat, j: nat)
    requires i <= j <= |s|
    ensures forall c :: c in s[j..] ==> c in s[i..]
  {
    forall c | c in s[j..]
      ensures c in s[i..]
    {
      var k :| 0 <= k < |s[j..]| && s[j..][k] == c;
      assert s[i..][k + j - i] == c;
    }
  }

  /**
   * The three spellings of a link without a query, with a trailing slash,
   * and with a tracking parameter after the slash, all get the same id.
   */
  lemma SameIdVariants(u: string, sep: char, key: string, value: string, digest: string -> string)
    requires '?' !in u
    requires sep == '?' || sep == '&'
    requires TrackingKey(key)
    requires forall j :: 0 <= j < |value| ==> ValueChar(value[j])
    ensures UrlId(u + "/", digest) == UrlId(u, digest)
    ensures UrlId(u + "/" + TrackingParam(sep, key, value), digest) == UrlId(u, digest)
    ensures UrlId(u + TrackingParam(sep, key, value), digest) == UrlId(u, digest)
  {
    NormalVariants(u, sep, key, value);
    SameNormalSameId(u + "/", u, digest);
    SameNormalSameId(u + "/" + TrackingParam(sep, key, value), u, digest);
    SameNormalSameId(u + TrackingParam(sep, key, value), u, digest);
  }

  /** The id depends on the normal form only. */
  lemma SameNormalSameId(a: string, b: string, digest: string -> string)
    requires Normalize(a) == Normalize(b)
    ensures UrlId(a, digest) == UrlId(b, digest)
  {
  }

  /** The normal forms behind `SameIdVariants`. */
  lemma NormalVariants(u: string, sep: char, key: string, value: string)
    requires '?' !in u
    requires sep == '?' || sep == '&'
    requires TrackingKey(key)
    requires forall j :: 0 <= j < |value| ==> ValueChar(value[j])
    ensures Normalize(u + "/") == Normalize(u)
    ensures Normalize(u + "/" + TrackingParam(sep, key, value)) == Normalize(u)
    ensures Normalize(u + TrackingParam(sep, key, value)) == Normalize(u)
  {
    NoFinalQuestion(u);
    TrailingSlashIgnored(u);
    TrackingParamIgnored(u + "/", sep, key, value);
    TrackingParamIgnored(u, sep, key, value);
  }

  /** Without a `?` in the URL, none is left at the end after the tracking parameters go. */
  lemma NoFinalQuestion(u: string)
    requires '?' !in u
    ensures !EndsWith(StripTracking(u), "?") && !EndsWith(StripTracking(u), "?\n")
  {
    StripFromChars(u, 0);
    var x := StripTracking(u);
    assert u[0..] == u;
    assert '?' !in x;
    EndsWithMissingChar(x, "?", 0);
    EndsWithMissingChar(x, "?\n", 0);
  }

  lemma {:induction false} StripFromPlain(s: string, i: nat)
    requires i <= |s|
    requires forall j :: i <= j < |s| ==> TrackingAt(s, j).None?
    ensures StripFrom(s, i) == s[i..]
    decreases |s| - i
  {
    if i < |s| {
      StripFromPlain(s, i + 1);
      assert s[i..] == [s[i]] + s[i + 1..];
    }
  }

  /** Without an `=` there is nothing to strip. */
  lemma StripWithoutEquals(s: string)
    requires '=' !in s
    ensures StripTracking(s) == s
  {
    forall j | 0 <= j < |s|
      ensures TrackingAt(s, j).None?
    {
      if KeyAt(s, j + 1, "igsh") || KeyAt(s, j + 1, "mibextid") || KeyAt(s, j + 1, "img_index") {
        assert false;
      }
    }
    StripFromPlain(s, 0);
  }

  lemma {:induction false} CollapseWithoutPair(s: string)
    requires forall j :: 0 <= j < |s| - 1 ==> !(s[j] == '?' && s[j + 1] == '&')
    ensures CollapseQA(s) == s
    decreases |s|
  {
    if s != [] {
      CollapseWithoutPair(s[1..]);
    }
  }

  /**
   * Normalisation is not idempotent: `x/A?/` loses its slash on the first
   * pass and only then its `?` on the second.
   */
  lemma NormalizeNotIdempotent()
    ensures Normalize("x/A?/") == "x/A?"
    ensures Normalize("x/A?") == "x/A"
    ensures Normalize(Normalize("x/A?/")) != Normalize("x/A?/")
  {
    StripWithoutEquals("x/A?/");
    StripWithoutEquals("x/A?");
    SlashAfterQuestion("x/A?/");
    QuestionAtEnd("x/A?");
  }

  lemma SlashAfterQuestion(x: string)
    requires x == "x/A?/"
    ensures CleanUp(x) == "x/A?"
  {
    assert DropFinalQuestion(x) == x;
    CollapseWithoutPair(x);
    TrimEndDropped("x/A?", '/', IsSlash);
    assert x == "x/A?" + ['/'];
  }

  lemma QuestionAtEnd(x: string)
    requires x == "x/A?"
    ensures CleanUp(x) == "x/A"
  {
    assert DropFinalQuestion(x) == "x/A";
    CollapseWithoutPair("x/A");
  }

  /** A tracking parameter right after `?` takes the `?` with it, leaving `&` to start the query. */
  lemma QuestionMarkLost()
    ensures Normalize("a?igsh=x&y=1") == "a&y=1"
  {
    QuestionMarkStrip("a?igsh=x&y=1");
    QuestionMarkCleanUp("a&y=1");
  }

  lemma QuestionMarkCleanUp(x: string)
    requires x == "a&y=1"
    ensures CleanUp(x) == x
  {
    assert DropFinalQuestion(x) == x;
    CollapseWithoutPair(x);
  }

  lemma QuestionMarkStrip(s: string)
    requires s == "a?igsh=x&y=1"
    ensures StripFrom(s, 0) == "a&y=1"
  {
    QuestionMarkMatch(s);
    QuestionMarkTail(s);
    StripNext(s, 1);
    StripNext(s, 0);
  }

  /** After the match, `&y=1` holds no tracking key and is kept whole. */
  lemma QuestionMarkTail(s: string)
    requires s == "a?igsh=x&y=1"
    ensures StripFrom(s, 8) == "&y=1"
  {
    CharsAtDiffers(s, 9, "igsh", 0);
    CharsAtDiffers(s, 9, "mibextid", 0);
    CharsAtDiffers(s, 9, "img_index", 0);
    StripNext(s, 8);
    StripNext(s, 9);
    StripNext(s, 10);
    StripNext(s, 11);
  }

  lemma QuestionMarkMatch(s: string)
    requires s == "a?igsh=x&y=1"
    ensures TrackingAt(s, 1) == Some(7)
  {
    assert s[2..6] == "igsh";
    CharsAtSlice(s, 2, "igsh");
    assert KeyEnd(s, 2) == Some(7);
    assert RunEnd(s, 7, ValueChar) == 8;
  }

  // ---------------------------------------------------------------------
  // Platforms and links
  // ---------------------------------------------------------------------

  /** `detect_platform`: the first of the four domains found in the lower-cased URL. */
  function DetectPlatform(url: string): (r: string)
    ensures r in {"instagram", "facebook", "linkedin", "threads", "unknown"}
  {
    var lower := ToLower(url);
    if Contains(lower, "instagram.com") then "instagram"
    else if Contains(lower, "facebook.com") then "facebook"
    else if Contains(lower, "linkedin.com") then "linkedin"
    else if Contains(lower, "threads.net") then "threads"
    else "unknown"
  }

  /** The domains are checked in the order instagram, facebook, linkedin, threads; none of them gives "unknown". */
  lemma DetectPlatformOrder(url: string)
    ensures DetectPlatform(url) == "instagram" <==> Contains(ToLower(url), "instagram.com")
    ensures DetectPlatform(url) == "facebook" <==>
      !Contains(ToLower(url), "instagram.com") && Contains(ToLower(url), "facebook.com")
    ensures DetectPlatform(url) == "linkedin" <==>
      !Contains(ToLower(url), "instagram.com") && !Contains(ToLower(url), "facebook.com")
      && Contains(ToLower(url), "linkedin.com")
    ensures DetectPlatform(url) == "threads" <==>
      !Contains(ToLower(url), "instagram.com") && !Contains(ToLower(url), "facebook.com")
      && !Contains(ToLower(url), "linkedin.com") && Contains(ToLower(url), "threads.net")
    ensures DetectPlatform(url) == "unknown" <==>
      !Contains(ToLower(url), "instagram.com") && !Contains(ToLower(url), "facebook.com")
      && !Contains(ToLower(url), "linkedin.com") && !Contains(ToLower(url), "threads.net")
  {
  }

  /** Every detected platform is a value of the platform enumeration. */
  lemma DetectedPlatformIsKnown(url: string)
    ensures Models.PlatformOf(DetectPlatform(url)).Some?
  {
  }

  /** A character that may continue a link: `[^\s\]\)]`. */
  predicate LinkChar(c: char)
  {
    !IsSpace(c) && c != ']' && c != ')'
  }

  /** `text` occurs at `j`, ignoring ASCII case. */
  predicate LitAt(s: string, j: nat, text: string)
  {
    j + |text| <= |s| && ToLower(s[j..j + |text|]) == text
  }

  /** The end of `(?:instagram|facebook|linkedin|threads)` at `j`; no alternative is a prefix of another. */
  function SiteEnd(s: string, j: nat): (r: Option<nat>)
    ensures r.Some? ==> j < r.value <= |s|
  {
    if LitAt(s, j, "instagram") then Some(j + 9)
    else if LitAt(s, j, "facebook") then Some(j + 8)
    else if LitAt(s, j, "linkedin") then Some(j + 8)
    else if LitAt(s, j, "threads") then Some(j + 7)
    else None
  }

  /** The end of `https?://(?:www\.)?` at `i`, ignoring case. */
  function SchemeEnd(s: string, i: nat): (r: Option<nat>)
    ensures r.Some? ==> i + 4 < r.value <= |s| && LitAt(s, i, "http")
  {
    if !LitAt(s, i, "http") then None
    else
      var j := if LitAt(s, i + 4, "s") then i + 5 else i + 4;
      if !(j + 3 <= |s| && s[j..j + 3] == "://") then None
      else if LitAt(s, j + 3, "www.") then Some(j + 7)
      else Some(j + 3)
  }

  /** The end of `(?:instagram|facebook|linkedin|threads)\.(?:com|net)/` at `j`, ignoring case. */
  function HostEnd(s: string, j: nat): (r: Option<nat>)
    ensures r.Some? ==> j < r.value <= |s|
  {
    match SiteEnd(s, j)
    case None => None
    case Some(k) => if LitAt(s, k, ".com/") || LitAt(s, k, ".net/") then Some(k + 5) else None
  }

  /**
   * The end of a match of the combined link pattern
   * `https?://(?:www\.)?(?:instagram|facebook|linkedin|threads)\.(?:com|net)/[^\s\]\)]+`
   * (ignoring case) starting at `i`. Each optional part is decided by the
   * next character, so the first choice is the only one that can succeed.
   */
  function LinkAt(s: string, i: nat): (r: Option<nat>)
    requires i <= |s|
    ensures r.Some? ==> i + 4 < r.value <= |s| && LitAt(s, i, "http")
    ensures r.Some? ==> LinkChar(s[r.value - 1]) && (r.value == |s| || !LinkChar(s[r.value]))
  {
    match SchemeEnd(s, i)
    case None => None
    case Some(j) =>
      match HostEnd(s, j)
      case None => None
      case Some(k) =>
        var e := RunEnd(s, k, LinkChar);
        RunEndKept(s, k, LinkChar);
        if e == k then None else Some(e)
  }

  /** `COMBINED_PATTERN.finditer(s)` from position `i`: the texts of the successive non-overlapping matches. */
  function LinksFrom(s: string, i: nat): (r: seq<string>)
    requires i <= |s|
    ensures forall k :: 0 <= k < |r| ==> LinkText(r[k])
    decreases |s| - i
  {
    if i == |s| then []
    else
      match LinkAt(s, i)
      case Some(e) =>
        var x := s[i..e];
        assert x[|x| - 1] == s[e - 1];
        var rest := LinksFrom(s, e);
        LinkTextsCons(x, rest);
        [x] + rest
      case None => LinksFrom(s, i + 1)
  }

  /** What every match of the link pattern is: longer than `http` and ending in a link character. */
  predicate LinkText(x: string)
  {
    |x| > 4 && LinkChar(x[|x| - 1])
  }

  lemma LinkTextsCons(x: string, rest: seq<string>)
    requires LinkText(x) && forall k :: 0 <= k < |rest| ==> LinkText(rest[k])
    ensures forall k :: 0 <= k < |[x] + rest| ==> LinkText(([x] + rest)[k])
  {
  }

  /** `COMBINED_PATTERN.search(s, i)`: the leftmost position at or after `i` where a link starts. */
  function SearchLink(s: string, i: nat): (r: Option<nat>)
    requires i <= |s|
    ensures r.Some? ==> i <= r.value <= |s|
    decreases |s| - i
  {
    if LinkAt(s, i).Some? then Some(i)
    else if i == |s| then None
    else SearchLink(s, i + 1)
  }

  /** `bool(COMBINED_PATTERN.search(s))`. */
  predicate HasLink(s: string)
  {
    SearchLink(s, 0).Some?
  }

  /** No match of the link pattern starts at or after `i`. */
  predicate NoLinkFrom(s: string, i: nat)
  {
    forall j :: i <= j <= |s| ==> LinkAt(s, j).None?
  }

  lemma NoLinkStep(s: string, i: nat)
    requires i < |s|
    ensures NoLinkFrom(s, i) <==> LinkAt(s, i).None? && NoLinkFrom(s, i + 1)
  {
  }

  lemma NoLinkAtEnd(s: string)
    ensures NoLinkFrom(s, |s|)
  {
    assert !LitAt(s, |s|, "http");
  }

  lemma {:induction false} LinksFromEmpty(s: string, i: nat)
    requires i <= |s|
    ensures LinksFrom(s, i) == [] <==> NoLinkFrom(s, i)
    decreases |s| - i
  {
    if i == |s| {
      NoLinkAtEnd(s);
    } else {
      NoLinkStep(s, i);
      if LinkAt(s, i).None? {
        LinksFromEmpty(s, i + 1);
      }
    }
  }

  /** The search finds the leftmost link start, and finds none exactly when no link starts from `i` on. */
  lemma {:induction false} SearchLinkSpec(s: string, i: nat)
    requires i <= |s|
    ensures SearchLink(s, i).None? <==> NoLinkFrom(s, i)
    ensures SearchLink(s, i).Some? ==> LinkAt(s, SearchLink(s, i).value).Some?
    ensures SearchLink(s, i).Some? ==> forall j :: i <= j < SearchLink(s, i).value ==> LinkAt(s, j).None?
    decreases |s| - i
  {
    if i == |s| {
      NoLinkAtEnd(s);
    } else {
      NoLinkStep(s, i);
      if LinkAt(s, i).None? {
        SearchLinkSpec(s, i + 1);
        assert SearchLink(s, i) == SearchLink(s, i + 1);
        if SearchLink(s, i).Some? {
          LeftmostStep(s, i, SearchLink(s, i).value);
        }
      }
    }
  }

  lemma LeftmostStep(s: string, i: nat, v: nat)
    requires i < v <= |s| && LinkAt(s, i).None?
    requires forall j :: i + 1 <= j < v ==> LinkAt(s, j).None?
    ensures forall j :: i <= j < v ==> LinkAt(s, j).None?
  {
  }

  /** `finditer` finds nothing exactly when `search` fails. */
  lemma LinksIffFound(s: string)
    ensures LinksFrom(s, 0) == [] <==> !HasLink(s)
    ensures HasLink(s) <==> exists i :: 0 <= i <= |s| && LinkAt(s, i).Some?
  {
    LinksFromEmpty(s, 0);
    SearchLinkSpec(s, 0);
  }

  /** The characters `rstrip` removes from a match: `.,;:!?)'"`. */
  predicate Punct(c: char)
  {
    c in ".,;:!?)'\""
  }

  // ---------------------------------------------------------------------
  // Lines, front matter and context
  // ---------------------------------------------------------------------

  /** The non-blank, link-free stripped lines among `lines[lo..hi]`, in order. */
  function ContextParts(lines: seq<string>, lo: nat, hi: nat): seq<string>
    requires lo <= hi <= |lines|
    decreases hi - lo
  {
    if lo == hi then []
    else
      var l := Strip(lines[hi - 1]);
      ContextParts(lines, lo, hi - 1) + (if l != [] && !HasLink(l) then [l] else [])
  }

  function WindowStart(idx: nat, window: int): nat
  {
    if idx - window < 0 then 0 else if idx - window > idx then idx else idx - window
  }

  /** The context of line `idx`: the kept parts of the `window` lines before it, joined by " | ". */
  function ContextOf(lines: seq<string>, idx: nat, window: int): Option<string>
    requires idx <= |lines|
  {
    var parts := ContextParts(lines, WindowStart(idx, window), idx);
    if parts == [] then None else Some(Join(parts, " | "))
  }

  /** `extract_context`: the loop over the lines before `idx`. */
  method ExtractContext(lines: seq<string>, idx: nat, window: int) returns (r: Option<string>)
    requires idx <= |lines|
    ensures r == ContextOf(lines, idx, window)
  {
    var lo := WindowStart(idx, window);
    var parts: seq<string> := [];
    for i := lo to idx
      invariant parts == ContextParts(lines, lo, i)
    {
      var line := Strip(lines[i]);
      if line != [] && !HasLink(line) {
        parts := parts + [line];
      }
    }
    if parts == [] {
      r := None;
    } else {
      r := Some(Join(parts, " | "));
    }
  }

  /** With the default window of one line, the context is the previous line, stripped, if it is non-blank and link-free. */
  lemma ContextOneLine(lines: seq<string>, idx: nat)
    requires idx <= |lines|
    ensures idx == 0 ==> ContextOf(lines, idx, 1).None?
    ensures idx > 0 ==>
      var l := Strip(lines[idx - 1]);
      ContextOf(lines, idx, 1) == if l != [] && !HasLink(l) then Some(l) else None
  {
    if idx > 0 {
      assert WindowStart(idx, 1) == idx - 1;
      assert ContextParts(lines, idx - 1, idx - 1) == [];
    }
  }

  /** Where the front matter ends: just after the first `\n---\n` following an opening `---`. */
  function FrontMatterEnd(content: string): (r: Option<nat>)
    ensures r.Some? ==> 8 <= r.value <= |content|
  {
    if StartsWith(content, "---") then
      match IndexFrom(content[3..], "\n---\n", 0)
      case Some(k) => Some(k + 5 + 3)
      case None => None
    else None
  }

  /** The index of the first line that is searched for links. */
  function StartLine(content: string): nat
  {
    match FrontMatterEnd(content)
    case Some(e) => CountChar(content[..e], '\n')
    case None => 0
  }

  /**
   * The front matter, when present, is skipped up to and including its
   * closing `---` line, and the opening line starts with `---`; without a
   * closing line nothing is skipped.
   */
  lemma FrontMatterSkipped(content: string)
    ensures !StartsWith(content, "---") ==> StartLine(content) == 0
    ensures StartLine(content) > 0 ==>
      var lines := Split(content, '\n');
      var n := StartLine(content);
      2 <= n <= |lines| && lines[n - 1] == "---" && StartsWith(lines[0], "---")
  {
    match FrontMatterEnd(content)
    case None =>
    case Some(e) =>
      var k := IndexFrom(content[3..], "\n---\n", 0).value;
      var p := content[..3 + k];
      var rest := content[3 + k + 5..];
      FrontMatterShape(content, k);
      FenceLines(p, rest);
  }

  /** With `p` opening with `---`, the fence after it is line number `CountChar(p + fence)`, counted from 1. */
  lemma FenceLines(p: string, rest: string)
    requires |p| >= 3 && p[..3] == "---"
    ensures var lines := Split(p + "\n---\n" + rest, '\n');
      var n := CountChar(p + "\n---\n", '\n');
      2 <= n <= |lines| && lines[n - 1] == "---" && StartsWith(lines[0], "---")
  {
    SplitAroundFence(p, rest);
    CountCharAppend(p, "\n---\n", '\n');
    assert CountChar("\n---\n", '\n') == 2;
    assert p == "---" + p[3..];
    SplitHead("---", p[3..], '\n');
  }

  /** The text up to the closing fence is the opening `---`, then the front matter, then the fence. */
  lemma FrontMatterShape(content: string, k: nat)
    requires StartsWith(content, "---")
    requires IndexFrom(content[3..], "\n---\n", 0) == Some(k)
    ensures 3 + k + 5 <= |content|
    ensures content == content[..3 + k] + "\n---\n" + content[3 + k + 5..]
    ensures content[..k + 5 + 3] == content[..3 + k] + "\n---\n"
    ensures content[..3 + k][..3] == "---"
  {
    var c3 := content[3..];
    assert c3[k..k + 5] == "\n---\n";
    assert content[3 + k..3 + k + 5] == "\n---\n";
    assert content == content[..3 + k] + content[3 + k..3 + k + 5] + content[3 + k + 5..];
    assert content[..k + 5 + 3] == content[..3 + k] + content[3 + k..3 + k + 5];
  }

  /** The lines around a `---` line: those of the text before it, the fence, and those after. */
  lemma SplitAroundFence(p: string, rest: string)
    ensures Split(p + "\n---\n" + rest, '\n') == Split(p, '\n') + ["---"] + Split(rest, '\n')
    ensures |Split(p, '\n')| == CountChar(p, '\n') + 1
  {
    SplitLength(p, '\n');
    assert p + "\n---\n" + rest == p + ['\n'] + "---" + ['\n'] + rest;
    SplitAroundLine(p, "---", rest, '\n');
  }

  lemma SplitAroundLine(p: string, line: string, rest: string, sep: char)
    requires sep !in line
    ensures Split(p + [sep] + line + [sep] + rest, sep) == Split(p, sep) + [line] + Split(rest, sep)
  {
    var tail := line + [sep] + rest;
    assert p + [sep] + line + [sep] + rest == p + [sep] + tail;
    SplitConcat(p, tail, sep);
    SplitConcat(line, rest, sep);
    SplitNoSep(line, sep);
  }

  // ---------------------------------------------------------------------
  // Parsing a note and scanning a directory
  // ---------------------------------------------------------------------

  /** A note file as the parser finds it. */
  datatype NoteFile = Absent | Unreadable(error: string) | Present(content: string)

  /** The links of line `idx`: each match with its trailing punctuation removed. */
  function LineLinks(path: string, lines: seq<string>, idx: nat): (r: seq<ExtractedUrl>)
    requires idx < |lines|
    ensures |r| == |LinksFrom(lines[idx], 0)|
  {
    MakeLinks(path, lines, idx, LinksFrom(lines[idx], 0))
  }

  /** The records of the matches `found` on line `idx`, in order. */
  function MakeLinks(path: string, lines: seq<string>, idx: nat, found: seq<string>): (r: seq<ExtractedUrl>)
    requires idx < |lines|
    ensures |r| == |found|
    ensures forall k :: 0 <= k < |found| ==> r[k] == MakeLink(path, lines, idx, found[k])
  {
    if found == [] then []
    else MakeLinks(path, lines, idx, found[..|found| - 1]) + [MakeLink(path, lines, idx, found[|found| - 1])]
  }

  /** The record of one match on line `idx`. */
  function MakeLink(path: string, lines: seq<string>, idx: nat, text: string): ExtractedUrl
    requires idx < |lines|
  {
    var url := TrimEnd(text, Punct);
    ExtractedUrl(url, DetectPlatform(url), path, idx + 1, ContextOf(lines, idx, 1))
  }

  /** The links of the first `n` lines, skipping those before `start`. */
  function ParsedLinks(path: string, lines: seq<string>, start: nat, n: nat): seq<ExtractedUrl>
    requires n <= |lines|
  {
    if n == 0 then []
    else ParsedLinks(path, lines, start, n - 1) + (if n - 1 < start then [] else LineLinks(path, lines, n - 1))
  }

  /** Every link of a note, in line order. */
  function FileLinks(path: string, content: string): seq<ExtractedUrl>
  {
    var lines := Split(content, '\n');
    ParsedLinks(path, lines, StartLine(content), |lines|)
  }

  /** What makes a link well-formed for its note: the facts `parse_md_file` establishes. */
  predicate LinkOfNote(e: ExtractedUrl, path: string, lines: seq<string>, start: nat)
  {
    && e.sourceFile == path
    && start < e.lineNumber <= |lines|
    && e.platform == DetectPlatform(e.url)
    && (e.url == [] || !Punct(e.url[|e.url| - 1]))
    && e.context == ContextOf(lines, e.lineNumber - 1, 1)
  }

  predicate AllOfNote(xs: seq<ExtractedUrl>, path: string, lines: seq<string>, start: nat)
  {
    forall k :: 0 <= k < |xs| ==> LinkOfNote(xs[k], path, lines, start)
  }

  lemma MakeLinkFacts(path: string, lines: seq<string>, idx: nat, text: string, start: nat)
    requires start <= idx < |lines|
    ensures LinkOfNote(MakeLink(path, lines, idx, text), path, lines, start)
  {
  }

  lemma LineLinksFacts(path: string, lines: seq<string>, idx: nat, start: nat)
    requires start <= idx < |lines|
    ensures AllOfNote(LineLinks(path, lines, idx), path, lines, start)
  {
    var found := LinksFrom(lines[idx], 0);
    var links := MakeLinks(path, lines, idx, found);
    forall k | 0 <= k < |links|
      ensures LinkOfNote(links[k], path, lines, start)
    {
      MakeLinkFacts(path, lines, idx, found[k], start);
    }
  }

  /**
   * Every extracted link names its note, sits on a searched line (counted
   * from 1, after the front matter), carries the platform detected from its
   * trimmed URL and no trailing punctuation.
   */
  lemma {:induction false} ParsedLinksFacts(path: string, lines: seq<string>, start: nat, n: nat)
    requires n <= |lines|
    ensures AllOfNote(ParsedLinks(path, lines, start, n), path, lines, start)
  {
    if n > 0 {
      ParsedLinksFacts(path, lines, start, n - 1);
      ParsedLinksNext(path, lines, start, n - 1);
      if n - 1 >= start {
        LineLinksFacts(path, lines, n - 1, start);
        FactsConcat(ParsedLinks(path, lines, start, n - 1), LineLinks(path, lines, n - 1), path, lines, start);
      }
    }
  }

  lemma FactsConcat(a: seq<ExtractedUrl>, b: seq<ExtractedUrl>, path: string, lines: seq<string>, start: nat)
    requires AllOfNote(a, path, lines, start) && AllOfNote(b, path, lines, start)
    ensures AllOfNote(a + b, path, lines, start)
  {
    forall k | 0 <= k < |a + b|
      ensures LinkOfNote((a + b)[k], path, lines, start)
    {
      if k >= |a| {
        assert (a + b)[k] == b[k - |a|];
      }
    }
  }

  function ParseResult(path: string, file: NoteFile): Result<seq<ExtractedUrl>>
  {
    match file
    case Absent => Failure("File not found: " + path)
    case Unreadable(msg) => Failure(msg)
    case Present(content) => Success(FileLinks(path, content))
  }

  /** `parse_md_file`: a missing or unreadable note is an error, a readable one is parsed. */
  method ParseMdFile(path: string, file: NoteFile) returns (r: Result<seq<ExtractedUrl>>)
    ensures file.Absent? ==> r == Failure("File not found: " + path)
    ensures file.Unreadable? ==> r == Failure(file.error)
    ensures file.Present? ==> r == Success(FileLinks(path, file.content))
  {
    match file
    case Absent => return Failure("File not found: " + path);
    case Unreadable(msg) => return Failure(msg);
    case Present(content) =>
      var links := ScanNote(path, content);
      return Success(links);
  }

  /** `parse_md_file` on a readable note: its lines after the front matter, in order. */
  method ScanNote(path: string, content: string) returns (extracted: seq<ExtractedUrl>)
    ensures extracted == FileLinks(path, content)
  {
    var lines := Split(content, '\n');
    var start := StartLine(content);
    extracted := ScanLines(path, lines, start);
  }

  /** The outer loop of `parse_md_file`: the links of each line from `start` on. */
  method ScanLines(path: string, lines: seq<string>, start: nat) returns (extracted: seq<ExtractedUrl>)
    ensures extracted == ParsedLinks(path, lines, start, |lines|)
  {
    extracted := [];
    for idx := 0 to |lines|
      invariant extracted == ParsedLinks(path, lines, start, idx)
    {
      ParsedLinksNext(path, lines, start, idx);
      if idx >= start {
        var links := ScanLine(path, lines, idx);
        extracted := extracted + links;
      }
    }
  }

  lemma ParsedLinksNext(path: string, lines: seq<string>, start: nat, idx: nat)
    requires idx < |lines|
    ensures idx < start ==> ParsedLinks(path, lines, start, idx + 1) == ParsedLinks(path, lines, start, idx)
    ensures idx >= start ==>
      ParsedLinks(path, lines, start, idx + 1) == ParsedLinks(path, lines, start, idx) + LineLinks(path, lines, idx)
  {
  }

  /** The inner loop of `parse_md_file`: one record per match on line `idx`, in order. */
  method ScanLine(path: string, lines: seq<string>, idx: nat) returns (links: seq<ExtractedUrl>)
    requires idx < |lines|
    ensures links == LineLinks(path, lines, idx)
  {
    var found := LinksFrom(lines[idx], 0);
    links := [];
    for k := 0 to |found|
      invariant links == MakeLinks(path, lines, idx, found[..k])
    {
      var e := LinkRecord(path, lines, idx, found[k]);
      MakeLinksNext(path, lines, idx, found, k);
      links := links + [e];
    }
    assert found[..|found|] == found;
  }

  lemma MakeLinksNext(path: string, lines: seq<string>, idx: nat, found: seq<string>, k: nat)
    requires idx < |lines| && k < |found|
    ensures MakeLinks(path, lines, idx, found[..k + 1])
         == MakeLinks(path, lines, idx, found[..k]) + [MakeLink(path, lines, idx, found[k])]
  {
    assert found[..k + 1][..k] == found[..k];
  }

  /** The record built for one match: trimmed URL, its platform, the line number from 1, the context. */
  method LinkRecord(path: string, lines: seq<string>, idx: nat, text: string) returns (e: ExtractedUrl)
    requires idx < |lines|
    ensures e == MakeLink(path, lines, idx, text)
  {
    var url := TrimEnd(text, Punct);
    var platform := DetectPlatform(url);
    var context := ExtractContext(lines, idx, 1);
    e := ExtractedUrl(url, platform, path, idx + 1, context);
  }

  /** Every link of every note carries a platform of the enumeration, so building its record never raises. */
  lemma {:induction false} ScanLinksKnown(files: seq<(string, NoteFile)>)
    ensures forall k :: 0 <= k < |ScanLinks(files)| ==> Models.PlatformOf(ScanLinks(files)[k].platform).Some?
    decreases |files|
  {
    if files != [] {
      var init, last := files[..|files| - 1], files[|files| - 1];
      ScanLinksKnown(init);
      var more := match ParseResult(last.0, last.1) case Success(v) => v case Failure(_) => [];
      if last.1.Present? {
        var lines := Split(last.1.content, '\n');
        ParsedLinksFacts(last.0, lines, StartLine(last.1.content), |lines|);
      }
      forall k | 0 <= k < |more|
        ensures Models.PlatformOf(more[k].platform).Some?
      {
        DetectedPlatformIsKnown(more[k].url);
      }
      var before := ScanLinks(init);
      forall k | 0 <= k < |ScanLinks(files)|
        ensures Models.PlatformOf(ScanLinks(files)[k].platform).Some?
      {
        if k >= |before| {
          assert ScanLinks(files)[k] == more[k - |before|];
        } else {
          assert ScanLinks(files)[k] == before[k];
        }
      }
    }
  }

  /** The links of the notes in the order given, skipping notes that fail to parse. */
  function ScanLinks(files: seq<(string, NoteFile)>): seq<ExtractedUrl>
  {
    if files == [] then []
    else
      var last := files[|files| - 1];
      ScanLinks(files[..|files| - 1]) + (match ParseResult(last.0, last.1) case Success(v) => v case Failure(_) => [])
  }

  function SourcesOf(urls: seq<ExtractedUrl>): set<string>
  {
    set k | 0 <= k < |urls| :: urls[k].sourceFile
  }

  /** The links collected from the notes of a directory, and the notes they came from. */
  class UrlCollection {
    var urls: seq<ExtractedUrl>
    var sourceFiles: set<string>

    constructor()
      ensures urls == [] && sourceFiles == {}
    {
      urls := [];
      sourceFiles := {};
    }

    /** Appends one link and records its note. */
    method Add(u: ExtractedUrl)
      modifies this
      ensures urls == old(urls) + [u]
      ensures sourceFiles == old(sourceFiles) + {u.sourceFile}
    {
      urls := urls + [u];
      sourceFiles := sourceFiles + {u.sourceFile};
    }

    /** The links grouped by platform, platforms in order of first appearance. */
    method ByPlatform() returns (r: seq<(string, seq<ExtractedUrl>)>)
      ensures r == Groups(urls, LinkPlatform)
    {
      r := GroupsLoop(urls, LinkPlatform);
    }

    /** The first link with each id, in input order. */
    method UniqueUrls(digest: string -> string) returns (r: seq<ExtractedUrl>)
      ensures r == FirstOfEach(urls, IdKey(digest))
    {
      r := FirstOfEachLoop(urls, IdKey(digest));
    }
  }

  function LinkPlatform(e: ExtractedUrl): string
  {
    e.platform
  }

  /** `scan_directory` over a directory given as its note files, in the order `sorted` visits them. */
  method ScanDirectory(path: string, isDir: bool, files: seq<(string, NoteFile)>) returns (r: Result<UrlCollection>)
    ensures !isDir ==> r == Failure("Not a directory: " + path)
    ensures isDir ==> r.Success? && fresh(r.value)
    ensures isDir ==> r.value.urls == ScanLinks(files) && r.value.sourceFiles == SourcesOf(r.value.urls)
  {
    if !isDir {
      return Failure("Not a directory: " + path);
    }
    var collection := new UrlCollection();
    for i := 0 to |files|
      invariant fresh(collection)
      invariant collection.urls == ScanLinks(files[..i])
      invariant collection.sourceFiles == SourcesOf(collection.urls)
    {
      ScanLinksNext(files, i);
      var parsed := ParseMdFile(files[i].0, files[i].1);
      if parsed.Success? {
        AddAll(collection, parsed.value);
      }
    }
    assert files[..|files|] == files;
    return Success(collection);
  }

  lemma ScanLinksNext(files: seq<(string, NoteFile)>, i: nat)
    requires i < |files|
    ensures ScanLinks(files[..i + 1]) == ScanLinks(files[..i])
      + match ParseResult(files[i].0, files[i].1) case Success(v) => v case Failure(_) => []
  {
    assert files[..i + 1][..i] == files[..i];
  }

  /** `collection.add` for each link of one note, in order. */
  method AddAll(collection: UrlCollection, found: seq<ExtractedUrl>)
    requires collection.sourceFiles == SourcesOf(collection.urls)
    modifies collection
    ensures collection.urls == old(collection.urls) + found
    ensures collection.sourceFiles == SourcesOf(collection.urls)
  {
    ghost var before := collection.urls;
    for k := 0 to |found|
      invariant collection.urls == before + found[..k]
      invariant collection.sourceFiles == SourcesOf(collection.urls)
    {
      collection.Add(found[k]);
      assert found[..k + 1] == found[..k] + [found[k]];
      SourcesAppend(before + found[..k], found[k]);
    }
    assert found[..|found|] == found;
  }

  lemma SourcesAppend(urls: seq<ExtractedUrl>, u: ExtractedUrl)
    ensures SourcesOf(urls + [u]) == SourcesOf(urls) + {u.sourceFile}
  {
    var xs := urls + [u];
    assert xs[|urls|] == u;
    forall f | f in SourcesOf(urls)
      ensures f in SourcesOf(xs)
    {
      var k :| 0 <= k < |urls| && urls[k].sourceFile == f;
      assert xs[k] == urls[k];
    }
  }

  /**
   * `unique_urls` in terms of ids: the kept links have pairwise distinct
   * ids, every input id is kept, and they are the first links of their ids,
   * taken in input order.
   */
  lemma UniqueLinks(urls: seq<ExtractedUrl>, digest: string -> string) returns (pos: seq<nat>)
    ensures var u := FirstOfEach(urls, IdKey(digest));
      && Distinct(Keys(u, IdKey(digest)))
      && (forall k :: 0 <= k < |urls| ==> UrlId(urls[k].url, digest) in Keys(u, IdKey(digest)))
      && |pos| == |u|
      && (forall j :: 0 <= j < |pos| ==> pos[j] < |urls| && u[j] == urls[pos[j]])
      && (forall i, j :: 0 <= i < j < |pos| ==> pos[i] < pos[j])
  {
    FirstOfEachKeys(urls, IdKey(digest));
    pos := FirstOfEachPositions(urls, IdKey(digest));
    forall k | 0 <= k < |urls|
      ensures UrlId(urls[k].url, digest) in Keys(FirstOfEach(urls, IdKey(digest)), IdKey(digest))
    {
      assert Keys(urls, IdKey(digest))[k] == UrlId(urls[k].url, digest);
    }
  }

  // ---------------------------------------------------------------------
  // Duplicates
  // ---------------------------------------------------------------------

  /** The ids that occur more than once, each with its links in input order. */
  datatype DuplicateReport = DuplicateReport(duplicates: seq<(string, seq<ExtractedUrl>)>)
  {
    /** The duplicate entries beyond the first of each id. */
    function TotalDuplicates(): int
    {
      Surplus(duplicates)
    }

    function UniqueDuplicatedCount(): nat
    {
      |duplicates|
    }

    predicate NonEmpty()
    {
      duplicates != []
    }
  }

  /** `detect_duplicates`: group by id in a loop, then keep the groups of more than one link. */
  method DetectDuplicates(urls: seq<ExtractedUrl>, digest: string -> string) returns (r: DuplicateReport)
    ensures r.duplicates == Repeated(Groups(urls, IdKey(digest)))
  {
    var byId := GroupsLoop(urls, IdKey(digest));
    r := DuplicateReport(Repeated(byId));
  }

  /**
   * Each reported group is every link of one id, at least two of them, and
   * the total of duplicates is the number of links minus the number of ids.
   */
  lemma DuplicateCounts(urls: seq<ExtractedUrl>, digest: string -> string)
    ensures var d := DuplicateReport(Repeated(Groups(urls, IdKey(digest))));
      && d.TotalDuplicates() == |urls| - |FirstOfEach(urls, IdKey(digest))|
      && (forall j :: 0 <= j < |d.duplicates| ==>
            |d.duplicates[j].1| > 1 && d.duplicates[j].1 == WithKey(urls, IdKey(digest), d.duplicates[j].0))
  {
    RepeatedSurplus(urls, IdKey(digest));
    RepeatedGroups(urls, IdKey(digest));
  }
}
