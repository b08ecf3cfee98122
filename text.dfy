/**
 * Character and string helpers with Python's meaning: `str.isspace`,
 * `lower`/`upper` (ASCII letters only), `in` on strings, `strip`,
 * `split()`/`join`, decimal digits and code-point ordering of strings.
 */
module Text {
  import opened Wrappers

  /** Python's whitespace test (`str.isspace`, the regex class `\s`, `str.split()`). */
  predicate IsSpace(c: char)
  {
    c == ' ' || ('\t' <= c <= '\r') || ('\U{1C}' <= c <= '\U{1F}') || c == '\U{85}' || c == '\U{A0}'
    || c == '\U{1680}' || ('\U{2000}' <= c <= '\U{200A}') || c == '\U{2028}' || c == '\U{2029}'
    || c == '\U{202F}' || c == '\U{205F}' || c == '\U{3000}'
  }

  predicate IsDigit(c: char)
  {
    '0' <= c <= '9'
  }

  predicate IsAsciiLetter(c: char)
  {
    ('a' <= c <= 'z') || ('A' <= c <= 'Z')
  }

  /**
   * `str.isalpha` over the scripts a title is likely to be written in:
   * ASCII and Latin-1 letters, Latin Extended-A and -B, the Greek and
   * Cyrillic letters, Hiragana, Katakana, the CJK unified ideographs and
   * the Hangul syllables.
   */
  predicate IsAlpha(c: char)
  {
    IsAsciiLetter(c) || c == '\U{AA}' || c == '\U{B5}' || c == '\U{BA}'
    || ('\U{C0}' <= c <= '\U{D6}') || ('\U{D8}' <= c <= '\U{F6}') || ('\U{F8}' <= c <= '\U{24F}')
    || ('\U{391}' <= c <= '\U{3A1}') || ('\U{3A3}' <= c <= '\U{3C9}')
    || ('\U{400}' <= c <= '\U{481}') || ('\U{48A}' <= c <= '\U{4FF}')
    || ('\U{3041}' <= c <= '\U{3096}') || ('\U{30A1}' <= c <= '\U{30FA}')
    || ('\U{4E00}' <= c <= '\U{9FFF}') || ('\U{AC00}' <= c <= '\U{D7A3}')
  }

  /**
   * `str.isdigit` over the same scripts: the ASCII digits, the superscripts
   * one to three, the Arabic-Indic, extended Arabic-Indic, Devanagari and
   * full-width digits.
   */
  predicate IsUnicodeDigit(c: char)
  {
    IsDigit(c) || c == '\U{B2}' || c == '\U{B3}' || c == '\U{B9}'
    || ('\U{660}' <= c <= '\U{669}') || ('\U{6F0}' <= c <= '\U{6F9}')
    || ('\U{966}' <= c <= '\U{96F}') || ('\U{FF10}' <= c <= '\U{FF19}')
  }

  /** The regex class `\w` restricted to ASCII: letters, digits and `_`. */
  predicate IsWordChar(c: char)
  {
    IsAsciiLetter(c) || IsDigit(c) || c == '_'
  }

  function LowerChar(c: char): (r: char)
    ensures IsAsciiLetter(r) <==> IsAsciiLetter(c)
    ensures !IsAsciiLetter(c) ==> r == c
    ensures !('A' <= r <= 'Z')
  {
    if 'A' <= c <= 'Z' then (c as int + 32) as char else c
  }

  function UpperChar(c: char): (r: char)
    ensures !('a' <= r <= 'z')
    ensures LowerChar(r) == LowerChar(c)
  {
    if 'a' <= c <= 'z' then (c as int - 32) as char else c
  }

  /** `s.lower()` for ASCII letters. */
  function ToLower(s: string): (r: string)
    ensures |r| == |s|
    ensures forall i :: 0 <= i < |s| ==> r[i] == LowerChar(s[i])
  {
    seq(|s|, i requires 0 <= i < |s| => LowerChar(s[i]))
  }

  /** `s.upper()` for ASCII letters. */
  function ToUpper(s: string): (r: string)
    ensures |r| == |s|
    ensures forall i :: 0 <= i < |s| ==> r[i] == UpperChar(s[i])
  {
    if s == [] then [] else [UpperChar(s[0])] + ToUpper(s[1..])
  }

  predicate StartsWith(s: string, prefix: string)
  {
    |prefix| <= |s| && s[..|prefix|] == prefix
  }

  predicate EndsWith(s: string, suffix: string)
  {
    |suffix| <= |s| && s[|s| - |suffix|..] == suffix
  }

  /** Python's `sub in s` on strings. */
  predicate Contains(s: string, sub: string)
    decreases |s|
  {
    StartsWith(s, sub) || (|s| > 0 && Contains(s[1..], sub))
  }

  /** Case-insensitive `in`, as `sub.lower() in s.lower()`. */
  predicate ContainsIgnoreCase(s: string, sub: string)
  {
    Contains(ToLower(s), ToLower(sub))
  }

  lemma {:induction false} ContainsAt(s: string, sub: string, i: nat)
    requires i + |sub| <= |s| && s[i..i + |sub|] == sub
    ensures Contains(s, sub)
    decreases i
  {
    if i == 0 {
      assert s[..|sub|] == sub;
    } else {
      assert s[1..][i - 1..i - 1 + |sub|] == s[i..i + |sub|];
      ContainsAt(s[1..], sub, i - 1);
    }
  }

  lemma {:induction false} ContainsWitness(s: string, sub: string) returns (i: nat)
    requires Contains(s, sub)
    ensures i + |sub| <= |s| && s[i..i + |sub|] == sub
    decreases |s|
  {
    if StartsWith(s, sub) {
      i := 0;
    } else {
      var j := ContainsWitness(s[1..], sub);
      assert s[1..][j..j + |sub|] == s[j + 1..j + 1 + |sub|];
      i := j + 1;
    }
  }

  /** A string that lacks one of `sub`'s characters cannot contain `sub`. */
  lemma NotContainsMissingChar(s: string, sub: string, k: nat)
    requires k < |sub| && sub[k] !in s
    ensures !Contains(s, sub)
  {
    if Contains(s, sub) {
      var i := ContainsWitness(s, sub);
    }
  }

  /** A string that lacks one of `p`'s characters does not start with `p`. */
  lemma StartsWithMissingChar(s: string, p: string, k: nat)
    requires k < |p| && p[k] !in s
    ensures !StartsWith(s, p)
  {
  }

  /** A string that lacks one of `p`'s characters does not end with `p`. */
  lemma EndsWithMissingChar(s: string, p: string, k: nat)
    requires k < |p| && p[k] !in s
    ensures !EndsWith(s, p)
  {
  }

  lemma ContainsInLonger(s: string, sub: string, before: string, after: string)
    requires Contains(s, sub)
    ensures Contains(before + s + after, sub)
  {
    var i := ContainsWitness(s, sub);
    var t := before + s + after;
    assert t[|before| + i..|before| + i + |sub|] == s[i..i + |sub|];
    ContainsAt(t, sub, |before| + i);
  }

  /** The longest prefix of `s` whose characters all satisfy `keep`. */
  function Run(s: string, keep: char -> bool): (r: string)
    ensures |r| <= |s| && r == s[..|r|]
    ensures forall i :: 0 <= i < |r| ==> keep(r[i])
    ensures |r| < |s| ==> !keep(s[|r|])
  {
    if s == [] || !keep(s[0]) then [] else [s[0]] + Run(s[1..], keep)
  }

  /** The end of the run of `keep` characters starting at position `j`. */
  function RunEnd(s: string, j: nat, keep: char -> bool): (e: nat)
    requires j <= |s|
    ensures j <= e <= |s|
    ensures e < |s| ==> !keep(s[e])
    decreases |s| - j
  {
    if j == |s| || !keep(s[j]) then j else RunEnd(s, j + 1, keep)
  }

  /** Every character a run passes over is kept. */
  lemma {:induction false} RunEndKept(s: string, j: nat, keep: char -> bool)
    requires j <= |s|
    ensures forall k :: j <= k < RunEnd(s, j, keep) ==> keep(s[k])
    decreases |s| - j
  {
    if j < |s| && keep(s[j]) {
      RunEndKept(s, j + 1, keep);
    }
  }

  /** A run inside `a` ends where it did, unless it reaches the end of `a` and goes on into `b`. */
  lemma {:induction false} RunEndAppend(a: string, b: string, j: nat, keep: char -> bool)
    requires j <= |a|
    ensures RunEnd(a + b, j, keep) == if RunEnd(a, j, keep) < |a| then RunEnd(a, j, keep) else RunEnd(a + b, |a|, keep)
    decreases |a| - j
  {
    if j < |a| {
      assert (a + b)[j] == a[j];
      if keep(a[j]) {
        RunEndAppend(a, b, j + 1, keep);
      }
    }
  }

  lemma {:induction false} RunEndAll(s: string, j: nat, keep: char -> bool)
    requires j <= |s|
    requires forall k :: j <= k < |s| ==> keep(s[k])
    ensures RunEnd(s, j, keep) == |s|
    decreases |s| - j
  {
    if j < |s| {
      RunEndAll(s, j + 1, keep);
    }
  }

  /** `s` without its leading characters that satisfy `drop` (`lstrip`). */
  function TrimStart(s: string, drop: char -> bool): (r: string)
    ensures |r| <= |s| && r == s[|s| - |r|..]
    ensures r == [] || !drop(r[0])
    ensures forall i :: 0 <= i < |s| - |r| ==> drop(s[i])
  {
    s[|Run(s, drop)|..]
  }

  /** `s` without its trailing characters that satisfy `drop` (`rstrip`). */
  function TrimEnd(s: string, drop: char -> bool): (r: string)
    ensures |r| <= |s| && r == s[..|r|]
    ensures r == [] || !drop(r[|r| - 1])
    ensures forall i :: |r| <= i < |s| ==> drop(s[i])
    decreases |s|
  {
    if s == [] || !drop(s[|s| - 1]) then s else TrimEnd(s[..|s| - 1], drop)
  }

  /** A dropped character at the end makes no difference to `TrimEnd`. */
  lemma TrimEndDropped(s: string, c: char, drop: char -> bool)
    requires drop(c)
    ensures TrimEnd(s + [c], drop) == TrimEnd(s, drop)
  {
    assert (s + [c])[..|s + [c]| - 1] == s;
  }

  /** `s.strip()`. */
  function Strip(s: string): (r: string)
    ensures r == [] || (!IsSpace(r[0]) && !IsSpace(r[|r| - 1]))
    ensures |r| <= |s|
  {
    var t := s[..|s| - TrailingSpaces(s)];
    t[LeadingSpaces(t)..]
  }

  /** The number of whitespace characters `s` starts with. */
  function LeadingSpaces(s: string): (n: nat)
    ensures n <= |s|
    ensures n < |s| ==> !IsSpace(s[n])
  {
    if s == [] || !IsSpace(s[0]) then 0 else 1 + LeadingSpaces(s[1..])
  }

  /** The number of whitespace characters `s` ends with. */
  function TrailingSpaces(s: string): (n: nat)
    ensures n <= |s|
    ensures n < |s| ==> !IsSpace(s[|s| - 1 - n])
  {
    if s == [] || !IsSpace(s[|s| - 1]) then 0 else 1 + TrailingSpaces(s[..|s| - 1])
  }

  predicate NoSpace(w: string)
  {
    forall i :: 0 <= i < |w| ==> !IsSpace(w[i])
  }

  predicate NotSpace(c: char)
  {
    !IsSpace(c)
  }

  lemma NoSpaceSlice(s: string, j: nat, e: nat)
    requires j <= e <= |s| && forall k :: j <= k < e ==> NotSpace(s[k])
    ensures NoSpace(s[j..e])
  {
    forall k | 0 <= k < e - j
      ensures !IsSpace(s[j..e][k])
    {
      assert s[j..e][k] == s[j + k];
      assert NotSpace(s[j + k]);
    }
  }

  /** `s.split()` with no argument: the maximal runs of non-whitespace. */
  function Words(s: string): (r: seq<string>)
    ensures forall k :: 0 <= k < |r| ==> r[k] != [] && NoSpace(r[k])
  {
    WordsFromShape(s, 0);
    WordsFrom(s, 0)
  }

  /** The words of `s[i..]`. */
  function WordsFrom(s: string, i: nat): seq<string>
    requires i <= |s|
    decreases |s| - i
  {
    var j := RunEnd(s, i, IsSpace);
    if j == |s| then []
    else
      var e := RunEnd(s, j, NotSpace);
      assert e > j by { assert NotSpace(s[j]); }
      [s[j..e]] + WordsFrom(s, e)
  }

  /** Words are non-empty and hold no whitespace. */
  lemma {:induction false} WordsFromShape(s: string, i: nat)
    requires i <= |s|
    ensures forall k :: 0 <= k < |WordsFrom(s, i)| ==> WordsFrom(s, i)[k] != [] && NoSpace(WordsFrom(s, i)[k])
    decreases |s| - i
  {
    var j := RunEnd(s, i, IsSpace);
    if j < |s| {
      var e := RunEnd(s, j, NotSpace);
      assert NotSpace(s[j]);
      RunEndKept(s, j, NotSpace);
      NoSpaceSlice(s, j, e);
      WordsFromShape(s, e);
    }
  }

  /** `sep.join(ws)`. */
  function Join(ws: seq<string>, sep: string): string
  {
    if ws == [] then [] else if |ws| == 1 then ws[0] else ws[0] + sep + Join(ws[1..], sep)
  }

  function Concat(ws: seq<string>): string
  {
    if ws == [] then [] else ws[0] + Concat(ws[1..])
  }

  /** The characters of `s` that are not whitespace, in order. */
  function Visible(s: string): (r: string)
    ensures NoSpace(r)
  {
    if s == [] then [] else (if IsSpace(s[0]) then [] else [s[0]]) + Visible(s[1..])
  }

  lemma {:induction false} VisibleAppend(a: string, b: string)
    ensures Visible(a + b) == Visible(a) + Visible(b)
    decreases |a|
  {
    if a == [] {
      assert a + b == b;
    } else {
      assert (a + b)[1..] == a[1..] + b;
      VisibleAppend(a[1..], b);
    }
  }

  lemma {:induction false} VisibleOfSpaces(s: string)
    requires forall i :: 0 <= i < |s| ==> IsSpace(s[i])
    ensures Visible(s) == []
    decreases |s|
  {
    if s != [] {
      VisibleOfSpaces(s[1..]);
    }
  }

  lemma {:induction false} VisibleOfWord(s: string)
    requires NoSpace(s)
    ensures Visible(s) == s
    decreases |s|
  {
    if s != [] {
      VisibleOfWord(s[1..]);
      assert s == [s[0]] + s[1..];
    }
  }

  /** Splitting on whitespace loses exactly the whitespace. */
  lemma WordsKeepVisible(s: string)
    ensures Concat(Words(s)) == Visible(s)
  {
    WordsFromVisible(s, 0);
    assert s[0..] == s;
  }

  lemma {:induction false} WordsFromVisible(s: string, i: nat)
    requires i <= |s|
    ensures Concat(WordsFrom(s, i)) == Visible(s[i..])
    decreases |s| - i
  {
    var j := RunEnd(s, i, IsSpace);
    assert Visible(s[i..]) == Visible(s[j..]) by {
      RunEndKept(s, i, IsSpace);
      VisibleSplit(s, i, j);
      VisibleOfSpaces(s[i..j]);
    }
    if j < |s| {
      var e := RunEnd(s, j, NotSpace);
      assert Visible(s[j..]) == s[j..e] + Visible(s[e..]) by {
        assert NotSpace(s[j]);
        RunEndKept(s, j, NotSpace);
        NoSpaceSlice(s, j, e);
        VisibleSplit(s, j, e);
        VisibleOfWord(s[j..e]);
      }
      WordsFromVisible(s, e);
      assert Concat(WordsFrom(s, i)) == s[j..e] + Concat(WordsFrom(s, e));
    } else {
      assert s[j..] == [];
    }
  }

  lemma VisibleSplit(s: string, i: nat, j: nat)
    requires i <= j <= |s|
    ensures Visible(s[i..]) == Visible(s[i..j]) + Visible(s[j..])
  {
    assert s[i..] == s[i..j] + s[j..];
    VisibleAppend(s[i..j], s[j..]);
  }

  /** Joining words with one space and dropping the spaces gives the words' characters back. */
  lemma {:induction false} JoinSpaceVisible(ws: seq<string>)
    requires forall k :: 0 <= k < |ws| ==> NoSpace(ws[k])
    ensures Visible(Join(ws, " ")) == Concat(ws)
    decreases |ws|
  {
    if ws == [] {
    } else if |ws| == 1 {
      VisibleOfWord(ws[0]);
      assert Concat(ws[1..]) == [];
      assert Concat(ws) == ws[0] + [];
    } else {
      JoinSpaceVisible(ws[1..]);
      VisibleAppend(ws[0] + " ", Join(ws[1..], " "));
      VisibleAppend(ws[0], " ");
      VisibleOfWord(ws[0]);
      assert Visible(" ") == [];
    }
  }

  /**
   * A string in the shape `' '.join(s.split())` produces: no leading or
   * trailing whitespace, and every whitespace character is a single space
   * followed by a non-whitespace character.
   */
  predicate Squeezed(r: string)
  {
    (r == [] || (!IsSpace(r[0]) && !IsSpace(r[|r| - 1])))
    && forall i :: 0 <= i < |r| - 1 && IsSpace(r[i]) ==> r[i] == ' ' && !IsSpace(r[i + 1])
  }

  lemma {:induction false} JoinSpaceSqueezed(ws: seq<string>)
    requires forall k :: 0 <= k < |ws| ==> ws[k] != [] && NoSpace(ws[k])
    ensures Squeezed(Join(ws, " "))
    ensures ws != [] ==> Join(ws, " ") != []
    decreases |ws|
  {
    if |ws| > 1 {
      JoinSpaceSqueezed(ws[1..]);
      var w := ws[0];
      var rest := Join(ws[1..], " ");
      var r := w + " " + rest;
      assert Join(ws, " ") == r;
      forall i | 0 <= i < |r| - 1 && IsSpace(r[i])
        ensures r[i] == ' ' && !IsSpace(r[i + 1])
      {
        if i == |w| {
          assert r[i + 1] == rest[0];
        } else if i > |w| {
          assert r[i] == rest[i - |w| - 1];
          assert r[i + 1] == rest[i - |w|];
        }
      }
    }
  }

  /** The run of `keep` characters from `i` ends at `e` when it cannot go on there. */
  lemma {:induction false} RunEndExact(s: string, i: nat, e: nat, keep: char -> bool)
    requires i <= e <= |s|
    requires forall k :: i <= k < e ==> keep(s[k])
    requires e == |s| || !keep(s[e])
    ensures RunEnd(s, i, keep) == e
    decreases e - i
  {
    if i < e {
      RunEndExact(s, i + 1, e, keep);
    }
  }

  /** `s` ends with `t`, which starts at position `off`. */
  predicate SuffixAt(s: string, off: nat, t: string)
  {
    off + |t| == |s| && forall k :: 0 <= k < |t| ==> s[off + k] == t[k]
  }

  /** A run inside the suffix `t` of `s` is the run in `t`, shifted by `off`. */
  lemma {:induction false} RunEndShift(s: string, off: nat, t: string, j: nat, keep: char -> bool)
    requires SuffixAt(s, off, t) && j <= |t|
    ensures RunEnd(s, off + j, keep) == off + RunEnd(t, j, keep)
    decreases |t| - j
  {
    if j < |t| {
      assert s[off + j] == t[j];
      if keep(t[j]) {
        RunEndShift(s, off, t, j + 1, keep);
      }
    }
  }

  /** The words of a suffix are the words from where it starts. */
  lemma {:induction false} WordsFromShift(s: string, off: nat, t: string, i: nat)
    requires SuffixAt(s, off, t) && i <= |t|
    ensures WordsFrom(s, off + i) == WordsFrom(t, i)
    decreases |t| - i
  {
    var j := RunEnd(t, i, IsSpace);
    RunEndShift(s, off, t, i, IsSpace);
    if j < |t| {
      var e := RunEnd(t, j, NotSpace);
      RunEndShift(s, off, t, j, NotSpace);
      assert e > i by { assert NotSpace(t[j]); }
      var w := t[j..e];
      SliceShift(s, off, t, j, e);
      WordsFromUnfold(t, i, j, e, w);
      WordsFromUnfold(s, off + i, off + j, off + e, w);
      WordsFromShift(s, off, t, e);
    }
  }

  lemma SliceShift(s: string, off: nat, t: string, j: nat, e: nat)
    requires SuffixAt(s, off, t) && j <= e <= |t|
    ensures s[off + j..off + e] == t[j..e]
  {
    assert forall k :: 0 <= k < e - j ==> s[off + j..off + e][k] == s[off + j + k] && t[j..e][k] == t[j + k];
  }

  /** The first word from `i` on, when there is one, runs from `j` to `e`. */
  lemma WordsFromUnfold(s: string, i: nat, j: nat, e: nat, w: string)
    requires i <= |s| && j == RunEnd(s, i, IsSpace) && j < |s| && e == RunEnd(s, j, NotSpace)
    requires w == s[j..e]
    ensures WordsFrom(s, i) == [w] + WordsFrom(s, e)
  {
  }

  /** A word starting at `i` and ending at `e` is the first word from `i` on. */
  lemma WordsFromWord(s: string, i: nat, e: nat)
    requires i < e <= |s| && NoSpace(s[i..e])
    requires e == |s| || IsSpace(s[e])
    ensures WordsFrom(s, i) == [s[i..e]] + WordsFrom(s, e)
  {
    assert s[i..e][0] == s[i];
    assert RunEnd(s, i, IsSpace) == i;
    forall k | i <= k < e
      ensures NotSpace(s[k])
    {
      assert s[i..e][k - i] == s[k];
    }
    RunEndExact(s, i, e, NotSpace);
  }

  lemma WordsFromSkipSpace(s: string, i: nat)
    requires i < |s| && IsSpace(s[i])
    ensures WordsFrom(s, i) == WordsFrom(s, i + 1)
  {
    assert RunEnd(s, i, IsSpace) == RunEnd(s, i + 1, IsSpace);
  }

  /** Splitting words that were joined with single spaces gives the words back. */
  lemma {:induction false} WordsOfJoin(ws: seq<string>)
    requires forall k :: 0 <= k < |ws| ==> ws[k] != [] && NoSpace(ws[k])
    ensures Words(Join(ws, " ")) == ws
    decreases |ws|
  {
    if |ws| == 1 {
      var w := ws[0];
      assert w[0..|w|] == w;
      WordsFromWord(w, 0, |w|);
    } else if |ws| > 1 {
      var rest := Join(ws[1..], " ");
      assert Join(ws, " ") == ws[0] + " " + rest;
      WordsOfJoin(ws[1..]);
      WordsBeforeSpace(ws[0], rest);
      assert ws == [ws[0]] + ws[1..];
    }
  }

  /** A word followed by a space comes first among the words. */
  lemma WordsBeforeSpace(w: string, rest: string)
    requires w != [] && NoSpace(w)
    ensures Words(w + " " + rest) == [w] + Words(rest)
  {
    FirstWordBeforeSpace(w, rest);
    WordsFromSkipSpace(w + " " + rest, |w|);
    WordsAfterSpace(w, rest);
  }

  lemma FirstWordBeforeSpace(w: string, rest: string)
    requires w != [] && NoSpace(w)
    ensures WordsFrom(w + " " + rest, 0) == [w] + WordsFrom(w + " " + rest, |w|)
  {
    var s := w + " " + rest;
    assert s[0..|w|] == w;
    WordsFromWord(s, 0, |w|);
  }

  lemma WordsAfterSpace(w: string, rest: string)
    ensures WordsFrom(w + " " + rest, |w| + 1) == WordsFrom(rest, 0)
  {
    var s := w + " " + rest;
    assert s[|w| + 1..] == rest;
    WordsFromShift(s, |w| + 1, rest, 0);
  }

  /** A string that neither starts nor ends with whitespace has nothing to strip. */
  lemma StripUnchanged(r: string)
    requires r == [] || (!IsSpace(r[0]) && !IsSpace(r[|r| - 1]))
    ensures Strip(r) == r
  {
  }

  function DigitValue(c: char): nat
    requires IsDigit(c)
  {
    c as int - '0' as int
  }

  function DigitChar(d: nat): (c: char)
    requires d < 10
    ensures IsDigit(c) && DigitValue(c) == d
  {
    ('0' as int + d) as char
  }

  predicate AllDigits(s: string)
  {
    forall i :: 0 <= i < |s| ==> IsDigit(s[i])
  }

  /** The value of a string of decimal digits. */
  function DigitsValue(s: string): nat
    requires AllDigits(s)
    decreases |s|
  {
    if s == [] then 0 else DigitsValue(s[..|s| - 1]) * 10 + DigitValue(s[|s| - 1])
  }

  /** `str(n)` for a natural number. */
  function NatToString(n: nat): (r: string)
    ensures r != [] && AllDigits(r)
  {
    if n < 10 then [DigitChar(n)] else NatToString(n / 10) + [DigitChar(n % 10)]
  }

  /** `str(i)` for an integer. */
  function IntToString(i: int): string
  {
    if i < 0 then "-" + NatToString(-i) else NatToString(i)
  }

  lemma {:induction false} NatToStringValue(n: nat)
    ensures DigitsValue(NatToString(n)) == n
  {
    if n >= 10 {
      var s := NatToString(n);
      assert s[..|s| - 1] == NatToString(n / 10);
      NatToStringValue(n / 10);
    }
  }

  lemma NatToStringInjective(m: nat, n: nat)
    requires NatToString(m) == NatToString(n)
    ensures m == n
  {
    NatToStringValue(m);
    NatToStringValue(n);
  }


  lemma {:induction false} RunAppend(a: string, b: string, keep: char -> bool)
    ensures Run(a + b, keep) == if |Run(a, keep)| < |a| then Run(a, keep) else a + Run(b, keep)
    decreases |a|
  {
    if a != [] {
      assert (a + b)[0] == a[0] && (a + b)[1..] == a[1..] + b;
      if keep(a[0]) {
        RunAppend(a[1..], b, keep);
      }
    } else {
      assert a + b == b;
    }
  }

  lemma {:induction false} RunAll(s: string, keep: char -> bool)
    requires forall i :: 0 <= i < |s| ==> keep(s[i])
    ensures Run(s, keep) == s
  {
  }

  /** `p` is a prefix of `a + t` exactly when it is a prefix of `a`, if `t` starts with a character `p` lacks. */
  lemma StartsWithAppend(a: string, t: string, p: string)
    requires t != [] && t[0] !in p
    ensures StartsWith(a + t, p) == StartsWith(a, p)
  {
    if |p| <= |a| {
      assert (a + t)[..|p|] == a[..|p|];
    } else if |p| <= |a + t| {
      assert (a + t)[..|p|][|a|] == t[0];
    }
  }

  /** The text `p` occurs in `s` at position `j`. */
  predicate CharsAt(s: string, j: nat, p: string)
  {
    j + |p| <= |s| && forall k :: 0 <= k < |p| ==> s[j + k] == p[k]
  }

  lemma CharsAtSlice(s: string, j: nat, p: string)
    requires j + |p| <= |s| && s[j..j + |p|] == p
    ensures CharsAt(s, j, p)
  {
    forall k | 0 <= k < |p|
      ensures s[j + k] == p[k]
    {
      assert s[j..j + |p|][k] == s[j + k];
    }
  }

  lemma CharsAtIndex(s: string, j: nat, p: string, k: nat)
    requires CharsAt(s, j, p) && k < |p|
    ensures s[j + k] == p[k]
  {
  }

  /** `p` cannot occur where a character of `p` is missing from `s`. */
  lemma CharsAtMissing(s: string, j: nat, p: string, k: nat)
    requires k < |p| && p[k] !in s
    ensures !CharsAt(s, j, p)
  {
  }

  lemma CharsAtDiffers(s: string, j: nat, p: string, k: nat)
    requires k < |p| && j + k < |s| && s[j + k] != p[k]
    ensures !CharsAt(s, j, p)
  {
  }

  lemma CharsAtIff(s: string, j: nat, p: string)
    requires j + |p| <= |s|
    ensures CharsAt(s, j, p) <==> s[j..j + |p|] == p
  {
    if s[j..j + |p|] == p {
      CharsAtSlice(s, j, p);
    }
    if CharsAt(s, j, p) {
      assert forall k :: 0 <= k < |p| ==> s[j..j + |p|][k] == p[k];
    }
  }

  /** Text appended after a character that `p` lacks does not change whether `p` occurs at `j`. */
  lemma CharsAtAppend(a: string, t: string, j: nat, p: string)
    requires j <= |a| && t != [] && t[0] !in p
    ensures CharsAt(a + t, j, p) == CharsAt(a, j, p)
  {
    if j + |p| <= |a| {
      CharsAtIff(a + t, j, p);
      CharsAtIff(a, j, p);
      assert (a + t)[j..j + |p|] == a[j..j + |p|];
    } else if j + |p| <= |a + t| {
      var k := |a| - j;
      assert (a + t)[j + k] == t[0];
      CharsAtDiffers(a + t, j, p, k);
    }
  }

  /** The number of occurrences of `c` in `s`. */
  function CountChar(s: string, c: char): nat
    decreases |s|
  {
    if s == [] then 0 else (if s[0] == c then 1 else 0) + CountChar(s[1..], c)
  }

  lemma {:induction false} CountCharAppend(a: string, b: string, c: char)
    ensures CountChar(a + b, c) == CountChar(a, c) + CountChar(b, c)
    decreases |a|
  {
    if a == [] {
      assert a + b == b;
    } else {
      assert (a + b)[1..] == a[1..] + b;
      CountCharAppend(a[1..], b, c);
    }
  }

  /** `s.split(sep)`: the pieces between separators, empty ones included. */
  function Split(s: string, sep: char): (r: seq<string>)
    ensures |r| >= 1
    ensures forall k :: 0 <= k < |r| ==> sep !in r[k]
    decreases |s|
  {
    if s == [] then [[]]
    else
      var rest := Split(s[1..], sep);
      if s[0] == sep then [[]] + rest else [[s[0]] + rest[0]] + rest[1..]
  }

  lemma {:induction false} SplitNoSep(s: string, sep: char)
    requires sep !in s
    ensures Split(s, sep) == [s]
    decreases |s|
  {
    if s != [] {
      SplitNoSep(s[1..], sep);
      assert s[0] != sep;
      assert [s[0]] + s[1..] == s;
    }
  }

  /** A leading run without separators belongs to the first piece. */
  lemma {:induction false} SplitHead(p: string, s: string, sep: char)
    requires sep !in p
    ensures Split(p + s, sep)[0] == p + Split(s, sep)[0]
    decreases |p|
  {
    if p == [] {
      assert p + s == s;
    } else {
      assert (p + s)[1..] == p[1..] + s;
      SplitHead(p[1..], s, sep);
    }
  }

  /** Splitting at a separator splits the pieces: `(a + sep + b).split(sep) == a.split(sep) + b.split(sep)`. */
  lemma {:induction false} SplitConcat(a: string, b: string, sep: char)
    ensures Split(a + [sep] + b, sep) == Split(a, sep) + Split(b, sep)
    decreases |a|
  {
    if a == [] {
      assert a + [sep] + b == [sep] + b;
    } else {
      assert (a + [sep] + b)[1..] == a[1..] + [sep] + b;
      SplitConcat(a[1..], b, sep);
    }
  }

  lemma {:induction false} SplitLength(s: string, sep: char)
    ensures |Split(s, sep)| == CountChar(s, sep) + 1
    decreases |s|
  {
    if s != [] {
      SplitLength(s[1..], sep);
    }
  }

  lemma {:induction false} NoOccurrence(s: string, c: char)
    requires c !in s
    ensures CountChar(s, c) == 0
    decreases |s|
  {
    if s != [] {
      NoOccurrence(s[1..], c);
    }
  }

  /** The position of the first occurrence of `sub` in `s` at or after `from` (`str.find`). */
  function IndexFrom(s: string, sub: string, from: nat): (r: Option<nat>)
    requires from <= |s|
    ensures r.Some? ==> from <= r.value && r.value + |sub| <= |s| && s[r.value..r.value + |sub|] == sub
    ensures r.Some? ==> forall j :: from <= j < r.value ==> !StartsWith(s[j..], sub)
    decreases |s| - from
  {
    if StartsWith(s[from..], sub) then Some(from)
    else if from == |s| then None
    else IndexFrom(s, sub, from + 1)
  }

  /** Python's ordering of strings: code point by code point, a proper prefix first. */
  predicate LexLess(a: string, b: string)
    decreases |a|
  {
    if a == [] then b != []
    else if b == [] then false
    else if a[0] != b[0] then a[0] < b[0]
    else LexLess(a[1..], b[1..])
  }

  lemma {:induction false} LexLessIrreflexive(a: string)
    ensures !LexLess(a, a)
    decreases |a|
  {
    if a != [] {
      LexLessIrreflexive(a[1..]);
    }
  }

  lemma {:induction false} LexLessTransitive(a: string, b: string, c: string)
    requires LexLess(a, b) && LexLess(b, c)
    ensures LexLess(a, c)
    decreases |a|
  {
    if a != [] && b != [] && c != [] && a[0] == b[0] && b[0] == c[0] {
      LexLessTransitive(a[1..], b[1..], c[1..]);
    }
  }

  lemma {:induction false} LexLessTotal(a: string, b: string)
    ensures a == b || LexLess(a, b) || LexLess(b, a)
    decreases |a|
  {
    if a != [] && b != [] && a[0] == b[0] {
      LexLessTotal(a[1..], b[1..]);
      if a[1..] == b[1..] {
        assert a == [a[0]] + a[1..] && b == [b[0]] + b[1..];
      }
    }
  }

  lemma LexLessAsymmetric(a: string, b: string)
    requires LexLess(a, b)
    ensures !LexLess(b, a)
  {
    if LexLess(b, a) {
      LexLessTransitive(a, b, a);
      LexLessIrreflexive(a);
    }
  }

  predicate StrictlySorted(s: seq<string>)
  {
    forall i, j :: 0 <= i < j < |s| ==> LexLess(s[i], s[j])
  }

  /** Inserts `x` into a strictly sorted list unless it is already there. */
  function InsertUnique(x: string, s: seq<string>): (r: seq<string>)
    requires StrictlySorted(s)
    ensures StrictlySorted(r)
    ensures forall y :: y in r <==> y == x || y in s
    decreases |s|
  {
    if s == [] then [x]
    else if x == s[0] then s
    else if LexLess(x, s[0]) then
      InsertBeforeAll(x, s)
    else
      LexLessTotal(x, s[0]);
      var tail := InsertUnique(x, s[1..]);
      AfterHead(s[0], s[1..], tail, x);
      [s[0]] + tail
  }

  function InsertBeforeAll(x: string, s: seq<string>): (r: seq<string>)
    requires StrictlySorted(s) && s != [] && LexLess(x, s[0])
    ensures r == [x] + s && StrictlySorted(r)
  {
    forall j | 0 <= j < |s|
      ensures LexLess(x, s[j])
    {
      if j > 0 {
        LexLessTransitive(x, s[0], s[j]);
      }
    }
    [x] + s
  }

  lemma AfterHead(h: string, rest: seq<string>, tail: seq<string>, x: string)
    requires StrictlySorted([h] + rest) && StrictlySorted(tail)
    requires LexLess(h, x)
    requires forall y :: y in tail <==> y == x || y in rest
    ensures StrictlySorted([h] + tail)
  {
    forall j | 0 <= j < |tail|
      ensures LexLess(h, tail[j])
    {
      if tail[j] != x {
        assert tail[j] in rest;
        var k :| 0 <= k < |rest| && rest[k] == tail[j];
        assert ([h] + rest)[0] == h && ([h] + rest)[k + 1] == rest[k];
      }
    }
    assert forall i, j :: 0 < i < j < |[h] + tail| ==> ([h] + tail)[i] == tail[i - 1] && ([h] + tail)[j] == tail[j - 1];
  }

  /** `sorted(set(xs))`: the distinct strings of `xs` in increasing order. */
  function SortedUnique(xs: seq<string>): (r: seq<string>)
    ensures StrictlySorted(r)
    ensures forall y :: y in r <==> y in xs
    decreases |xs|
  {
    if xs == [] then [] else InsertUnique(xs[|xs| - 1], SortedUnique(xs[..|xs| - 1]))
  }
}
