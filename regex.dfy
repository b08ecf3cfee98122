/**
 * The fragment of Python's `re` that the scrapers' patterns use: literal
 * text (optionally case-insensitive), a single character from a class,
 * greedy repetition of a class, and one capturing group that is a greedy
 * or lazy repetition of a class. Matching backtracks the way `re` does:
 * a greedy repetition tries its longest run first, a lazy one its
 * shortest, and `Search` reports the leftmost starting position.
 */
module Regex {
  import opened Wrappers
  import opened Text

  datatype CharClass =
    | NotChar(c: char)    // [^c]
    | AnyOf(cs: string)   // [..] listing its characters
    | Digit               // \d on ASCII digits
    | Space               // \s
    | WordOrDot           // [\w.]
    | WordOrDash          // [\w-]
    | AnyButNewline       // .

  predicate InClass(k: CharClass, c: char)
  {
    match k
    case NotChar(x) => c != x
    case AnyOf(cs) => c in cs
    case Digit => IsDigit(c)
    case Space => IsSpace(c)
    case WordOrDot => IsWordChar(c) || c == '.'
    case WordOrDash => IsWordChar(c) || c == '-'
    case AnyButNewline => c != '\n'
  }

  datatype Node =
    | Lit(text: string)                             // literal text
    | One(cls: CharClass)                           // exactly one character of the class
    | Repeat(cls: CharClass, min: nat)              // greedy cls{min,}
    | Capture(cls: CharClass, min: nat, lazy: bool) // the group (cls{min,}) or (cls{min,}?)

  datatype Pattern = Pattern(nodes: seq<Node>, ignoreCase: bool)

  /** A match: where it starts and ends, and the text of the group if the pattern has one. */
  datatype Hit = Hit(start: nat, end: nat, group: Option<string>)

  predicate SameText(a: string, b: string, ignoreCase: bool)
  {
    if ignoreCase then ToLower(a) == ToLower(b) else a == b
  }

  predicate AllIn(k: CharClass, t: string)
  {
    forall j :: 0 <= j < |t| ==> InClass(k, t[j])
  }

  /** `g` is the text of a capturing group of `p`: every character is in that group's class. */
  predicate CapturedBy(p: seq<Node>, g: Option<string>)
  {
    g.Some? && exists k :: 0 <= k < |p| && p[k].Capture? && AllIn(p[k].cls, g.value)
  }

  /** The length of the longest run of class characters starting at `i`. */
  function RunLength(s: string, i: nat, k: CharClass): (n: nat)
    requires i <= |s|
    ensures i + n <= |s|
    ensures forall j :: i <= j < i + n ==> InClass(k, s[j])
    ensures i + n < |s| ==> !InClass(k, s[i + n])
    decreases |s| - i
  {
    if i == |s| || !InClass(k, s[i]) then 0 else 1 + RunLength(s, i + 1, k)
  }

  /** Matches the node list at position `i`; the result is the end position and the group. */
  function MatchHere(p: seq<Node>, ic: bool, s: string, i: nat, group: Option<string>): (r: Option<(nat, Option<string>)>)
    requires i <= |s|
    ensures r.Some? ==> i <= r.value.0 <= |s|
    ensures r.Some? ==> r.value.1 == group || CapturedBy(p, r.value.1)
    decreases |p|, 1, 0
  {
    if p == [] then Some((i, group))
    else
      match p[0]
      case Lit(t) =>
        if i + |t| <= |s| && SameText(s[i..i + |t|], t, ic) then
          var r := MatchHere(p[1..], ic, s, i + |t|, group);
          assert r.Some? && r.value.1 != group ==> CapturedBy(p[1..], r.value.1);
          r
        else None
      case One(k) =>
        if i < |s| && InClass(k, s[i]) then MatchHere(p[1..], ic, s, i + 1, group) else None
      case Repeat(k, _) => Backtrack(p, ic, s, i, group, RunLength(s, i, k), 0)
      case Capture(k, _, _) => Backtrack(p, ic, s, i, group, RunLength(s, i, k), 0)
  }

  /**
   * Tries the lengths of the repetition `p[0]` in backtracking order:
   * the `t`-th try uses `max - t` characters (greedy) or `min + t` (lazy).
   */
  function Backtrack(p: seq<Node>, ic: bool, s: string, i: nat, group: Option<string>, max: nat, t: nat)
    : (r: Option<(nat, Option<string>)>)
    requires p != [] && (p[0].Repeat? || p[0].Capture?)
    requires i + max <= |s| && t <= max + 1
    requires forall j :: i <= j < i + max ==> InClass(p[0].cls, s[j])
    ensures r.Some? ==> i <= r.value.0 <= |s|
    ensures r.Some? ==> r.value.1 == group || CapturedBy(p, r.value.1)
    decreases |p|, 0, max + 1 - t
  {
    var min := p[0].min;
    if min > max || t > max - min then None
    else
      var n := if p[0].Capture? && p[0].lazy then min + t else max - t;
      var g := if p[0].Capture? then Some(s[i..i + n]) else group;
      assert p[0].Capture? ==> AllIn(p[0].cls, s[i..i + n]);
      match MatchHere(p[1..], ic, s, i + n, g)
      case Some(r) =>
        assert r.1 != g ==> CapturedBy(p[1..], r.1);
        Some(r)
      case None => Backtrack(p, ic, s, i, group, max, t + 1)
  }

  function MatchAt(pat: Pattern, s: string, i: nat): Option<(nat, Option<string>)>
    requires i <= |s|
  {
    MatchHere(pat.nodes, pat.ignoreCase, s, i, None)
  }

  /** `re.search` from position `from`: the match at the leftmost position that has one. */
  function SearchFrom(pat: Pattern, s: string, from: nat): (r: Option<Hit>)
    requires from <= |s|
    ensures r.Some? ==> from <= r.value.start <= r.value.end <= |s|
    ensures r.Some? ==> MatchAt(pat, s, r.value.start) == Some((r.value.end, r.value.group))
    ensures r.Some? ==> forall j :: from <= j < r.value.start ==> MatchAt(pat, s, j).None?
    ensures r.None? <==> forall j :: from <= j <= |s| ==> MatchAt(pat, s, j).None?
    decreases |s| - from
  {
    match MatchAt(pat, s, from)
    case Some((e, g)) => Some(Hit(from, e, g))
    case None => if from == |s| then None else SearchFrom(pat, s, from + 1)
  }

  /** `re.search(pattern, s)`. */
  function Search(pat: Pattern, s: string): Option<Hit>
  {
    SearchFrom(pat, s, 0)
  }

  /** `bool(re.search(pattern, s))`. */
  predicate Found(pat: Pattern, s: string)
  {
    Search(pat, s).Some?
  }

  /** The text of the group in the first match, if there is one (`m.group(1) if m else None`). */
  function FirstGroup(pat: Pattern, s: string): Option<string>
  {
    match Search(pat, s)
    case Some(h) => h.group
    case None => None
  }

  /** Any position where the pattern matches makes the search succeed. */
  lemma FoundAt(pat: Pattern, s: string, j: nat)
    requires j <= |s| && MatchAt(pat, s, j).Some?
    ensures Found(pat, s)
  {
  }

  /** When the pattern's only group is a class of digits, a found group is all digits. */
  lemma DigitGroup(pat: Pattern, s: string)
    requires forall k :: 0 <= k < |pat.nodes| && pat.nodes[k].Capture? ==> pat.nodes[k].cls == Digit
    requires FirstGroup(pat, s).Some?
    ensures AllDigits(FirstGroup(pat, s).value)
  {
    var h := Search(pat, s).value;
    assert MatchAt(pat, s, h.start) == Some((h.end, h.group));
    assert CapturedBy(pat.nodes, h.group);
  }

  /** `ToLower` commutes with taking a slice. */
  lemma LowerSlice(s: string, i: nat, j: nat)
    requires i <= j <= |s|
    ensures ToLower(s)[i..j] == ToLower(s[i..j])
  {
  }

  /** A one-literal pattern matches at `i` iff the literal is there (ignoring case under IGNORECASE). */
  lemma LiteralAt(t: string, ic: bool, s: string, i: nat)
    requires i <= |s|
    ensures MatchAt(Pattern([Lit(t)], ic), s, i).Some? <==>
      (if ic then CharsAt(ToLower(s), i, ToLower(t)) else CharsAt(s, i, t))
  {
    assert [Lit(t)][1..] == [];
    if i + |t| <= |s| {
      assert MatchHere([Lit(t)][1..], ic, s, i + |t|, None).Some?;
      LowerSlice(s, i, i + |t|);
      CharsAtIff(ToLower(s), i, ToLower(t));
      CharsAtIff(s, i, t);
    }
  }

  /** `Contains` as an occurrence at some position. */
  lemma ContainsIff(s: string, t: string)
    ensures Contains(s, t) <==> exists i :: 0 <= i <= |s| && CharsAt(s, i, t)
  {
    if Contains(s, t) {
      var i := ContainsWitness(s, t);
      CharsAtIff(s, i, t);
    }
    if exists i :: 0 <= i <= |s| && CharsAt(s, i, t) {
      var i :| 0 <= i <= |s| && CharsAt(s, i, t);
      CharsAtIff(s, i, t);
      ContainsAt(s, t, i);
    }
  }

  /** A pattern made of one literal is found exactly where `in` (case-insensitive under IGNORECASE) holds. */
  lemma LiteralFound(t: string, ic: bool, s: string)
    ensures Found(Pattern([Lit(t)], ic), s) <==> (if ic then ContainsIgnoreCase(s, t) else Contains(s, t))
  {
    var pat := Pattern([Lit(t)], ic);
    FoundIff(pat, s);
    forall i | 0 <= i <= |s|
      ensures MatchAt(pat, s, i).Some? <==> (if ic then CharsAt(ToLower(s), i, ToLower(t)) else CharsAt(s, i, t))
    {
      LiteralAt(t, ic, s, i);
    }
    if ic {
      ContainsIff(ToLower(s), ToLower(t));
    } else {
      ContainsIff(s, t);
    }
  }

  /** No run of class characters starting at `i` is longer than `RunLength`. */
  lemma {:induction false} RunLengthMax(s: string, i: nat, k: CharClass, j: nat)
    requires i <= j <= |s| && AllIn(k, s[i..j])
    ensures j <= i + RunLength(s, i, k)
    decreases j - i
  {
    if i < j {
      assert s[i..j][0] == s[i];
      assert s[i + 1..j] == s[i..j][1..];
      RunLengthMax(s, i + 1, k, j);
    }
  }

  /** Some end position in `[lo, hi]` lets the rest of the pattern match there. */
  ghost predicate RestMatchesIn(p: seq<Node>, ic: bool, s: string, g: Option<string>, lo: int, hi: int)
    requires p != []
  {
    exists e: nat :: lo <= e <= hi && e <= |s| && MatchHere(p[1..], ic, s, e, g).Some?
  }

  lemma RestMatchesSplit(p: seq<Node>, ic: bool, s: string, g: Option<string>, lo: int, hi: nat)
    requires p != [] && lo <= hi <= |s|
    ensures RestMatchesIn(p, ic, s, g, lo, hi) <==>
      MatchHere(p[1..], ic, s, hi, g).Some? || RestMatchesIn(p, ic, s, g, lo, hi - 1)
  {
    if RestMatchesIn(p, ic, s, g, lo, hi) && MatchHere(p[1..], ic, s, hi, g).None? {
      var e: nat :| lo <= e <= hi && e <= |s| && MatchHere(p[1..], ic, s, e, g).Some?;
      assert e <= hi - 1;
    }
  }

  /** One greedy try: `max - t` characters, then the rest; the next try if that fails. */
  lemma BacktrackGreedyStep(p: seq<Node>, ic: bool, s: string, i: nat, g: Option<string>, max: nat, t: nat)
    requires p != [] && p[0].Repeat?
    requires i + max <= |s| && t <= max + 1
    requires forall j :: i <= j < i + max ==> InClass(p[0].cls, s[j])
    requires p[0].min <= max && t <= max - p[0].min
    ensures Backtrack(p, ic, s, i, g, max, t).Some? <==>
      MatchHere(p[1..], ic, s, i + max - t, g).Some? || Backtrack(p, ic, s, i, g, max, t + 1).Some?
  {
  }

  /** The greedy tries from the `t`-th on succeed iff some end position they cover lets the rest match. */
  lemma {:induction false} BacktrackGreedy(p: seq<Node>, ic: bool, s: string, i: nat, g: Option<string>, max: nat, t: nat)
    requires p != [] && p[0].Repeat?
    requires i + max <= |s| && t <= max + 1
    requires forall j :: i <= j < i + max ==> InClass(p[0].cls, s[j])
    ensures Backtrack(p, ic, s, i, g, max, t).Some? <==> RestMatchesIn(p, ic, s, g, i + p[0].min, i + max - t)
    decreases max + 1 - t
  {
    if p[0].min <= max && t <= max - p[0].min {
      BacktrackGreedy(p, ic, s, i, g, max, t + 1);
      BacktrackGreedyStep(p, ic, s, i, g, max, t);
      RestMatchesSplit(p, ic, s, g, i + p[0].min, i + max - t);
    } else {
      BacktrackGreedyDone(p, ic, s, i, g, max, t);
    }
  }

  /** Past the last greedy try nothing is left to try. */
  lemma BacktrackGreedyDone(p: seq<Node>, ic: bool, s: string, i: nat, g: Option<string>, max: nat, t: nat)
    requires p != [] && p[0].Repeat?
    requires i + max <= |s| && t <= max + 1
    requires forall j :: i <= j < i + max ==> InClass(p[0].cls, s[j])
    requires !(p[0].min <= max && t <= max - p[0].min)
    ensures Backtrack(p, ic, s, i, g, max, t).None?
    ensures !RestMatchesIn(p, ic, s, g, i + p[0].min, i + max - t)
  {
  }

  /**
   * A greedy repetition followed by the rest of the pattern matches iff
   * some run of at least `min` class characters is followed by a match of the rest.
   */
  lemma RepeatMatch(p: seq<Node>, ic: bool, s: string, i: nat, g: Option<string>)
    requires p != [] && p[0].Repeat? && i <= |s|
    ensures MatchHere(p, ic, s, i, g).Some? <==>
      exists e :: i + p[0].min <= e <= |s| && AllIn(p[0].cls, s[i..e]) && MatchHere(p[1..], ic, s, e, g).Some?
  {
    var k := p[0].cls;
    var max := RunLength(s, i, k);
    BacktrackGreedy(p, ic, s, i, g, max, 0);
    if MatchHere(p, ic, s, i, g).Some? {
      var e: nat :| i + p[0].min <= e <= i + max && e <= |s| && MatchHere(p[1..], ic, s, e, g).Some?;
      assert AllIn(k, s[i..e]);
    }
    forall e | i + p[0].min <= e <= |s| && AllIn(k, s[i..e]) && MatchHere(p[1..], ic, s, e, g).Some?
      ensures MatchHere(p, ic, s, i, g).Some?
    {
      RunLengthMax(s, i, k, e);
      assert RestMatchesIn(p, ic, s, g, i + p[0].min, i + max);
    }
  }

  /**
   * A lazy group that makes the rest match from the `t`-th try on: the
   * shortest such group is the one taken, and the result is that match.
   */
  lemma {:induction false} BacktrackLazy(p: seq<Node>, ic: bool, s: string, i: nat, g: Option<string>, max: nat, t: nat)
    returns (e: nat)
    requires p != [] && p[0].Capture? && p[0].lazy
    requires i + max <= |s| && t <= max + 1
    requires forall j :: i <= j < i + max ==> InClass(p[0].cls, s[j])
    requires Backtrack(p, ic, s, i, g, max, t).Some?
    ensures i + p[0].min + t <= e <= i + max
    ensures Backtrack(p, ic, s, i, g, max, t) == MatchHere(p[1..], ic, s, e, Some(s[i..e]))
    ensures forall f :: i + p[0].min + t <= f < e ==> MatchHere(p[1..], ic, s, f, Some(s[i..f])).None?
    decreases max + 1 - t
  {
    var f := i + p[0].min + t;
    if MatchHere(p[1..], ic, s, f, Some(s[i..f])).Some? {
      e := f;
    } else {
      e := BacktrackLazy(p, ic, s, i, g, max, t + 1);
    }
  }

  /** The lazy tries from the `t`-th on succeed iff some group they cover lets the rest match. */
  lemma {:induction false} BacktrackLazyFound(p: seq<Node>, ic: bool, s: string, i: nat, g: Option<string>, max: nat, t: nat, e: nat)
    requires p != [] && p[0].Capture? && p[0].lazy
    requires i + max <= |s| && t <= max + 1
    requires forall j :: i <= j < i + max ==> InClass(p[0].cls, s[j])
    requires i + p[0].min + t <= e <= i + max && MatchHere(p[1..], ic, s, e, Some(s[i..e])).Some?
    ensures Backtrack(p, ic, s, i, g, max, t).Some?
    decreases max + 1 - t
  {
    if e != i + p[0].min + t {
      var f := i + p[0].min + t;
      if MatchHere(p[1..], ic, s, f, Some(s[i..f])).None? {
        BacktrackLazyFound(p, ic, s, i, g, max, t + 1, e);
      }
    }
  }

  /** A search succeeds iff the pattern matches at some position. */
  lemma FoundIff(pat: Pattern, s: string)
    ensures Found(pat, s) <==> exists i :: 0 <= i <= |s| && MatchAt(pat, s, i).Some?
  {
    if Found(pat, s) {
      var h := Search(pat, s).value;
      assert MatchAt(pat, s, h.start).Some?;
    }
  }

  /** A case-insensitive literal compare, as an occurrence in the lower-cased text. */
  lemma LowerCharsAt(s: string, i: nat, t: string)
    requires i + |t| <= |s|
    ensures SameText(s[i..i + |t|], t, true) <==> CharsAt(ToLower(s), i, ToLower(t))
  {
    LowerSlice(s, i, i + |t|);
    CharsAtIff(ToLower(s), i, ToLower(t));
  }

  /** Text without upper-case letters is its own lower case. */
  lemma LowerOfLower(t: string)
    requires forall k :: 0 <= k < |t| ==> !('A' <= t[k] <= 'Z')
    ensures ToLower(t) == t
  {
  }
}
