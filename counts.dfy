/**
 * `_parse_count` of the scraper base: counts such as "1,234", "1.2K" or
 * "3M" read as whole numbers, with nothing for text that is not a count.
 */
module Counts {
  import opened Wrappers
  import opened Text
  import opened ScraperBase

  /** `s.replace(c, '')`. */
  function Remove(s: string, c: char): (r: string)
    ensures |r| <= |s|
    decreases |s|
  {
    if s == [] then [] else (if s[0] == c then [] else [s[0]]) + Remove(s[1..], c)
  }

  /** `Remove` drops every `c`, keeps every other character, and leaves text without `c` alone. */
  lemma {:induction false} RemoveMembers(s: string, c: char)
    ensures c !in Remove(s, c)
    ensures forall x :: x != c ==> (x in Remove(s, c) <==> x in s)
    ensures c !in s ==> Remove(s, c) == s
    decreases |s|
  {
    if s != [] {
      RemoveMembers(s[1..], c);
      assert s == [s[0]] + s[1..];
    }
  }

  /** An exact decimal number: `(-1)^negative * mantissa / 10^scale`. */
  datatype Decimal = Decimal(negative: bool, mantissa: nat, scale: nat)

  /** `x / 10^n`, rounded down. */
  function DropDigits(x: nat, n: nat): nat
  {
    if n == 0 then x else DropDigits(x / 10, n - 1)
  }

  /** A leading `-`. */
  predicate Negative(s: string)
  {
    s != [] && s[0] == '-'
  }

  /** The text after a leading `+` or `-`. */
  function Unsigned(s: string): (r: string)
    ensures |r| <= |s|
  {
    if s != [] && (s[0] == '-' || s[0] == '+') then s[1..] else s
  }

  /**
   * `float(s)` for plain decimals: surrounding whitespace, an optional
   * sign, digits with at most one '.', and at least one digit.
   */
  function ParseDecimal(s: string): (r: Option<Decimal>)
  {
    var t := Strip(s);
    DecimalBody(Negative(t), Unsigned(t))
  }

  /** The unsigned part: a run of digits, then nothing or a point and digits. */
  function DecimalBody(negative: bool, body: string): Option<Decimal>
  {
    var whole := Run(body, IsDigit);
    DecimalParts(negative, whole, body[|whole|..])
  }

  function DecimalParts(negative: bool, whole: string, rest: string): Option<Decimal>
    requires AllDigits(whole)
  {
    if rest == [] then
      if whole == [] then None else Some(Decimal(negative, DigitsValue(whole), 0))
    else if rest[0] != '.' then None
    else
      var fraction := rest[1..];
      if AllDigits(fraction) && |whole| + |fraction| > 0 then
        Some(Decimal(negative, DigitsValue(whole + fraction), |fraction|))
      else None
  }

  /** `int(s)`: surrounding whitespace, an optional sign and at least one digit. */
  function ParseInt(s: string): (r: Option<int>)
    ensures r.Some? && !Negative(Strip(s)) ==> r.value >= 0
  {
    var t := Strip(s);
    var body := Unsigned(t);
    if body != [] && AllDigits(body) then
      var v: int := DigitsValue(body);
      Some(if Negative(t) then -v else v)
    else None
  }

  /** `int(x * multiplier)` for an exact `x`: the product truncated toward zero. */
  function Truncated(d: Decimal, multiplier: nat): (r: int)
    ensures d.negative ==> r <= 0
    ensures !d.negative ==> r >= 0
  {
    var magnitude: int := DropDigits(d.mantissa * multiplier, d.scale);
    if d.negative then -magnitude else magnitude
  }

  /** The count with `letter` removed, read as a decimal and scaled. */
  function Scaled(t: string, letter: char, multiplier: nat): Option<int>
  {
    match ParseDecimal(Remove(t, letter))
    case None => None
    case Some(d) => Some(Truncated(d, multiplier))
  }

  /** The text `_parse_count` reads: stripped, upper-cased and without commas. */
  function CountText(s: string): string
  {
    Remove(ToUpper(Strip(s)), ',')
  }

  /**
   * `_parse_count`: a 'K', 'M' or 'B' anywhere (checked in that order)
   * scales the decimal that remains without that letter; otherwise the
   * text must be an integer. Unparsable text gives nothing.
   */
  function ParseCount(text: Option<string>): (r: Option<int>)
    ensures !Truthy(text) ==> r.None?
  {
    if !Truthy(text) then None else CountOf(CountText(text.value))
  }

  /** The count that cleaned-up text `t` spells. */
  function CountOf(t: string): Option<int>
  {
    match SuffixLetter(t)
    case Some(letter) => Scaled(t, letter, Multiplier(letter))
    case None => ParseInt(t)
  }

  /** The first of 'K', 'M' and 'B', in that order, that occurs anywhere in `t`. */
  function SuffixLetter(t: string): (r: Option<char>)
    ensures r.Some? ==> r.value in t && (r.value == 'K' || r.value == 'M' || r.value == 'B')
    ensures r.None? <==> 'K' !in t && 'M' !in t && 'B' !in t
    ensures r == Some('M') ==> 'K' !in t
    ensures r == Some('B') ==> 'K' !in t && 'M' !in t
  {
    if 'K' in t then Some('K') else if 'M' in t then Some('M') else if 'B' in t then Some('B') else None
  }

  /** The multiplier a suffix letter selects. */
  function Multiplier(letter: char): nat
  {
    if letter == 'K' then 1000 else if letter == 'M' then 1000000 else 1000000000
  }

  predicate HasDigit(s: string)
  {
    exists i :: 0 <= i < |s| && IsDigit(s[i])
  }

  lemma StripKeepsNoDigit(s: string)
    requires !HasDigit(s)
    ensures !HasDigit(Strip(s))
  {
    var t := s[..|s| - TrailingSpaces(s)];
    var k := LeadingSpaces(t);
    var r := Strip(s);
    forall i | 0 <= i < |r|
      ensures !IsDigit(r[i])
    {
      assert r[i] == t[k + i] == s[k + i];
    }
  }

  lemma CountTextNoDigit(s: string)
    requires !HasDigit(s)
    ensures !HasDigit(CountText(s))
  {
    StripKeepsNoDigit(s);
    var u := ToUpper(Strip(s));
    assert !HasDigit(u) by {
      forall i | 0 <= i < |u|
        ensures !IsDigit(u[i])
      {
        assert !IsDigit(Strip(s)[i]);
      }
    }
    var t := Remove(u, ',');
    RemoveMembers(u, ',');
    forall i | 0 <= i < |t|
      ensures !IsDigit(t[i])
    {
      assert t[i] in u;
    }
  }

  lemma RemoveNoDigit(t: string, c: char)
    requires !HasDigit(t)
    ensures !HasDigit(Remove(t, c))
  {
    var r := Remove(t, c);
    RemoveMembers(t, c);
    forall i | 0 <= i < |r|
      ensures !IsDigit(r[i])
    {
      assert r[i] in t;
    }
  }

  /** A decimal needs a digit. */
  lemma ParseDecimalNeedsDigit(s: string)
    requires !HasDigit(s)
    ensures ParseDecimal(s).None?
  {
    StripKeepsNoDigit(s);
    var body := Unsigned(Strip(s));
    assert Run(body, IsDigit) == [];
  }

  /** Text without a digit is never read as a count, not even as 0. */
  lemma ParseCountNeedsDigit(s: string)
    requires !HasDigit(s)
    ensures ParseCount(Some(s)).None?
  {
    CountTextNoDigit(s);
    CountOfNeedsDigit(CountText(s));
  }

  lemma CountOfNeedsDigit(t: string)
    requires !HasDigit(t)
    ensures CountOf(t).None?
  {
    match SuffixLetter(t)
    case Some(letter) =>
      RemoveNoDigit(t, letter);
      ParseDecimalNeedsDigit(Remove(t, letter));
    case None =>
      ParseIntNeedsDigit(t);
  }

  /** An integer needs a digit. */
  lemma ParseIntNeedsDigit(t: string)
    requires !HasDigit(t)
    ensures ParseInt(t).None?
  {
    StripKeepsNoDigit(t);
    var body := Unsigned(Strip(t));
    assert !(body != [] && AllDigits(body)) by {
      if body != [] {
        assert body[0] == Strip(t)[|Strip(t)| - |body|];
      }
    }
  }

  /** Removing a letter that only ends the text drops just that letter. */
  lemma {:induction false} RemoveLast(a: string, c: char)
    requires c !in a
    ensures Remove(a + [c], c) == a
    decreases |a|
  {
    if a == [] {
      assert a + [c] == [c];
    } else {
      assert (a + [c])[1..] == a[1..] + [c];
      RemoveLast(a[1..], c);
      assert a == [a[0]] + a[1..];
    }
  }

  /** A number that starts and ends with a digit is neither padded nor signed. */
  lemma PlainNumber(s: string)
    requires s != [] && IsDigit(s[0]) && IsDigit(s[|s| - 1])
    ensures !Negative(Strip(s)) && Unsigned(Strip(s)) == s
  {
    StripUnchanged(s);
  }

  /** Digits followed by a non-digit: the digit run is exactly the digits. */
  lemma DigitsThen(whole: string, rest: string)
    requires AllDigits(whole)
    requires rest == [] || !IsDigit(rest[0])
    ensures Run(whole + rest, IsDigit) == whole
    ensures (whole + rest)[|whole|..] == rest
  {
    RunAll(whole, IsDigit);
    RunAppend(whole, rest, IsDigit);
  }

  lemma DecimalBodyOf(negative: bool, whole: string, rest: string)
    requires AllDigits(whole)
    requires rest == [] || !IsDigit(rest[0])
    ensures DecimalBody(negative, whole + rest) == DecimalParts(negative, whole, rest)
  {
    DigitsThen(whole, rest);
  }

  /** Appending a digit multiplies the value by ten and adds the digit. */
  lemma DigitsAppend(d: string, f: nat)
    requires AllDigits(d) && f < 10
    ensures AllDigits(d + [DigitChar(f)])
    ensures DigitsValue(d + [DigitChar(f)]) == DigitsValue(d) * 10 + f
  {
    var s := d + [DigitChar(f)];
    assert s[..|s| - 1] == d;
  }

  /** Upper-casing text without lower-case letters changes nothing. */
  lemma ToUpperUnchanged(s: string)
    requires forall i :: 0 <= i < |s| ==> !('a' <= s[i] <= 'z')
    ensures ToUpper(s) == s
  {
  }

  /** Text that `CountText` leaves as it is. */
  lemma CountTextUnchanged(s: string)
    requires s != [] && !IsSpace(s[0]) && !IsSpace(s[|s| - 1])
    requires forall i :: 0 <= i < |s| ==> !('a' <= s[i] <= 'z') && s[i] != ','
    ensures CountText(s) == s
  {
    CleanedText(s);
    RemoveMembers(s, ',');
  }

  /** A count whose only letter is the suffix at its end is the number before it, scaled. */
  lemma ScaledCount(x: string, letter: char)
    requires letter == 'K' || letter == 'M' || letter == 'B'
    requires forall i :: 0 <= i < |x| ==> IsDigit(x[i]) || x[i] == '.'
    requires x != [] && IsDigit(x[0])
    ensures CountText(x + [letter]) == x + [letter]
    ensures SuffixLetter(x + [letter]) == Some(letter)
    ensures Remove(x + [letter], letter) == x
  {
    SuffixedText(x, letter);
    SuffixedLetter(x, letter);
    SuffixDropped(x, letter);
  }

  lemma SuffixDropped(x: string, letter: char)
    requires letter == 'K' || letter == 'M' || letter == 'B'
    requires forall i :: 0 <= i < |x| ==> IsDigit(x[i]) || x[i] == '.'
    ensures Remove(x + [letter], letter) == x
  {
    assert letter !in x;
    RemoveLast(x, letter);
  }

  lemma SuffixedText(x: string, letter: char)
    requires letter == 'K' || letter == 'M' || letter == 'B'
    requires forall i :: 0 <= i < |x| ==> IsDigit(x[i]) || x[i] == '.'
    requires x != [] && IsDigit(x[0])
    ensures CountText(x + [letter]) == x + [letter]
  {
    var s := x + [letter];
    assert forall i :: 0 <= i < |s| ==> s[i] == letter || IsDigit(s[i]) || s[i] == '.';
    CountTextUnchanged(s);
  }

  lemma SuffixedLetter(x: string, letter: char)
    requires letter == 'K' || letter == 'M' || letter == 'B'
    requires forall i :: 0 <= i < |x| ==> IsDigit(x[i]) || x[i] == '.'
    ensures SuffixLetter(x + [letter]) == Some(letter)
  {
    var s := x + [letter];
    assert s[|x|] == letter;
    assert 'K' in s ==> letter == 'K';
    assert 'M' in s ==> letter == 'M';
  }

  /** Present, non-empty text is counted after clean-up. */
  lemma CountOfText(s: string)
    requires s != []
    ensures ParseCount(Some(s)) == CountOf(CountText(s))
  {
  }

  /** A whole number reads as itself. */
  lemma IntegerDecimal(d: string)
    requires d != [] && AllDigits(d)
    ensures ParseDecimal(d) == Some(Decimal(false, DigitsValue(d), 0))
  {
    PlainNumber(d);
    assert d + [] == d;
    DecimalBodyOf(false, d, []);
  }

  /** Digits, a point and one more digit read as a decimal with one place. */
  lemma OneDecimal(d: string, c: char)
    requires d != [] && AllDigits(d) && IsDigit(c)
    ensures ParseDecimal(d + "." + [c]) == Some(Decimal(false, DigitsValue(d + [c]), 1))
  {
    var fr := [c];
    var s := d + "." + fr;
    assert s == d + ("." + fr);
    PlainNumber(s);
    DecimalBodyOf(false, d, "." + fr);
    assert ("." + fr)[1..] == fr;
  }

  /** Digits alone, without a suffix letter, read as the integer they spell. */
  lemma IntegerCount(t: string)
    requires t != [] && AllDigits(t)
    ensures CountOf(t) == Some(DigitsValue(t))
  {
    assert 'K' !in t && 'M' !in t && 'B' !in t;
    assert SuffixLetter(t).None?;
    PlainNumber(t);
  }

  /** Digits and commas together: what remains without the commas is digits. */
  lemma CommasDropped(s: string)
    requires forall i :: 0 <= i < |s| ==> IsDigit(s[i]) || s[i] == ','
    requires HasDigit(s)
    ensures Remove(s, ',') != [] && AllDigits(Remove(s, ','))
  {
    var t := Remove(s, ',');
    RemoveMembers(s, ',');
    forall i | 0 <= i < |t|
      ensures IsDigit(t[i])
    {
      assert t[i] in s;
    }
    var k :| 0 <= k < |s| && IsDigit(s[k]);
    assert s[k] in t;
  }

  /** Digits and commas need no clean-up beyond dropping the commas. */
  lemma CommaText(s: string)
    requires forall i :: 0 <= i < |s| ==> IsDigit(s[i]) || s[i] == ','
    ensures CountText(s) == Remove(s, ',')
  {
    assert s == [] || (!IsSpace(s[0]) && !IsSpace(s[|s| - 1]));
    CleanedText(s);
  }

  /** Text with nothing to strip and no lower-case letter only loses its commas. */
  lemma CleanedText(s: string)
    requires s == [] || (!IsSpace(s[0]) && !IsSpace(s[|s| - 1]))
    requires forall i :: 0 <= i < |s| ==> !('a' <= s[i] <= 'z')
    ensures CountText(s) == Remove(s, ',')
  {
    ToUpperUnchanged(s);
    StripUnchanged(s);
  }

  /** Text of digits and commas with at least one digit reads as the number its digits spell. */
  lemma CountWithCommas(s: string)
    requires forall i :: 0 <= i < |s| ==> IsDigit(s[i]) || s[i] == ','
    requires HasDigit(s)
    ensures AllDigits(Remove(s, ','))
    ensures ParseCount(Some(s)) == Some(DigitsValue(Remove(s, ',')))
  {
    CommasDropped(s);
    CommaText(s);
    IntegerCount(Remove(s, ','));
    CountOfText(s);
  }

  /** A whole number followed by a suffix letter is that number times the letter's multiplier. */
  lemma CountWithSuffix(n: nat, letter: char)
    requires letter == 'K' || letter == 'M' || letter == 'B'
    ensures ParseCount(Some(NatToString(n) + [letter])) == Some(n * Multiplier(letter))
  {
    var d := NatToString(n);
    var s := d + [letter];
    NatToStringValue(n);
    assert Some(Truncated(Decimal(false, DigitsValue(d), 0), Multiplier(letter))) == Some(n * Multiplier(letter));
    ScaledCount(d, letter);
    IntegerDecimal(d);
    assert CountOf(s) == Scaled(s, letter, Multiplier(letter));
    CountOfText(s);
  }

  /** `int((10 * a + f) / 10 * m)` for a multiplier that ten divides. */
  lemma ScaleOnePlace(a: nat, f: nat, letter: char)
    requires f < 10
    ensures Truncated(Decimal(false, a * 10 + f, 1), Multiplier(letter))
            == a * Multiplier(letter) + f * (Multiplier(letter) / 10)
  {
    var q := Multiplier(letter) / 10;
    assert Multiplier(letter) == q * 10;
    var y := a * (q * 10) + f * q;
    TenthsScale(a, f, q);
    assert DropDigits(y * 10, 1) == y;
  }

  lemma TenthsScale(a: nat, f: nat, q: nat)
    ensures (a * 10 + f) * (q * 10) == (a * (q * 10) + f * q) * 10
  {
    calc {
      (a * 10 + f) * (q * 10);
      (a * 10) * (q * 10) + f * (q * 10);
      { assert (a * 10) * (q * 10) == a * (q * 10) * 10; assert f * (q * 10) == f * q * 10; }
      a * (q * 10) * 10 + f * q * 10;
      (a * (q * 10) + f * q) * 10;
    }
  }

  /** A number with one decimal place and a suffix letter: the scaled value, truncated. */
  lemma CountWithDecimalSuffix(a: nat, f: nat, letter: char)
    requires f < 10
    requires letter == 'K' || letter == 'M' || letter == 'B'
    ensures ParseCount(Some(NatToString(a) + "." + [DigitChar(f)] + [letter]))
            == Some(a * Multiplier(letter) + f * (Multiplier(letter) / 10))
  {
    var d := NatToString(a);
    var c := DigitChar(f);
    var x := d + "." + [c];
    var s := x + [letter];
    NatToStringValue(a);
    DigitsAppend(d, f);
    ScaleOnePlace(a, f, letter);
    assert Some(Truncated(Decimal(false, DigitsValue(d + [c]), 1), Multiplier(letter)))
           == Some(a * Multiplier(letter) + f * (Multiplier(letter) / 10));
    assert forall i :: 0 <= i < |x| ==> IsDigit(x[i]) || x[i] == '.' by {
      assert x == d + ("." + [c]);
    }
    ScaledCount(x, letter);
    OneDecimal(d, c);
    assert CountOf(s) == Scaled(s, letter, Multiplier(letter));
    CountOfText(s);
  }

  /** Digits and decimal points only. */
  predicate Numeric(s: string)
  {
    forall i :: 0 <= i < |s| ==> IsDigit(s[i]) || s[i] == '.'
  }

  /** Digits and points that begin and end with a digit need no clean-up and carry no suffix letter. */
  lemma NumericText(s: string)
    requires s != [] && IsDigit(s[0]) && IsDigit(s[|s| - 1]) && Numeric(s)
    ensures CountText(s) == s && SuffixLetter(s).None?
  {
    CountTextUnchanged(s);
    assert 'K' !in s && 'M' !in s && 'B' !in s;
  }

  /** A number with a decimal point but no suffix letter is not a count: `int()` refuses the '.'. */
  lemma PointWithoutSuffix(s: string, k: nat)
    requires s != [] && IsDigit(s[0]) && IsDigit(s[|s| - 1]) && Numeric(s)
    requires k < |s| && s[k] == '.'
    ensures ParseCount(Some(s)) == None
  {
    NumericText(s);
    PlainNumber(s);
    assert !AllDigits(s);
    CountOfText(s);
  }

  /** A decimal without a suffix letter is not a count. */
  lemma DecimalWithoutSuffix(a: nat, f: nat)
    requires f < 10
    ensures ParseCount(Some(NatToString(a) + "." + [DigitChar(f)])) == None
  {
    var d := NatToString(a);
    var s := d + "." + [DigitChar(f)];
    assert s == d + ("." + [DigitChar(f)]);
    assert Numeric(s);
    assert s[|d|] == '.';
    PointWithoutSuffix(s, |d|);
  }

  /** "1000" and "1,000" are both a thousand. */
  lemma ThousandExample(s: string)
    requires s == "1000" || s == "1,000"
    ensures ParseCount(Some(s)) == Some(1000)
  {
    ThousandChars(s);
    if s == "1000" {
      RemoveMembers(s, ',');
    } else {
      CommaThousand(s);
    }
    ThousandValue(Remove(s, ','));
    CountWithCommas(s);
  }

  lemma ThousandChars(s: string)
    requires s == "1000" || s == "1,000"
    ensures forall i :: 0 <= i < |s| ==> IsDigit(s[i]) || s[i] == ','
    ensures HasDigit(s)
  {
    assert IsDigit(s[0]);
  }

  lemma CommaThousand(s: string)
    requires s == "1,000"
    ensures Remove(s, ',') == "1000"
  {
    var t := s[1..];
    assert t == ",000" && t[1..] == "000";
    RemoveMembers("000", ',');
    assert Remove(t, ',') == "000";
    assert Remove(s, ',') == "1" + "000";
  }

  lemma ThousandValue(s: string)
    requires s == "1000"
    ensures AllDigits(s) && DigitsValue(s) == 1000
  {
    assert NatToString(1000) == s;
    NatToStringValue(1000);
  }

  /** "1.5K" is 1500. */
  lemma KiloExample(s: string)
    requires s == "1.5K"
    ensures ParseCount(Some(s)) == Some(1500)
  {
    assert NatToString(1) + "." + [DigitChar(5)] + ['K'] == s;
    assert Some(1 * Multiplier('K') + 5 * (Multiplier('K') / 10)) == Some(1500);
    CountWithDecimalSuffix(1, 5, 'K');
  }

  /** "2.3M" is 2300000. */
  lemma MegaExample(s: string)
    requires s == "2.3M"
    ensures ParseCount(Some(s)) == Some(2300000)
  {
    assert NatToString(2) + "." + [DigitChar(3)] + ['M'] == s;
    assert Some(2 * Multiplier('M') + 3 * (Multiplier('M') / 10)) == Some(2300000);
    CountWithDecimalSuffix(2, 3, 'M');
  }

  /** "1B" is 10^9. */
  lemma GigaExample(s: string)
    requires s == "1B"
    ensures ParseCount(Some(s)) == Some(1000000000)
  {
    assert NatToString(1) + ['B'] == s;
    assert Some(1 * Multiplier('B')) == Some(1000000000);
    CountWithSuffix(1, 'B');
  }

  /** Nothing and "invalid" are not counts. */
  lemma NoCountExample(s: string)
    requires s == "invalid"
    ensures ParseCount(None) == None
    ensures ParseCount(Some(s)) == None
  {
    assert !HasDigit(s);
    ParseCountNeedsDigit(s);
  }
}
