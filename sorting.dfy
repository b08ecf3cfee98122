/**
 * Python's `list.sort(key=…, reverse=…)` as a value: a stable sort by a
 * key, ascending or descending. Ties keep their input order in both
 * directions, as `reverse=True` does.
 */
module Sorting {
  import opened Wrappers
  import opened Text
  import opened Grouping

  /**
   * A sort key: a number, a string, a time stamp where an absent one (the
   * "" fall-back) comes first, a list of strings, or a boolean.
   */
  datatype Key = Num(n: int) | Str(s: string) | Time(t: Option<int>) | Strs(l: seq<string>) | Flag(b: bool)

  /** The kind of a key: Python compares keys of one kind only. */
  function Rank(k: Key): nat
  {
    match k
    case Num(_) => 0
    case Str(_) => 1
    case Time(_) => 2
    case Strs(_) => 3
    case Flag(_) => 4
  }

  /** Python's ordering of lists of strings: element by element, a proper prefix first. */
  predicate ListLess(a: seq<string>, b: seq<string>)
    decreases |a|
  {
    if a == [] then b != []
    else if b == [] then false
    else if a[0] != b[0] then LexLess(a[0], b[0])
    else ListLess(a[1..], b[1..])
  }

  lemma {:induction false} ListLessIrreflexive(a: seq<string>)
    ensures !ListLess(a, a)
    decreases |a|
  {
    if a != [] {
      ListLessIrreflexive(a[1..]);
    }
  }

  lemma {:induction false} ListLessTransitive(a: seq<string>, b: seq<string>, c: seq<string>)
    requires ListLess(a, b) && ListLess(b, c)
    ensures ListLess(a, c)
    decreases |a|
  {
    if a != [] && b != [] && c != [] {
      if a[0] == b[0] && b[0] == c[0] {
        ListLessTransitive(a[1..], b[1..], c[1..]);
      } else if a[0] != b[0] && b[0] != c[0] {
        LexLessTransitive(a[0], b[0], c[0]);
        if a[0] == c[0] {
          LexLessIrreflexive(a[0]);
        }
      }
    }
  }

  lemma {:induction false} ListLessTotal(a: seq<string>, b: seq<string>)
    ensures a == b || ListLess(a, b) || ListLess(b, a)
    decreases |a|
  {
    if a != [] && b != [] {
      if a[0] == b[0] {
        ListLessTotal(a[1..], b[1..]);
        if a[1..] == b[1..] {
          assert a == [a[0]] + a[1..] && b == [b[0]] + b[1..];
        }
      } else {
        LexLessTotal(a[0], b[0]);
      }
    }
  }

  /**
   * `a < b`. Python raises `TypeError` for keys of different kinds (see
   * `Mixed`); here they are ordered by kind only to make the order total.
   */
  predicate KeyLess(a: Key, b: Key)
  {
    match (a, b)
    case (Num(x), Num(y)) => x < y
    case (Str(x), Str(y)) => LexLess(x, y)
    case (Time(x), Time(y)) => (x.None? && y.Some?) || (x.Some? && y.Some? && x.value < y.value)
    case (Strs(x), Strs(y)) => ListLess(x, y)
    case (Flag(x), Flag(y)) => !x && y
    case _ => Rank(a) < Rank(b)
  }

  /**
   * Whether a sort of `xs` meets two keys of different kinds. A sort of a
   * list whose keys are not all of one kind must compare two of different
   * kinds somewhere (two neighbours of its result), so Python's `sort`
   * raises `TypeError` exactly then.
   */
  predicate Mixed<T>(xs: seq<T>, key: T -> Key)
  {
    exists i, j :: 0 <= i < |xs| && 0 <= j < |xs| && Rank(key(xs[i])) != Rank(key(xs[j]))
  }

  /** Whether `a` sorts strictly before `b`: ascending, or descending for `reverse=True`. */
  predicate Before(a: Key, b: Key, desc: bool)
  {
    if desc then KeyLess(b, a) else KeyLess(a, b)
  }

  lemma KeyLessIrreflexive(a: Key)
    ensures !KeyLess(a, a)
  {
    if a.Str? {
      LexLessIrreflexive(a.s);
    } else if a.Strs? {
      ListLessIrreflexive(a.l);
    }
  }

  lemma KeyLessTransitive(a: Key, b: Key, c: Key)
    requires KeyLess(a, b) && KeyLess(b, c)
    ensures KeyLess(a, c)
  {
    if a.Str? && b.Str? && c.Str? {
      LexLessTransitive(a.s, b.s, c.s);
    } else if a.Strs? && b.Strs? && c.Strs? {
      ListLessTransitive(a.l, b.l, c.l);
    }
  }

  lemma KeyLessTotal(a: Key, b: Key)
    ensures a == b || KeyLess(a, b) || KeyLess(b, a)
  {
    if a.Str? && b.Str? {
      LexLessTotal(a.s, b.s);
    } else if a.Strs? && b.Strs? {
      ListLessTotal(a.l, b.l);
    }
  }

  lemma BeforeAsymmetric(a: Key, b: Key, desc: bool)
    requires Before(a, b, desc)
    ensures !Before(b, a, desc)
  {
    if Before(b, a, desc) {
      if desc {
        KeyLessTransitive(b, a, b);
        KeyLessIrreflexive(b);
      } else {
        KeyLessTransitive(a, b, a);
        KeyLessIrreflexive(a);
      }
    }
  }

  /** No later element sorts strictly before an earlier one. */
  ghost predicate SortedBy<T>(r: seq<T>, key: T -> Key, desc: bool)
  {
    forall i, j :: 0 <= i < j < |r| ==> !Before(key(r[j]), key(r[i]), desc)
  }

  /** Inserts `x` into a sorted list before the first element it sorts strictly before, so after all its ties. */
  function Insert<T>(x: T, r: seq<T>, key: T -> Key, desc: bool): (s: seq<T>)
    ensures multiset(s) == multiset(r) + multiset{x}
    decreases |r|
  {
    if r == [] then [x]
    else if Before(key(x), key(r[0]), desc) then [x] + r
    else
      var tail := Insert(x, r[1..], key, desc);
      assert r == [r[0]] + r[1..];
      [r[0]] + tail
  }

  /** `sorted(xs, key=key, reverse=desc)`: each element inserted in input order. */
  function SortBy<T>(xs: seq<T>, key: T -> Key, desc: bool): (r: seq<T>)
    ensures multiset(r) == multiset(xs)
    decreases |xs|
  {
    if xs == [] then []
    else
      var r := Insert(xs[|xs| - 1], SortBy(xs[..|xs| - 1], key, desc), key, desc);
      assert xs == xs[..|xs| - 1] + [xs[|xs| - 1]];
      r
  }

  /** A key that sorts before the head sorts before every element of a sorted list. */
  lemma BeforeAll<T>(x: T, r: seq<T>, key: T -> Key, desc: bool)
    requires SortedBy(r, key, desc) && r != [] && Before(key(x), key(r[0]), desc)
    ensures forall j :: 0 <= j < |r| ==> Before(key(x), key(r[j]), desc)
  {
    forall j | 0 < j < |r|
      ensures Before(key(x), key(r[j]), desc)
    {
      KeyLessTotal(key(r[0]), key(r[j]));
      if desc && key(r[0]) != key(r[j]) {
        KeyLessTransitive(key(r[j]), key(r[0]), key(x));
      } else if !desc && key(r[0]) != key(r[j]) {
        KeyLessTransitive(key(x), key(r[0]), key(r[j]));
      }
    }
  }

  /** `x` in front of a sorted list whose head it sorts strictly before. */
  lemma InsertFrontSorted<T>(x: T, r: seq<T>, key: T -> Key, desc: bool)
    requires SortedBy(r, key, desc) && r != [] && Before(key(x), key(r[0]), desc)
    ensures SortedBy([x] + r, key, desc)
  {
    BeforeAll(x, r, key, desc);
    forall j | 0 <= j < |r|
      ensures !Before(key(r[j]), key(x), desc)
    {
      BeforeAsymmetric(key(x), key(r[j]), desc);
    }
    assert forall j :: 0 < j < |r| + 1 ==> ([x] + r)[j] == r[j - 1];
  }

  /** The head of a sorted list in front of a sorted list of the rest and something that does not sort before it. */
  lemma InsertLaterSorted<T>(x: T, r: seq<T>, tail: seq<T>, key: T -> Key, desc: bool)
    requires SortedBy(r, key, desc) && r != [] && !Before(key(x), key(r[0]), desc)
    requires SortedBy(tail, key, desc) && multiset(tail) == multiset(r[1..]) + multiset{x}
    ensures SortedBy([r[0]] + tail, key, desc)
  {
    forall e | e in tail
      ensures !Before(key(e), key(r[0]), desc)
    {
      assert e in multiset(tail);
      if e != x {
        assert e in r[1..];
        var k :| 0 <= k < |r[1..]| && r[1..][k] == e;
        assert r[k + 1] == e;
      }
    }
    assert forall j :: 0 < j < |tail| + 1 ==> ([r[0]] + tail)[j] == tail[j - 1] && tail[j - 1] in tail;
  }

  lemma {:induction false} InsertSorted<T>(x: T, r: seq<T>, key: T -> Key, desc: bool)
    requires SortedBy(r, key, desc)
    ensures SortedBy(Insert(x, r, key, desc), key, desc)
    decreases |r|
  {
    if r != [] {
      if Before(key(x), key(r[0]), desc) {
        InsertFrontSorted(x, r, key, desc);
      } else {
        SortedTail(r, key, desc);
        InsertSorted(x, r[1..], key, desc);
        InsertLaterSorted(x, r, Insert(x, r[1..], key, desc), key, desc);
      }
    }
  }

  /** The sort's result is sorted. */
  lemma {:induction false} SortSorted<T>(xs: seq<T>, key: T -> Key, desc: bool)
    ensures SortedBy(SortBy(xs, key, desc), key, desc)
    decreases |xs|
  {
    if xs != [] {
      SortSorted(xs[..|xs| - 1], key, desc);
      InsertSorted(xs[|xs| - 1], SortBy(xs[..|xs| - 1], key, desc), key, desc);
    }
  }

  lemma {:induction false} WithKeyPrepend<T>(a: T, r: seq<T>, key: T -> Key, k: Key)
    ensures WithKey([a] + r, key, k) == (if key(a) == k then [a] else []) + WithKey(r, key, k)
    decreases |r|
  {
    if r != [] {
      var init := r[..|r| - 1];
      assert ([a] + r)[..|r|] == [a] + init;
      WithKeyPrepend(a, init, key, k);
    }
  }

  lemma {:induction false} WithKeyNone<T>(r: seq<T>, key: T -> Key, k: Key)
    requires forall j :: 0 <= j < |r| ==> key(r[j]) != k
    ensures WithKey(r, key, k) == []
    decreases |r|
  {
    if r != [] {
      WithKeyNone(r[..|r| - 1], key, k);
    }
  }

  lemma SortedTail<T>(r: seq<T>, key: T -> Key, desc: bool)
    requires SortedBy(r, key, desc) && r != []
    ensures SortedBy(r[1..], key, desc)
  {
    assert forall j :: 0 <= j < |r| - 1 ==> r[1..][j] == r[j + 1];
  }

  /** Nothing in a sorted list after which `x` goes in front has `x`'s key. */
  lemma FrontKeyAbsent<T>(x: T, r: seq<T>, key: T -> Key, desc: bool)
    requires SortedBy(r, key, desc) && r != [] && Before(key(x), key(r[0]), desc)
    ensures WithKey(r, key, key(x)) == []
  {
    BeforeAll(x, r, key, desc);
    KeyLessIrreflexive(key(x));
    WithKeyNone(r, key, key(x));
  }

  lemma InsertFrontStable<T>(x: T, r: seq<T>, key: T -> Key, desc: bool, k: Key)
    requires SortedBy(r, key, desc) && r != [] && Before(key(x), key(r[0]), desc)
    ensures WithKey([x] + r, key, k) == WithKey(r, key, k) + (if key(x) == k then [x] else [])
  {
    WithKeyPrepend(x, r, key, k);
    if key(x) == k {
      FrontKeyAbsent(x, r, key, desc);
      assert [x] + [] == [] + [x];
    } else {
      assert [] + WithKey(r, key, k) == WithKey(r, key, k) + [];
    }
  }

  lemma PrependKeeps<T>(a: T, r: seq<T>, t: seq<T>, key: T -> Key, k: Key, extra: seq<T>)
    requires WithKey(t, key, k) == WithKey(r, key, k) + extra
    ensures WithKey([a] + t, key, k) == WithKey([a] + r, key, k) + extra
  {
    WithKeyPrepend(a, t, key, k);
    WithKeyPrepend(a, r, key, k);
  }

  lemma InsertLaterStable<T>(x: T, r: seq<T>, key: T -> Key, desc: bool, k: Key, extra: seq<T>)
    requires r != [] && !Before(key(x), key(r[0]), desc)
    requires WithKey(Insert(x, r[1..], key, desc), key, k) == WithKey(r[1..], key, k) + extra
    ensures WithKey(Insert(x, r, key, desc), key, k) == WithKey(r, key, k) + extra
  {
    var tail := Insert(x, r[1..], key, desc);
    assert Insert(x, r, key, desc) == [r[0]] + tail;
    PrependKeeps(r[0], r[1..], tail, key, k, extra);
    assert [r[0]] + r[1..] == r;
  }

  /** Inserting puts `x` after every element of its own key. */
  lemma {:induction false} InsertStable<T>(x: T, r: seq<T>, key: T -> Key, desc: bool, k: Key)
    requires SortedBy(r, key, desc)
    ensures WithKey(Insert(x, r, key, desc), key, k) == WithKey(r, key, k) + (if key(x) == k then [x] else [])
    decreases |r|
  {
    if r == [] {
      assert [x] == [] + [x];
    } else if Before(key(x), key(r[0]), desc) {
      InsertFrontStable(x, r, key, desc, k);
    } else {
      SortedTail(r, key, desc);
      InsertStable(x, r[1..], key, desc, k);
      InsertLaterStable(x, r, key, desc, k, if key(x) == k then [x] else []);
    }
  }

  /** Elements with equal keys keep their input order. */
  lemma {:induction false} SortStable<T>(xs: seq<T>, key: T -> Key, desc: bool, k: Key)
    ensures WithKey(SortBy(xs, key, desc), key, k) == WithKey(xs, key, k)
    decreases |xs|
  {
    if xs != [] {
      var init, x := xs[..|xs| - 1], xs[|xs| - 1];
      SortStable(init, key, desc, k);
      SortSorted(init, key, desc);
      InsertStable(x, SortBy(init, key, desc), key, desc, k);
    }
  }
}
