/**
 * Counters as Python fills them with `counts[k] += 1` (a `defaultdict(int)`
 * or a `dict.get(k, 0) + 1`): one entry per key in order of first
 * appearance. A counter is the group sizes of `Grouping.Groups`, which is
 * how its properties are proved.
 */
module Tallies {
  import opened Grouping

  /** The size of each group, keys kept in order. */
  function Sizes<T, K>(gs: seq<(K, seq<T>)>): (r: seq<(K, nat)>)
    ensures |r| == |gs|
    ensures forall j :: 0 <= j < |gs| ==> r[j] == (gs[j].0, |gs[j].1|)
  {
    seq(|gs|, j requires 0 <= j < |gs| => (gs[j].0, |gs[j].1|))
  }

  /** `counts[k] += 1`: the count of `k` goes up by one, and a new key enters last with count 1. */
  function Bump<K(==)>(cs: seq<(K, nat)>, k: K): seq<(K, nat)>
    decreases |cs|
  {
    if cs == [] then [(k, 1)]
    else if cs[0].0 == k then [(k, cs[0].1 + 1)] + cs[1..]
    else [cs[0]] + Bump(cs[1..], k)
  }

  /** The counter after counting the key of every element of `xs`, in order. */
  function Tally<T, K(==)>(xs: seq<T>, key: T -> K): seq<(K, nat)>
    decreases |xs|
  {
    if xs == [] then [] else Bump(Tally(xs[..|xs| - 1], key), key(xs[|xs| - 1]))
  }

  /** The keys of a counter, in order. */
  function CounterKeys<K>(cs: seq<(K, nat)>): (r: seq<K>)
    ensures |r| == |cs|
    ensures forall j :: 0 <= j < |cs| ==> r[j] == cs[j].0
  {
    seq(|cs|, j requires 0 <= j < |cs| => cs[j].0)
  }

  /** The sum of the counts. */
  function Total<K>(cs: seq<(K, nat)>): nat
    decreases |cs|
  {
    if cs == [] then 0 else cs[0].1 + Total(cs[1..])
  }

  /** `sum(w(x) for x in xs)`. */
  function SumOf<T>(xs: seq<T>, w: T -> int): int
    decreases |xs|
  {
    if xs == [] then 0 else SumOf(xs[..|xs| - 1], w) + w(xs[|xs| - 1])
  }

  lemma {:induction false} BumpSizes<T, K>(gs: seq<(K, seq<T>)>, k: K, x: T)
    ensures Bump(Sizes(gs), k) == Sizes(AddToGroup(gs, k, x))
    decreases |gs|
  {
    if gs != [] {
      assert Sizes(gs)[1..] == Sizes(gs[1..]);
      if gs[0].0 != k {
        BumpSizes(gs[1..], k, x);
      }
    }
  }

  /** Counting is taking group sizes. */
  lemma {:induction false} TallyIsSizes<T, K>(xs: seq<T>, key: T -> K)
    ensures Tally(xs, key) == Sizes(Groups(xs, key))
    decreases |xs|
  {
    if xs != [] {
      TallyIsSizes(xs[..|xs| - 1], key);
      BumpSizes(Groups(xs[..|xs| - 1], key), key(xs[|xs| - 1]), xs[|xs| - 1]);
    }
  }

  lemma {:induction false} TotalSizes<T, K>(gs: seq<(K, seq<T>)>)
    ensures Total(Sizes(gs)) == TotalSize(gs)
    decreases |gs|
  {
    if gs != [] {
      assert Sizes(gs)[1..] == Sizes(gs[1..]);
      TotalSizes(gs[1..]);
    }
  }

  lemma KeysOfSizes<T, K>(gs: seq<(K, seq<T>)>)
    ensures CounterKeys(Sizes(gs)) == GroupKeys(gs)
  {
  }

  /**
   * A counter holds every key of `xs` exactly once, in order of first
   * appearance, each with the number of elements of that key (at least
   * one), and its counts add up to the number of elements.
   */
  lemma TallySpec<T, K>(xs: seq<T>, key: T -> K)
    ensures Distinct(CounterKeys(Tally(xs, key)))
    ensures CounterKeys(Tally(xs, key)) == Keys(FirstOfEach(xs, key), key)
    ensures forall k :: k in CounterKeys(Tally(xs, key)) <==> k in Keys(xs, key)
    ensures forall j :: 0 <= j < |Tally(xs, key)| ==>
      Tally(xs, key)[j].1 == |WithKey(xs, key, Tally(xs, key)[j].0)| && Tally(xs, key)[j].1 > 0
    ensures Total(Tally(xs, key)) == |xs|
  {
    TallyIsSizes(xs, key);
    GroupsSpec(xs, key);
    FirstOfEachKeys(xs, key);
    KeysOfSizes(Groups(xs, key));
    TotalSizes(Groups(xs, key));
  }

  /** Summing over `xs + [x]` adds `w(x)`. */
  lemma SumOfAppend<T>(xs: seq<T>, x: T, w: T -> int)
    ensures SumOf(xs + [x], w) == SumOf(xs, w) + w(x)
  {
    assert (xs + [x])[..|xs|] == xs;
  }

  /** The number of elements whose key is one of `ks`, key by key. */
  function CountsFor<T, K(==)>(xs: seq<T>, key: T -> K, ks: seq<K>): nat
    decreases |ks|
  {
    if ks == [] then 0 else |WithKey(xs, key, ks[0])| + CountsFor(xs, key, ks[1..])
  }

  lemma {:induction false} CountsForAppend<T, K>(xs: seq<T>, x: T, key: T -> K, ks: seq<K>)
    requires Distinct(ks)
    ensures CountsFor(xs + [x], key, ks) == CountsFor(xs, key, ks) + (if key(x) in ks then 1 else 0)
    decreases |ks|
  {
    if ks != [] {
      WithKeyAppend(xs, x, key, ks[0]);
      DistinctTail(ks);
      CountsForAppend(xs, x, key, ks[1..]);
      assert ks == [ks[0]] + ks[1..];
      if key(x) == ks[0] {
        assert forall j :: 0 <= j < |ks| - 1 ==> ks[1..][j] == ks[j + 1] && ks[j + 1] != ks[0];
      }
    }
  }

  /** With distinct keys each element is counted at most once. */
  lemma {:induction false} CountsForBound<T, K>(xs: seq<T>, key: T -> K, ks: seq<K>)
    requires Distinct(ks)
    ensures CountsFor(xs, key, ks) <= |xs|
    decreases |xs|
  {
    if xs == [] {
      CountsForEmpty(key, ks);
    } else {
      var init := xs[..|xs| - 1];
      CountsForBound(init, key, ks);
      CountsForAppend(init, xs[|xs| - 1], key, ks);
      assert init + [xs[|xs| - 1]] == xs;
    }
  }

  lemma {:induction false} CountsForEmpty<T, K>(key: T -> K, ks: seq<K>)
    ensures CountsFor([], key, ks) == 0
    decreases |ks|
  {
    if ks != [] {
      CountsForEmpty(key, ks[1..]);
    }
  }

  /** `counts[k] += 1` over a loop: the counter of a longer prefix. */
  method TallyLoop<T, K(==)>(xs: seq<T>, key: T -> K) returns (cs: seq<(K, nat)>)
    ensures cs == Tally(xs, key)
  {
    cs := [];
    for i := 0 to |xs|
      invariant cs == Tally(xs[..i], key)
    {
      assert xs[..i + 1][..i] == xs[..i];
      cs := Bump(cs, key(xs[i]));
    }
    assert xs[..|xs|] == xs;
  }
}
