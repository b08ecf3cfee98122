/**
 * Keyed views of a sequence, as Python builds them with a `seen` set or a
 * `defaultdict(list)`: the first element of each key in input order, and
 * the groups of elements sharing a key, ordered by first appearance (the
 * insertion order of a dict). Both are defined element by element from
 * the front of the input, the way the loops that compute them proceed.
 */
module Grouping {

  /** The keys of `xs`, in order. */
  function Keys<T, K>(xs: seq<T>, key: T -> K): (r: seq<K>)
    ensures |r| == |xs|
    ensures forall j :: 0 <= j < |xs| ==> r[j] == key(xs[j])
  {
    seq(|xs|, j requires 0 <= j < |xs| => key(xs[j]))
  }

  predicate Distinct<K(==)>(ks: seq<K>)
  {
    forall i, j :: 0 <= i < j < |ks| ==> ks[i] != ks[j]
  }

  /** The first element of each key, in input order (`unique_urls`). */
  function FirstOfEach<T, K(==)>(xs: seq<T>, key: T -> K): seq<T>
    decreases |xs|
  {
    if xs == [] then []
    else
      var prev := FirstOfEach(xs[..|xs| - 1], key);
      var x := xs[|xs| - 1];
      if key(x) in Keys(prev, key) then prev else prev + [x]
  }

  /** The elements of `xs` whose key is `k`, in order. */
  function WithKey<T, K(==)>(xs: seq<T>, key: T -> K, k: K): seq<T>
    decreases |xs|
  {
    if xs == [] then []
    else WithKey(xs[..|xs| - 1], key, k) + (if key(xs[|xs| - 1]) == k then [xs[|xs| - 1]] else [])
  }

  /** Appends `x` to the group of `k`, opening a new group at the end when `k` has none. */
  function AddToGroup<T, K(==)>(gs: seq<(K, seq<T>)>, k: K, x: T): seq<(K, seq<T>)>
    decreases |gs|
  {
    if gs == [] then [(k, [x])]
    else if gs[0].0 == k then [(k, gs[0].1 + [x])] + gs[1..]
    else [gs[0]] + AddToGroup(gs[1..], k, x)
  }

  /** `defaultdict(list)` filled in input order: one group per key, keys in order of first appearance. */
  function Groups<T, K(==)>(xs: seq<T>, key: T -> K): seq<(K, seq<T>)>
    decreases |xs|
  {
    if xs == [] then []
    else AddToGroup(Groups(xs[..|xs| - 1], key), key(xs[|xs| - 1]), xs[|xs| - 1])
  }

  function GroupKeys<T, K>(gs: seq<(K, seq<T>)>): (r: seq<K>)
    ensures |r| == |gs|
    ensures forall j :: 0 <= j < |gs| ==> r[j] == gs[j].0
    decreases |gs|
  {
    if gs == [] then [] else [gs[0].0] + GroupKeys(gs[1..])
  }

  /** The total number of elements over all groups. */
  function TotalSize<T, K>(gs: seq<(K, seq<T>)>): nat
    decreases |gs|
  {
    if gs == [] then 0 else |gs[0].1| + TotalSize(gs[1..])
  }

  /** Σ (|group| - 1): the elements beyond the first of each group. */
  function Surplus<T, K>(gs: seq<(K, seq<T>)>): int
    decreases |gs|
  {
    if gs == [] then 0 else |gs[0].1| - 1 + Surplus(gs[1..])
  }

  /** The groups with more than one element, in order. */
  function Repeated<T, K>(gs: seq<(K, seq<T>)>): (r: seq<(K, seq<T>)>)
    ensures forall j :: 0 <= j < |r| ==> |r[j].1| > 1 && r[j] in gs
    ensures forall j :: 0 <= j < |gs| && |gs[j].1| > 1 ==> gs[j] in r
    ensures |r| <= |gs|
    decreases |gs|
  {
    if gs == [] then []
    else if |gs[0].1| > 1 then [gs[0]] + Repeated(gs[1..])
    else Repeated(gs[1..])
  }

  lemma KeysAppend<T, K>(xs: seq<T>, x: T, key: T -> K)
    ensures Keys(xs + [x], key) == Keys(xs, key) + [key(x)]
  {
  }

  lemma {:induction false} FirstOfEachKeys<T, K>(xs: seq<T>, key: T -> K)
    ensures Distinct(Keys(FirstOfEach(xs, key), key))
    ensures forall k :: k in Keys(xs, key) ==> k in Keys(FirstOfEach(xs, key), key)
    ensures forall k :: k in Keys(FirstOfEach(xs, key), key) ==> k in Keys(xs, key)
    decreases |xs|
  {
    if xs != [] {
      var init := xs[..|xs| - 1];
      var x := xs[|xs| - 1];
      FirstOfEachKeys(init, key);
      var prev := FirstOfEach(init, key);
      KeysAppend(prev, x, key);
      assert xs == init + [x];
      KeysAppend(init, x, key);
    }
  }

  /**
   * The result is a subsequence of the input, and each element is the
   * first one of its key: `pos` gives the strictly increasing positions.
   */
  lemma {:induction false} FirstOfEachPositions<T, K>(xs: seq<T>, key: T -> K) returns (pos: seq<nat>)
    ensures |pos| == |FirstOfEach(xs, key)|
    ensures forall j :: 0 <= j < |pos| ==> pos[j] < |xs| && FirstOfEach(xs, key)[j] == xs[pos[j]]
    ensures forall i, j :: 0 <= i < j < |pos| ==> pos[i] < pos[j]
    ensures forall j, q :: 0 <= j < |pos| && 0 <= q < pos[j] ==> key(xs[q]) != key(xs[pos[j]])
    decreases |xs|
  {
    if xs == [] {
      pos := [];
    } else {
      var init := xs[..|xs| - 1];
      var x := xs[|xs| - 1];
      var prev := FirstOfEach(init, key);
      pos := FirstOfEachPositions(init, key);
      PositionsKeep(xs, key, prev, pos);
      if key(x) !in Keys(prev, key) {
        FirstOfEachKeys(init, key);
        PositionsAdd(xs, key, prev, pos);
        pos := pos + [|xs| - 1];
      }
    }
  }

  /** `pos` gives strictly increasing positions in `xs` of the elements of `r`, each the first of its key. */
  ghost predicate FirstPositions<T, K>(xs: seq<T>, key: T -> K, r: seq<T>, pos: seq<nat>)
  {
    && |pos| == |r|
    && (forall j :: 0 <= j < |pos| ==> pos[j] < |xs| && r[j] == xs[pos[j]])
    && (forall i, j :: 0 <= i < j < |pos| ==> pos[i] < pos[j])
    && (forall j, q :: 0 <= j < |pos| && 0 <= q < pos[j] ==> key(xs[q]) != key(xs[pos[j]]))
  }

  lemma PositionsKeep<T, K>(xs: seq<T>, key: T -> K, r: seq<T>, pos: seq<nat>)
    requires xs != [] && FirstPositions(xs[..|xs| - 1], key, r, pos)
    ensures FirstPositions(xs, key, r, pos)
  {
    assert forall q :: 0 <= q < |xs| - 1 ==> xs[q] == xs[..|xs| - 1][q];
  }

  lemma PositionsAdd<T, K>(xs: seq<T>, key: T -> K, r: seq<T>, pos: seq<nat>)
    requires xs != [] && FirstPositions(xs, key, r, pos)
    requires forall j :: 0 <= j < |pos| ==> pos[j] < |xs| - 1
    requires key(xs[|xs| - 1]) !in Keys(xs[..|xs| - 1], key)
    ensures FirstPositions(xs, key, r + [xs[|xs| - 1]], pos + [|xs| - 1])
  {
    var init := xs[..|xs| - 1];
    forall q | 0 <= q < |init|
      ensures key(xs[q]) != key(xs[|xs| - 1])
    {
      assert key(xs[q]) == Keys(init, key)[q];
    }
  }

  lemma {:induction false} WithKeyAppend<T, K>(xs: seq<T>, x: T, key: T -> K, k: K)
    ensures WithKey(xs + [x], key, k) == WithKey(xs, key, k) + (if key(x) == k then [x] else [])
  {
    assert (xs + [x])[..|xs|] == xs;
  }

  lemma {:induction false} WithKeyAbsent<T, K>(xs: seq<T>, key: T -> K, k: K)
    requires k !in Keys(xs, key)
    ensures WithKey(xs, key, k) == []
    decreases |xs|
  {
    if xs != [] {
      var init := xs[..|xs| - 1];
      assert Keys(xs, key) == Keys(init, key) + [key(xs[|xs| - 1])];
      WithKeyAbsent(init, key, k);
    }
  }

  /** The keys after `AddToGroup`: unchanged if `k` already has a group, else `k` is appended. */
  lemma AddToGroupKeys<T, K>(gs: seq<(K, seq<T>)>, k: K, x: T)
    requires Distinct(GroupKeys(gs))
    ensures k in GroupKeys(gs) ==> GroupKeys(AddToGroup(gs, k, x)) == GroupKeys(gs)
    ensures k !in GroupKeys(gs) ==> GroupKeys(AddToGroup(gs, k, x)) == GroupKeys(gs) + [k]
    ensures Distinct(GroupKeys(AddToGroup(gs, k, x)))
  {
    AddToGroupKeySeq(gs, k, x);
    if k !in GroupKeys(gs) {
      DistinctAppend(GroupKeys(gs), k);
    }
  }

  lemma {:induction false} AddToGroupKeySeq<T, K>(gs: seq<(K, seq<T>)>, k: K, x: T)
    ensures k in GroupKeys(gs) ==> GroupKeys(AddToGroup(gs, k, x)) == GroupKeys(gs)
    ensures k !in GroupKeys(gs) ==> GroupKeys(AddToGroup(gs, k, x)) == GroupKeys(gs) + [k]
    decreases |gs|
  {
    if gs != [] {
      assert GroupKeys(gs) == [gs[0].0] + GroupKeys(gs[1..]);
      var r := AddToGroup(gs, k, x);
      if gs[0].0 != k {
        AddToGroupKeySeq(gs[1..], k, x);
        assert GroupKeys(r) == [gs[0].0] + GroupKeys(AddToGroup(gs[1..], k, x));
      } else {
        assert GroupKeys(r) == GroupKeys(gs);
      }
    }
  }

  lemma DistinctAppend<K>(ks: seq<K>, k: K)
    requires Distinct(ks) && k !in ks
    ensures Distinct(ks + [k])
  {
    var r := ks + [k];
    forall i, j | 0 <= i < j < |r|
      ensures r[i] != r[j]
    {
      if j == |ks| {
        assert r[i] == ks[i];
      }
    }
  }

  /** `AddToGroup` appends `x` to the group of `k` and changes no other group. */
  lemma {:induction false} AddToGroupContents<T, K>(gs: seq<(K, seq<T>)>, k: K, x: T)
    requires Distinct(GroupKeys(gs))
    ensures |AddToGroup(gs, k, x)| >= |gs|
    ensures forall j :: 0 <= j < |gs| ==>
      AddToGroup(gs, k, x)[j] == (gs[j].0, if gs[j].0 == k then gs[j].1 + [x] else gs[j].1)
    ensures k !in GroupKeys(gs) ==> |AddToGroup(gs, k, x)| == |gs| + 1 && AddToGroup(gs, k, x)[|gs|] == (k, [x])
    decreases |gs|
  {
    if gs != [] && gs[0].0 != k {
      DistinctTail(GroupKeys(gs));
      assert GroupKeys(gs)[1..] == GroupKeys(gs[1..]);
      AddToGroupContents(gs[1..], k, x);
      AddedPast(gs, k, x);
    } else if gs != [] {
      AddedHere(gs, k, x);
    }
  }

  /** `r` is `gs` with `x` added to the group of `k`, a new last group when `k` has none. */
  ghost predicate AddedTo<T, K>(gs: seq<(K, seq<T>)>, k: K, x: T, r: seq<(K, seq<T>)>)
  {
    && |r| >= |gs|
    && (forall j :: 0 <= j < |gs| ==> r[j] == (gs[j].0, if gs[j].0 == k then gs[j].1 + [x] else gs[j].1))
    && (k !in GroupKeys(gs) ==> |r| == |gs| + 1 && r[|gs|] == (k, [x]))
  }

  lemma AddedPast<T, K>(gs: seq<(K, seq<T>)>, k: K, x: T)
    requires gs != [] && gs[0].0 != k
    requires AddedTo(gs[1..], k, x, AddToGroup(gs[1..], k, x))
    ensures AddedTo(gs, k, x, AddToGroup(gs, k, x))
  {
    var r := AddToGroup(gs, k, x);
    var t := AddToGroup(gs[1..], k, x);
    assert r == [gs[0]] + t;
    assert GroupKeys(gs) == [gs[0].0] + GroupKeys(gs[1..]);
    forall j | 1 <= j < |gs|
      ensures r[j] == (gs[j].0, if gs[j].0 == k then gs[j].1 + [x] else gs[j].1)
    {
      assert r[j] == t[j - 1];
      assert gs[j] == gs[1..][j - 1];
    }
    if k !in GroupKeys(gs) {
      assert r[|gs|] == t[|gs| - 1];
    }
  }

  lemma AddedHere<T, K>(gs: seq<(K, seq<T>)>, k: K, x: T)
    requires gs != [] && gs[0].0 == k && Distinct(GroupKeys(gs))
    ensures AddedTo(gs, k, x, AddToGroup(gs, k, x))
  {
    forall j | 1 <= j < |gs|
      ensures gs[j].0 != k
    {
      assert GroupKeys(gs)[j] != GroupKeys(gs)[0];
    }
  }

  lemma DistinctTail<K>(ks: seq<K>)
    requires ks != [] && Distinct(ks)
    ensures Distinct(ks[1..])
  {
    forall i, j | 0 <= i < j < |ks| - 1
      ensures ks[1..][i] != ks[1..][j]
    {
      assert ks[1..][i] == ks[i + 1] && ks[1..][j] == ks[j + 1];
    }
  }

  lemma {:induction false} AddToGroupSize<T, K>(gs: seq<(K, seq<T>)>, k: K, x: T)
    ensures TotalSize(AddToGroup(gs, k, x)) == TotalSize(gs) + 1
    decreases |gs|
  {
    if gs != [] && gs[0].0 != k {
      AddToGroupSize(gs[1..], k, x);
    } else if gs != [] {
      assert AddToGroup(gs, k, x)[1..] == gs[1..];
    }
  }

  /**
   * The groups' keys are the distinct keys in order of first appearance,
   * each group holds exactly the elements of its key in input order, and
   * together the groups hold every element once.
   */
  lemma {:induction false} GroupsSpec<T, K>(xs: seq<T>, key: T -> K)
    ensures GroupKeys(Groups(xs, key)) == Keys(FirstOfEach(xs, key), key)
    ensures forall j :: 0 <= j < |Groups(xs, key)| ==>
      Groups(xs, key)[j].1 == WithKey(xs, key, Groups(xs, key)[j].0) && Groups(xs, key)[j].1 != []
    ensures TotalSize(Groups(xs, key)) == |xs|
    decreases |xs|
  {
    if xs != [] {
      var init := xs[..|xs| - 1];
      var x := xs[|xs| - 1];
      assert xs == init + [x];
      GroupsSpec(init, key);
      FirstOfEachKeys(init, key);
      var gs := Groups(init, key);
      AddToGroupKeys(gs, key(x), x);
      AddToGroupContents(gs, key(x), x);
      AddToGroupSize(gs, key(x), x);
      KeysAppend(init, x, key);
      var r := Groups(xs, key);
      forall j | 0 <= j < |r|
        ensures r[j].1 == WithKey(xs, key, r[j].0) && r[j].1 != []
      {
        WithKeyAppend(init, x, key, r[j].0);
        if j == |gs| {
          assert key(x) !in GroupKeys(gs);
          assert key(x) !in Keys(init, key);
          WithKeyAbsent(init, key, key(x));
        }
      }
      KeysAppend(FirstOfEach(init, key), x, key);
    }
  }

  lemma {:induction false} SurplusIsSizeMinusCount<T, K>(gs: seq<(K, seq<T>)>)
    ensures Surplus(gs) == TotalSize(gs) - |gs|
    decreases |gs|
  {
    if gs != [] {
      SurplusIsSizeMinusCount(gs[1..]);
    }
  }

  lemma {:induction false} SurplusOfRepeated<T, K>(gs: seq<(K, seq<T>)>)
    requires forall j :: 0 <= j < |gs| ==> gs[j].1 != []
    ensures Surplus(Repeated(gs)) == Surplus(gs)
    decreases |gs|
  {
    if gs != [] {
      SurplusOfRepeated(gs[1..]);
    }
  }

  /**
   * Counting the elements beyond the first of every repeated group gives
   * the number of elements minus the number of distinct keys.
   */
  lemma RepeatedSurplus<T, K>(xs: seq<T>, key: T -> K)
    ensures Surplus(Repeated(Groups(xs, key))) == |xs| - |FirstOfEach(xs, key)|
  {
    GroupsSpec(xs, key);
    SurplusOfRepeated(Groups(xs, key));
    SurplusIsSizeMinusCount(Groups(xs, key));
  }

  /** Each repeated group holds every element of its key, and more than one. */
  lemma RepeatedGroups<T, K>(xs: seq<T>, key: T -> K)
    ensures forall j :: 0 <= j < |Repeated(Groups(xs, key))| ==>
      |Repeated(Groups(xs, key))[j].1| > 1
      && Repeated(Groups(xs, key))[j].1 == WithKey(xs, key, Repeated(Groups(xs, key))[j].0)
  {
    var gs := Groups(xs, key);
    var r := Repeated(gs);
    GroupsSpec(xs, key);
    forall j | 0 <= j < |r|
      ensures |r[j].1| > 1 && r[j].1 == WithKey(xs, key, r[j].0)
    {
      assert r[j] in gs;
      var i :| 0 <= i < |gs| && gs[i] == r[j];
    }
  }

  /** The `seen`-set loop: keeps each element whose key has not been seen before. */
  method FirstOfEachLoop<T, K(==)>(xs: seq<T>, key: T -> K) returns (r: seq<T>)
    ensures r == FirstOfEach(xs, key)
  {
    var seen: set<K> := {};
    r := [];
    for i := 0 to |xs|
      invariant r == FirstOfEach(xs[..i], key)
      invariant seen == set k | k in Keys(r, key)
    {
      assert xs[..i + 1][..i] == xs[..i] && xs[..i + 1][i] == xs[i];
      var id := key(xs[i]);
      assert FirstOfEach(xs[..i + 1], key) == if id in Keys(r, key) then r else r + [xs[i]];
      if id !in seen {
        KeysAppend(r, xs[i], key);
        assert (set k | k in Keys(r + [xs[i]], key)) == seen + {id};
        seen := seen + {id};
        r := r + [xs[i]];
      }
    }
    assert xs[..|xs|] == xs;
  }

  /** The `defaultdict(list)` loop: appends each element to the group of its key. */
  method GroupsLoop<T, K(==)>(xs: seq<T>, key: T -> K) returns (gs: seq<(K, seq<T>)>)
    ensures gs == Groups(xs, key)
  {
    gs := [];
    for i := 0 to |xs|
      invariant gs == Groups(xs[..i], key)
    {
      assert xs[..i + 1][..i] == xs[..i];
      gs := AddToGroup(gs, key(xs[i]), xs[i]);
    }
    assert xs[..|xs|] == xs;
  }
}
