/** `pathlib`'s split of one file name into stem and suffix. */
module PathNames {
  import opened Wrappers

  /** The position of the last `c` in `s` (`str.rfind`). */
  function LastIndex(s: string, c: char): (r: Option<nat>)
    ensures r.Some? ==> r.value < |s| && s[r.value] == c && forall k :: r.value < k < |s| ==> s[k] != c
    ensures r.None? ==> c !in s
  {
    if s == [] then None
    else if s[|s| - 1] == c then Some(|s| - 1)
    else LastIndex(s[..|s| - 1], c)
  }

  /** Where `Path.suffix` starts: the last dot, unless it is the first or the last character. */
  function SuffixStart(name: string): (i: nat)
    ensures i <= |name|
  {
    match LastIndex(name, '.')
    case Some(i) => if 0 < i < |name| - 1 then i else |name|
    case None => |name|
  }

  /** `Path.suffix`. */
  function Suffix(name: string): string
  {
    name[SuffixStart(name)..]
  }

  /** `Path.stem`. */
  function Stem(name: string): string
  {
    name[..SuffixStart(name)]
  }

  /** A suffix is empty or a dot followed by at least one character that is no dot. */
  lemma SuffixShape(name: string)
    ensures Stem(name) + Suffix(name) == name
    ensures Suffix(name) == [] || (|Suffix(name)| >= 2 && Suffix(name)[0] == '.' && '.' !in Suffix(name)[1..])
    ensures Suffix(name) != [] ==> Stem(name) != []
  {
    var i := SuffixStart(name);
    if i < |name| {
      var s := Suffix(name);
      assert forall k :: 1 <= k < |s| ==> s[k] == name[i + k];
    }
  }
}
