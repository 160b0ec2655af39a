/**
 * Python's `sorted(xs)` / `xs.sort()` on integers, as an insertion sort on values:
 * the result is ascending and a permutation of the input.
 */
module Sorting {

  predicate Sorted(s: seq<int>)
  {
    forall i, j :: 0 <= i < j < |s| ==> s[i] <= s[j]
  }

  /** x placed before the first element that is not smaller than it. */
  function Insert(x: int, s: seq<int>): (r: seq<int>)
    requires Sorted(s)
    ensures Sorted(r) && multiset(r) == multiset(s) + multiset{x} && |r| == |s| + 1
  {
    if s == [] then [x]
    else if x <= s[0] then [x] + s
    else
      var t := Insert(x, s[1..]);
      assert s == [s[0]] + s[1..];
      HeadBelow(s, x, t);
      [s[0]] + t
  }

  /** Every element of a permutation of s[1..] + [x] is at least s[0], when s is sorted and x > s[0]. */
  lemma HeadBelow(s: seq<int>, x: int, t: seq<int>)
    requires Sorted(s) && s != [] && x > s[0]
    requires multiset(t) == multiset(s[1..]) + multiset{x}
    ensures forall k :: 0 <= k < |t| ==> s[0] <= t[k]
  {
    forall k | 0 <= k < |t|
      ensures s[0] <= t[k]
    {
      assert t[k] in multiset(t);
      if t[k] != x {
        assert t[k] in multiset(s[1..]);
        var m :| 0 <= m < |s[1..]| && s[1..][m] == t[k];
        assert s[m + 1] == t[k];
      }
    }
  }

  /** `sorted(xs)`. */
  function Sort(s: seq<int>): (r: seq<int>)
    ensures Sorted(r) && multiset(r) == multiset(s) && |r| == |s|
  {
    if s == [] then []
    else
      assert s == s[..|s| - 1] + [s[|s| - 1]];
      Insert(s[|s| - 1], Sort(s[..|s| - 1]))
  }
}
