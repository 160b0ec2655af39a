/**
 * Day 1, sonar sweep: a list of depth readings. The first part counts readings deeper
 * than the one before; the second compares sums of three-reading windows, which comes
 * to comparing readings three apart.
 */
module Day01 {
  import opened Util

  /** `[line for line in lines if line != '']`, in order. */
  function NonEmpty(lines: seq<string>): (r: seq<string>)
    ensures |r| <= |lines|
    ensures forall k :: 0 <= k < |r| ==> r[k] != [] && r[k] in lines
  {
    if |lines| == 0 then []
    else
      var init := NonEmpty(lines[..|lines| - 1]);
      var last := lines[|lines| - 1];
      if last != [] then init + [last] else init
  }

  /** Every non-empty line survives the filter. */
  lemma {:induction false} NonEmptyKeeps(lines: seq<string>, k: nat)
    requires k < |lines| && lines[k] != []
    ensures lines[k] in NonEmpty(lines)
  {
    var init := lines[..|lines| - 1];
    if k < |lines| - 1 {
      NonEmptyKeeps(init, k);
    }
  }

  /** The depths: the non-empty lines as integers, or the `int` error of the first that is not one. */
  function Depths(lines: seq<string>): Result<seq<int>>
  {
    ParseInts(NonEmpty(lines))
  }

  /** Position i has a reading `gap` further on, and that reading is larger. */
  predicate RisesAt(d: seq<int>, gap: nat, i: nat)
  {
    i + gap < |d| && d[i] < d[i + gap]
  }

  /** How many of the first n positions i have `d[i] < d[i + gap]`. */
  function Rises(d: seq<int>, gap: nat, n: nat): (r: nat)
    requires n + gap <= |d|
    ensures r <= n
  {
    if n == 0 then 0 else Rises(d, gap, n - 1) + if d[n - 1] < d[n - 1 + gap] then 1 else 0
  }

  /** The rises of `d` over every position that has a reading `gap` further on. */
  function RiseCount(d: seq<int>, gap: nat): nat
  {
    if |d| <= gap then 0 else Rises(d, gap, |d| - gap)
  }

  /** The count is the number of positions i whose reading `gap` further on is larger. */
  lemma {:induction false} RisesCounted(d: seq<int>, gap: nat, n: nat)
    requires n + gap <= |d|
    ensures Rises(d, gap, n) == |set i | 0 <= i < n && RisesAt(d, gap, i)|
  {
    if n > 0 {
      RisesCounted(d, gap, n - 1);
      var before := set i | 0 <= i < n - 1 && RisesAt(d, gap, i);
      var after := set i | 0 <= i < n && RisesAt(d, gap, i);
      var last := if RisesAt(d, gap, n - 1) then {n - 1} else {};
      forall i
        ensures i in after <==> i in before + last
      {
      }
      assert after == before + last;
      assert n - 1 !in before;
    }
  }

  /** Two three-reading windows one apart share two readings, so the later one is larger exactly when its new reading beats the one the earlier window had alone. */
  lemma WindowRise(d: seq<int>, i: nat)
    requires i + 4 <= |d|
    ensures Sum(d[i..i + 3]) < Sum(d[i + 1..i + 4]) <==> d[i] < d[i + 3]
  {
    WindowSum(d, i);
    WindowSum(d, i + 1);
  }

  lemma WindowSum(d: seq<int>, i: nat)
    requires i + 3 <= |d|
    ensures Sum(d[i..i + 3]) == d[i] + d[i + 1] + d[i + 2]
  {
    var w := d[i..i + 3];
    assert w[..2][..1] == w[..1] && w[..1][..0] == [];
    assert Sum(w[..1]) == w[0];
    assert Sum(w[..2]) == w[0] + w[1];
  }

  /** The loop of `part_a` over the parsed depths. */
  method CountRises(depths: seq<int>) returns (count: nat)
    ensures count == RiseCount(depths, 1)
  {
    count := 0;
    if |depths| <= 1 {
      return;
    }
    for i := 0 to |depths| - 1
      invariant count == Rises(depths, 1, i)
    {
      if depths[i] < depths[i + 1] {
        count := count + 1;
      }
    }
  }

  /** The loop of `part_b`: window sums compared as the code writes them. */
  method CountWindowRises(depths: seq<int>) returns (count: nat)
    ensures count == RiseCount(depths, 3)
  {
    count := 0;
    if |depths| <= 3 {
      return;
    }
    for i := 0 to |depths| - 3
      invariant count == Rises(depths, 3, i)
    {
      WindowRise(depths, i);
      if Sum(depths[i..i + 3]) < Sum(depths[i + 1..i + 4]) {
        count := count + 1;
      }
    }
  }

  /** `part_a`: readings deeper than the one before. */
  method PartA(lines: seq<string>) returns (r: Result<nat>)
    ensures Depths(lines).Err? ==> r == Err(Depths(lines).msg)
    ensures Depths(lines).Ok? ==> r == Ok(RiseCount(Depths(lines).value, 1))
  {
    var depths := Depths(lines);
    if depths.Err? {
      return Err(depths.msg);
    }
    var count := CountRises(depths.value);
    r := Ok(count);
  }

  /** `part_b`: three-reading windows larger than the one before. */
  method PartB(lines: seq<string>) returns (r: Result<nat>)
    ensures Depths(lines).Err? ==> r == Err(Depths(lines).msg)
    ensures Depths(lines).Ok? ==> r == Ok(RiseCount(Depths(lines).value, 3))
  {
    var depths := Depths(lines);
    if depths.Err? {
      return Err(depths.msg);
    }
    var count := CountWindowRises(depths.value);
    r := Ok(count);
  }
}
