/**
 * Day 7, crab submarines: every crab must move to one common position. Moving one step
 * costs 1 in the first part; in the second the n-th step costs n, so a distance d costs
 * the triangular number d(d+1)/2. The answer is the cheapest total over the positions
 * 0 up to the largest crab position. Positions arrive already parsed.
 */
module Day07 {
  import opened Util

  // ---------------------------------------------------------------------------
  // Per-crab reference sums
  // ---------------------------------------------------------------------------

  /** The number of crabs at position `p`. */
  function Occ(crabs: seq<nat>, p: int): nat
  {
    if |crabs| == 0 then 0
    else Occ(crabs[..|crabs| - 1], p) + if crabs[|crabs| - 1] == p then 1 else 0
  }

  /** The number of crabs strictly left of `pos`. */
  function Below(crabs: seq<nat>, pos: int): nat
  {
    if |crabs| == 0 then 0
    else Below(crabs[..|crabs| - 1], pos) + if crabs[|crabs| - 1] < pos then 1 else 0
  }

  /** The number of crabs strictly right of `pos`. */
  function Above(crabs: seq<nat>, pos: int): nat
  {
    if |crabs| == 0 then 0
    else Above(crabs[..|crabs| - 1], pos) + if crabs[|crabs| - 1] > pos then 1 else 0
  }

  /** The cost of bringing every crab left of `pos` to `pos`. */
  function LeftCost(crabs: seq<nat>, pos: int): int
  {
    if |crabs| == 0 then 0
    else
      var c := crabs[|crabs| - 1];
      LeftCost(crabs[..|crabs| - 1], pos) + if c < pos then pos - c else 0
  }

  /** The cost of bringing every crab right of `pos` to `pos`. */
  function RightCost(crabs: seq<nat>, pos: int): int
  {
    if |crabs| == 0 then 0
    else
      var c := crabs[|crabs| - 1];
      RightCost(crabs[..|crabs| - 1], pos) + if c > pos then c - pos else 0
  }

  /** The first part's cost of gathering all crabs at `pos`: the sum of their distances. */
  function Distance(crabs: seq<nat>, pos: int): nat
  {
    if |crabs| == 0 then 0
    else Distance(crabs[..|crabs| - 1], pos) + Abs(crabs[|crabs| - 1] - pos)
  }

  /** The cost of moving `d` steps when the n-th step costs n. */
  function Tri(d: nat): nat
  {
    if d == 0 then 0 else Tri(d - 1) + d
  }

  /** The second part's cost of gathering at `pos` the crabs left of `bound`. */
  function FuelBelow(crabs: seq<nat>, bound: int, pos: int): nat
  {
    if |crabs| == 0 then 0
    else
      var c := crabs[|crabs| - 1];
      FuelBelow(crabs[..|crabs| - 1], bound, pos) + if c < bound then Tri(Abs(c - pos)) else 0
  }

  /** The second part's cost of gathering all crabs at `pos`. */
  function Fuel(crabs: seq<nat>, pos: int): nat
  {
    if |crabs| == 0 then 0
    else Fuel(crabs[..|crabs| - 1], pos) + Tri(Abs(crabs[|crabs| - 1] - pos))
  }

  predicate AllAtMost(crabs: seq<nat>, m: int)
  {
    forall k :: 0 <= k < |crabs| ==> crabs[k] <= m
  }

  // ---------------------------------------------------------------------------
  // Properties of the reference sums
  // ---------------------------------------------------------------------------

  /** The triangular step cost has the closed form d(d+1)/2. */
  lemma {:induction false} TriClosed(d: nat)
    ensures 2 * Tri(d) == d * (d + 1)
  {
    if d > 0 {
      TriClosed(d - 1);
    }
  }

  /** Moving the boundary one position right adds the crabs at the old boundary to the left count, and one step for each crab now left. */
  lemma {:induction false} LeftStep(crabs: seq<nat>, pos: int)
    ensures Below(crabs, pos + 1) == Below(crabs, pos) + Occ(crabs, pos)
    ensures LeftCost(crabs, pos + 1) == LeftCost(crabs, pos) + Below(crabs, pos + 1)
  {
    if |crabs| > 0 {
      LeftStep(crabs[..|crabs| - 1], pos);
    }
  }

  /** Moving the boundary one position left adds the crabs at the old boundary to the right count, and one step for each crab now right. */
  lemma {:induction false} RightStep(crabs: seq<nat>, pos: int)
    ensures Above(crabs, pos - 1) == Above(crabs, pos) + Occ(crabs, pos)
    ensures RightCost(crabs, pos - 1) == RightCost(crabs, pos) + Above(crabs, pos - 1)
  {
    if |crabs| > 0 {
      RightStep(crabs[..|crabs| - 1], pos);
    }
  }

  /** No crab is left of position 0. */
  lemma {:induction false} NothingLeft(crabs: seq<nat>)
    ensures Below(crabs, 0) == 0 && LeftCost(crabs, 0) == 0
  {
    if |crabs| > 0 {
      NothingLeft(crabs[..|crabs| - 1]);
    }
  }

  /** No crab is right of the largest position. */
  lemma {:induction false} NothingRight(crabs: seq<nat>, m: int)
    requires AllAtMost(crabs, m)
    ensures Above(crabs, m) == 0 && RightCost(crabs, m) == 0
  {
    if |crabs| > 0 {
      NothingRight(crabs[..|crabs| - 1], m);
    }
  }

  /** The left and right costs together are the total distance. */
  lemma {:induction false} CostSplit(crabs: seq<nat>, pos: int)
    ensures LeftCost(crabs, pos) + RightCost(crabs, pos) == Distance(crabs, pos)
  {
    if |crabs| > 0 {
      CostSplit(crabs[..|crabs| - 1], pos);
    }
  }

  /** The fuel for `count` crabs to move `d` steps. */
  function GroupFuel(count: nat, d: nat): nat
  {
    count * Tri(d)
  }

  /** One more step costs each crab of the group the step's number. */
  lemma GroupFuelStep(count: nat, d: nat)
    ensures GroupFuel(count, d + 1) == GroupFuel(count, d) + count * (d + 1)
  {
    assert Tri(d + 1) == Tri(d) + (d + 1);
  }

  /** One more crab in a group adds one crab's fuel. */
  lemma GroupFuelOneMore(count: nat, d: nat)
    ensures GroupFuel(count + 1, d) == GroupFuel(count, d) + Tri(d)
  {
  }

  /** Raising the bound past position `b` adds the cost of the crabs at `b`. */
  lemma {:induction false} FuelBelowStep(crabs: seq<nat>, b: int, pos: int)
    ensures FuelBelow(crabs, b + 1, pos) == FuelBelow(crabs, b, pos) + GroupFuel(Occ(crabs, b), Abs(pos - b))
  {
    if |crabs| > 0 {
      var init, c := crabs[..|crabs| - 1], crabs[|crabs| - 1];
      FuelBelowStep(init, b, pos);
      if c == b {
        assert Abs(c - pos) == Abs(pos - b);
        GroupFuelOneMore(Occ(init, b), Abs(pos - b));
      }
    }
  }

  /** Once the bound is past every crab, the partial cost is the whole cost; below 0 it is empty. */
  lemma {:induction false} FuelBelowEnds(crabs: seq<nat>, m: int, pos: int)
    requires AllAtMost(crabs, m)
    ensures FuelBelow(crabs, m + 1, pos) == Fuel(crabs, pos)
    ensures FuelBelow(crabs, 0, pos) == 0
  {
    if |crabs| > 0 {
      FuelBelowEnds(crabs[..|crabs| - 1], m, pos);
    }
  }

  /**
   * Only the positions 0 up to the largest crab are worth trying: moving the meeting
   * point further out never gets cheaper, in either part.
   */
  lemma {:induction false} OutsideIsDearer(crabs: seq<nat>, m: nat, pos: int)
    requires AllAtMost(crabs, m)
    ensures pos > m ==> Distance(crabs, pos) >= Distance(crabs, m) && Fuel(crabs, pos) >= Fuel(crabs, m)
    ensures pos < 0 ==> Distance(crabs, pos) >= Distance(crabs, 0) && Fuel(crabs, pos) >= Fuel(crabs, 0)
  {
    if |crabs| > 0 {
      OutsideIsDearer(crabs[..|crabs| - 1], m, pos);
      var c := crabs[|crabs| - 1];
      if pos > m {
        TriMonotone(m - c, pos - c);
      } else if pos < 0 {
        TriMonotone(c, c - pos);
      }
    }
  }

  lemma {:induction false} TriMonotone(d: nat, e: nat)
    requires d <= e
    ensures Tri(d) <= Tri(e)
    decreases e - d
  {
    if d < e {
      TriMonotone(d, e - 1);
    }
  }

  // ---------------------------------------------------------------------------
  // part_a
  // ---------------------------------------------------------------------------

  /** `crabs_at_positions`: how many crabs sit at each position 0..m. */
  method Histogram(crabs: seq<nat>, m: nat) returns (hist: seq<nat>)
    requires AllAtMost(crabs, m)
    ensures |hist| == m + 1
    ensures forall p :: 0 <= p <= m ==> hist[p] == Occ(crabs, p)
  {
    hist := seq(m + 1, _ => 0);
    for i := 0 to |crabs|
      invariant |hist| == m + 1
      invariant forall p :: 0 <= p <= m ==> hist[p] == Occ(crabs[..i], p)
    {
      assert crabs[..i + 1][..i] == crabs[..i];
      hist := hist[crabs[i] := hist[crabs[i]] + 1];
    }
    assert crabs[..|crabs|] == crabs;
  }

  /** `cost_left`: for each position, the cost of bringing the crabs left of it there. */
  method CostsLeft(crabs: seq<nat>, hist: seq<nat>) returns (costLeft: seq<int>)
    requires |hist| > 0 && forall p :: 0 <= p < |hist| ==> hist[p] == Occ(crabs, p)
    ensures |costLeft| == |hist|
    ensures forall p :: 0 <= p < |hist| ==> costLeft[p] == LeftCost(crabs, p)
  {
    costLeft := seq(|hist|, _ => 0);
    var numCrabsLeft := 0;
    NothingLeft(crabs);
    for pos := 0 to |hist|
      invariant |costLeft| == |hist|
      invariant numCrabsLeft == Below(crabs, if pos == 0 then 0 else pos - 1)
      invariant forall p :: 0 <= p < pos ==> costLeft[p] == LeftCost(crabs, p)
      invariant forall p :: pos <= p < |hist| ==> costLeft[p] == 0
    {
      if pos > 0 {
        LeftStep(crabs, pos - 1);
        costLeft := costLeft[pos := costLeft[pos] + costLeft[pos - 1]];
        numCrabsLeft := numCrabsLeft + hist[pos - 1];
        costLeft := costLeft[pos := costLeft[pos] + numCrabsLeft];
      }
    }
  }

  /** `cost_right`: for each position, the cost of bringing the crabs right of it there. */
  method CostsRight(crabs: seq<nat>, hist: seq<nat>) returns (costRight: seq<int>)
    requires |hist| > 0 && forall p :: 0 <= p < |hist| ==> hist[p] == Occ(crabs, p)
    requires AllAtMost(crabs, |hist| - 1)
    ensures |costRight| == |hist|
    ensures forall p :: 0 <= p < |hist| ==> costRight[p] == RightCost(crabs, p)
  {
    var top := |hist| - 1;
    costRight := seq(|hist|, _ => 0);
    var numCrabsRight := 0;
    NothingRight(crabs, top);
    var pos := top;
    while pos >= 0
      invariant -1 <= pos <= top && |costRight| == |hist|
      invariant numCrabsRight == Above(crabs, if pos == top then top else pos + 1)
      invariant forall p :: pos < p <= top ==> costRight[p] == RightCost(crabs, p)
      invariant forall p :: 0 <= p <= pos ==> costRight[p] == 0
    {
      if pos < top {
        RightStep(crabs, pos + 1);
        costRight := costRight[pos := costRight[pos] + costRight[pos + 1]];
        numCrabsRight := numCrabsRight + hist[pos + 1];
        costRight := costRight[pos := costRight[pos] + numCrabsRight];
      }
      pos := pos - 1;
    }
  }

  /** The largest crab position, which `sorted(...)[-1]` picks out; an empty list raises. */
  function MaxPosition(crabs: seq<nat>): (r: Result<nat>)
    ensures r.Ok? <==> |crabs| > 0
    ensures r.Ok? ==> r.value in crabs && AllAtMost(crabs, r.value)
  {
    if |crabs| == 0 then Err("IndexError: list index out of range")
    else
      var m := Max(crabs);
      assert forall k :: 0 <= k < |crabs| ==> crabs[k] <= m;
      Ok(m)
  }

  /** `r` is the least total distance over the meeting points 0..m, and is reached at one of them. */
  predicate LeastDistance(crabs: seq<nat>, m: nat, r: int)
  {
    (exists p :: 0 <= p <= m && r == Distance(crabs, p)) && forall p :: 0 <= p <= m ==> r <= Distance(crabs, p)
  }

  /** `r` is the least total fuel over the meeting points 0..m, and is reached at one of them. */
  predicate LeastFuel(crabs: seq<nat>, m: nat, r: int)
  {
    (exists p :: 0 <= p <= m && r == Fuel(crabs, p)) && forall p :: 0 <= p <= m ==> r <= Fuel(crabs, p)
  }

  /** `part_a`: the least total distance over the meeting points 0 up to the largest crab. */
  method PartA(crabs: seq<nat>) returns (r: Result<int>)
    ensures r.Err? <==> |crabs| == 0
    ensures r.Ok? ==> LeastDistance(crabs, MaxPosition(crabs).value, r.value)
  {
    var maxPos := MaxPosition(crabs);
    if maxPos.Err? {
      return Err(maxPos.msg);
    }
    var m := maxPos.value;
    var hist := Histogram(crabs, m);
    var costLeft := CostsLeft(crabs, hist);
    var costRight := CostsRight(crabs, hist);
    var cost := seq(m + 1, i requires 0 <= i <= m => costLeft[i] + costRight[i]);
    forall p | 0 <= p <= m
      ensures cost[p] == Distance(crabs, p)
    {
      CostSplit(crabs, p);
    }
    var best := Min(cost);
    assert cost[0] == Distance(crabs, 0);
    r := Ok(best);
  }

  /** The first part's answer is the least total distance over every integer meeting point. */
  lemma PartAOptimal(crabs: seq<nat>, r: int, pos: int)
    requires |crabs| > 0 && LeastDistance(crabs, MaxPosition(crabs).value, r)
    ensures r <= Distance(crabs, pos)
  {
    var m := MaxPosition(crabs).value;
    OutsideIsDearer(crabs, m, pos);
    assert r <= Distance(crabs, m) && r <= Distance(crabs, 0);
  }

  // ---------------------------------------------------------------------------
  // part_b
  // ---------------------------------------------------------------------------

  /** One group of `count` crabs at `pos`: every other position's cost grows by the group's fuel to get there. */
  method AddGroup(cost: seq<int>, pos: nat, count: nat) returns (cost': seq<int>)
    requires pos < |cost|
    ensures |cost'| == |cost|
    ensures forall q :: 0 <= q < |cost| ==> cost'[q] == cost[q] + GroupFuel(count, Abs(q - pos))
  {
    cost' := cost;
    var stepCost := 0;
    var p := pos;
    while p > 0
      invariant 0 <= p <= pos && |cost'| == |cost|
      invariant stepCost == GroupFuel(count, pos - p)
      invariant forall q :: 0 <= q < |cost| ==>
                  cost'[q] == cost[q] + if p <= q < pos then GroupFuel(count, pos - q) else 0
    {
      p := p - 1;
      GroupFuelStep(count, pos - p - 1);
      stepCost := stepCost + count * Abs(p - pos);
      cost' := cost'[p := cost'[p] + stepCost];
    }
    stepCost := 0;
    for p := pos + 1 to |cost|
      invariant stepCost == GroupFuel(count, p - 1 - pos) && |cost'| == |cost|
      invariant forall q :: 0 <= q < |cost| ==>
                  cost'[q] == cost[q] + if q < pos || pos < q < p then GroupFuel(count, Abs(q - pos)) else 0
    {
      GroupFuelStep(count, p - pos - 1);
      stepCost := stepCost + count * Abs(p - pos);
      cost' := cost'[p := cost'[p] + stepCost];
    }
  }

  /** The loop over the crab counter: each position holding crabs adds its group's fuel everywhere. */
  method FuelCosts(crabs: seq<nat>, hist: seq<nat>) returns (cost: seq<int>)
    requires |hist| > 0 && forall p :: 0 <= p < |hist| ==> hist[p] == Occ(crabs, p)
    requires AllAtMost(crabs, |hist| - 1)
    ensures |cost| == |hist|
    ensures forall p :: 0 <= p < |hist| ==> cost[p] == Fuel(crabs, p)
  {
    cost := seq(|hist|, _ => 0);
    forall q | 0 <= q < |hist|
      ensures FuelBelow(crabs, 0, q) == 0
    {
      FuelBelowEnds(crabs, |hist| - 1, q);
    }
    for pos := 0 to |hist|
      invariant |cost| == |hist|
      invariant forall q :: 0 <= q < |hist| ==> cost[q] == FuelBelow(crabs, pos, q)
    {
      forall q | 0 <= q < |hist|
        ensures FuelBelow(crabs, pos + 1, q) == FuelBelow(crabs, pos, q) + GroupFuel(hist[pos], Abs(q - pos))
      {
        FuelBelowStep(crabs, pos, q);
      }
      var count := hist[pos];
      if count > 0 {
        cost := AddGroup(cost, pos, count);
      }
    }
    forall q | 0 <= q < |hist|
      ensures cost[q] == Fuel(crabs, q)
    {
      FuelBelowEnds(crabs, |hist| - 1, q);
    }
  }

  /** `part_b`: the least total triangular fuel over the meeting points 0 up to the largest crab. */
  method PartB(crabs: seq<nat>) returns (r: Result<int>)
    ensures r.Err? <==> |crabs| == 0
    ensures r.Ok? ==> LeastFuel(crabs, MaxPosition(crabs).value, r.value)
  {
    var maxPos := MaxPosition(crabs);
    if maxPos.Err? {
      return Err(maxPos.msg);
    }
    var m := maxPos.value;
    var hist := Histogram(crabs, m);
    var cost := FuelCosts(crabs, hist);
    var best := Min(cost);
    assert cost[0] == Fuel(crabs, 0);
    r := Ok(best);
  }

  /** The second part's answer is the least total fuel over every integer meeting point. */
  lemma PartBOptimal(crabs: seq<nat>, r: int, pos: int)
    requires |crabs| > 0 && LeastFuel(crabs, MaxPosition(crabs).value, r)
    ensures r <= Fuel(crabs, pos)
  {
    var m := MaxPosition(crabs).value;
    OutsideIsDearer(crabs, m, pos);
    assert r <= Fuel(crabs, m) && r <= Fuel(crabs, 0);
  }
}
