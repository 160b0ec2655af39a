/**
 * Day 22, reactor reboot: "on"/"off" instructions switch every cube of a cuboid. The
 * number of cubes left on is found without visiting cubes: every new cuboid is compared
 * with every cuboid processed so far, and each overlap adds a correction cuboid of the
 * opposite sign, so that the signed volumes of the processed list add up to the cubes
 * that are on.
 */
module Day22 {
  import opened Util

  type Point = (int, int, int)

  /** An instruction cuboid, or a correction cuboid; bounds are inclusive. */
  datatype Cuboid = Cuboid(state: bool, xMin: int, xMax: int, yMin: int, yMax: int, zMin: int, zMax: int)

  predicate Contains(c: Cuboid, p: Point)
  {
    c.xMin <= p.0 <= c.xMax && c.yMin <= p.1 <= c.yMax && c.zMin <= p.2 <= c.zMax
  }

  /** Some cube lies inside the cuboid. */
  predicate NonEmpty(c: Cuboid)
  {
    c.xMin <= c.xMax && c.yMin <= c.yMax && c.zMin <= c.zMax
  }

  lemma NonEmptyWitness(c: Cuboid)
    ensures NonEmpty(c) <==> exists p :: Contains(c, p)
  {
    if NonEmpty(c) {
      assert Contains(c, (c.xMin, c.yMin, c.zMin));
    }
  }

  // ---------------------------------------------------------------------------
  // Cuboid
  // ---------------------------------------------------------------------------

  /** `is_within_50`: only the three lower bounds are compared. */
  predicate IsWithin50(c: Cuboid)
  {
    -50 <= c.xMin <= 50 && -50 <= c.yMin <= 50 && -50 <= c.zMin <= 50
  }

  /** Every cube of the cuboid lies in the initialization region -50..50 on each axis. */
  predicate Inside50(c: Cuboid)
  {
    -50 <= c.xMin && c.xMax <= 50 && -50 <= c.yMin && c.yMax <= 50 && -50 <= c.zMin && c.zMax <= 50
  }

  predicate InRegion(p: Point)
  {
    -50 <= p.0 <= 50 && -50 <= p.1 <= 50 && -50 <= p.2 <= 50
  }

  /**
   * The puzzle promises that a cuboid lies wholly inside the region or wholly outside it;
   * for such a cuboid, testing the lower bounds decides which.
   */
  lemma Within50Exact(c: Cuboid)
    requires NonEmpty(c)
    requires Inside50(c) || forall p :: Contains(c, p) ==> !InRegion(p)
    ensures IsWithin50(c) <==> Inside50(c)
  {
    if IsWithin50(c) && !Inside50(c) {
      assert Contains(c, (c.xMin, c.yMin, c.zMin)) && InRegion((c.xMin, c.yMin, c.zMin));
    }
  }

  /**
   * `self.get_intersection(earlier)`: the overlap of the two cuboids, carrying the state
   * that cancels `earlier` there, or `None` when they do not overlap.
   */
  function GetIntersection(self: Cuboid, earlier: Cuboid): (r: Option<Cuboid>)
    ensures r.Some? ==> NonEmpty(r.value) && r.value.state == !earlier.state
    ensures r.Some? ==> self.xMin <= r.value.xMin && earlier.xMin <= r.value.xMin &&
                        r.value.xMax <= self.xMax && r.value.xMax <= earlier.xMax
    ensures r.Some? ==> self.yMin <= r.value.yMin && earlier.yMin <= r.value.yMin &&
                        r.value.yMax <= self.yMax && r.value.yMax <= earlier.yMax
    ensures r.Some? ==> self.zMin <= r.value.zMin && earlier.zMin <= r.value.zMin &&
                        r.value.zMax <= self.zMax && r.value.zMax <= earlier.zMax
  {
    var xMin, xMax := Max2(self.xMin, earlier.xMin), Min2(self.xMax, earlier.xMax);
    var yMin, yMax := Max2(self.yMin, earlier.yMin), Min2(self.yMax, earlier.yMax);
    var zMin, zMax := Max2(self.zMin, earlier.zMin), Min2(self.zMax, earlier.zMax);
    if xMin > xMax || yMin > yMax || zMin > zMax then None
    else
      var state := if self.state == earlier.state then !self.state else self.state;
      Some(Cuboid(state, xMin, xMax, yMin, yMax, zMin, zMax))
  }

  /** The intersection holds exactly the cubes both cuboids hold; `None` means there are none. */
  lemma IntersectionPoints(self: Cuboid, earlier: Cuboid, p: Point)
    ensures Contains(self, p) && Contains(earlier, p) <==>
            GetIntersection(self, earlier).Some? && Contains(GetIntersection(self, earlier).value, p)
  {
  }

  /** `+1` for an "on" cuboid, `-1` for an "off" one. */
  function Sign(c: Cuboid): int
  {
    if c.state then 1 else -1
  }

  /** `volume()`: the number of cubes, negated when the cuboid is "off". */
  function Volume(c: Cuboid): (v: int)
    ensures NonEmpty(c) && c.state ==> v >= 1
    ensures NonEmpty(c) && !c.state ==> v <= -1
  {
    var dx, dy, dz := c.xMax - c.xMin + 1, c.yMax - c.yMin + 1, c.zMax - c.zMin + 1;
    var v := dx * dy * dz;
    assert NonEmpty(c) ==> v >= 1 by {
      if NonEmpty(c) {
        PositiveProduct(dx, dy, dz);
      }
    }
    if !c.state then -v else v
  }

  /** Three positive side lengths give a positive cube count. */
  lemma PositiveProduct(a: int, b: int, c: int)
    requires a >= 1 && b >= 1 && c >= 1
    ensures a * b * c >= 1
  {
    var ab := a * b;
    assert ab >= b;
    assert ab * c >= c;
  }

  /** The cube count of a cuboid, one axis at a time. */
  lemma VolumeIsSignedSize(c: Cuboid)
    requires NonEmpty(c)
    ensures Volume(c) == Sign(c) * (c.xMax - c.xMin + 1) * (c.yMax - c.yMin + 1) * (c.zMax - c.zMin + 1)
  {
  }

  // ---------------------------------------------------------------------------
  // The reference: which cubes are on
  // ---------------------------------------------------------------------------

  /** Whether the cube is on after the instructions in order: the last cuboid holding it decides. */
  predicate Lit(cs: seq<Cuboid>, p: Point)
  {
    if |cs| == 0 then false
    else if Contains(cs[|cs| - 1], p) then cs[|cs| - 1].state
    else Lit(cs[..|cs| - 1], p)
  }

  /** What a list of signed cuboids says about one cube: the signs of those holding it, added. */
  function Weight(cs: seq<Cuboid>, p: Point): int
  {
    if |cs| == 0 then 0
    else Weight(cs[..|cs| - 1], p) + (if Contains(cs[|cs| - 1], p) then Sign(cs[|cs| - 1]) else 0)
  }

  lemma {:induction false} WeightAppend(a: seq<Cuboid>, b: seq<Cuboid>, p: Point)
    ensures Weight(a + b, p) == Weight(a, p) + Weight(b, p)
    decreases |b|
  {
    if |b| > 0 {
      var n := |b|;
      assert (a + b)[..|a + b| - 1] == a + b[..n - 1];
      WeightAppend(a, b[..n - 1], p);
    } else {
      assert a + b == a;
    }
  }

  // ---------------------------------------------------------------------------
  // part_a
  // ---------------------------------------------------------------------------

  /** The instructions `part_a` keeps: all of them, or those `is_within_50` accepts. */
  function Select(instrs: seq<Cuboid>, just50: bool): (cs: seq<Cuboid>)
    ensures |cs| <= |instrs|
    ensures forall k :: 0 <= k < |cs| ==> cs[k] in instrs && (just50 ==> IsWithin50(cs[k]))
    ensures !just50 ==> cs == instrs
    ensures forall k :: 0 <= k < |instrs| && (!just50 || IsWithin50(instrs[k])) ==> instrs[k] in cs
  {
    if |instrs| == 0 then []
    else
      var init := Select(instrs[..|instrs| - 1], just50);
      var c := instrs[|instrs| - 1];
      if !just50 || IsWithin50(c) then init + [c] else init
  }

  /** The inner loop: one correction cuboid for every processed cuboid the new one overlaps. */
  function Corrections(c: Cuboid, processed: seq<Cuboid>): (r: seq<Cuboid>)
    ensures |r| <= |processed|
  {
    if |processed| == 0 then []
    else
      var init := Corrections(c, processed[..|processed| - 1]);
      match GetIntersection(c, processed[|processed| - 1])
      case None => init
      case Some(i) => init + [i]
  }

  /** Inside the new cuboid the corrections cancel what was there; outside it they add nothing. */
  lemma {:induction false} CorrectionsWeight(c: Cuboid, processed: seq<Cuboid>, p: Point)
    ensures Weight(Corrections(c, processed), p) == if Contains(c, p) then -Weight(processed, p) else 0
    decreases |processed|
  {
    if |processed| > 0 {
      var init, e := processed[..|processed| - 1], processed[|processed| - 1];
      CorrectionsWeight(c, init, p);
      IntersectionPoints(c, e, p);
      match GetIntersection(c, e)
      case None =>
      case Some(i) =>
        WeightAppend(Corrections(c, init), [i], p);
        assert [i][..0] == [];
    }
  }

  /** One pass of the outer loop: the new cuboid if it is "on", then its corrections. */
  function Step(processed: seq<Cuboid>, c: Cuboid): seq<Cuboid>
  {
    processed + (if c.state then [c] else []) + Corrections(c, processed)
  }

  /** The `processed` list after the outer loop has taken every cuboid. */
  function Process(cs: seq<Cuboid>): seq<Cuboid>
  {
    if |cs| == 0 then [] else Step(Process(cs[..|cs| - 1]), cs[|cs| - 1])
  }

  /** After one more pass, the cubes of the new cuboid weigh 1 if it is "on" and 0 if "off". */
  lemma StepWeight(processed: seq<Cuboid>, c: Cuboid, p: Point)
    ensures Weight(Step(processed, c), p) ==
            if Contains(c, p) then (if c.state then 1 else 0) else Weight(processed, p)
  {
    var own: seq<Cuboid> := if c.state then [c] else [];
    WeightAppend(processed + own, Corrections(c, processed), p);
    WeightAppend(processed, own, p);
    CorrectionsWeight(c, processed, p);
    if c.state {
      assert [c][..0] == [];
    }
  }

  /**
   * The invariant of the outer loop: in the processed list every cube weighs 1 if it is on
   * after the instructions so far and 0 if it is off.
   */
  lemma {:induction false} ProcessWeight(cs: seq<Cuboid>, p: Point)
    ensures Weight(Process(cs), p) == if Lit(cs, p) then 1 else 0
    decreases |cs|
  {
    if |cs| > 0 {
      ProcessWeight(cs[..|cs| - 1], p);
      StepWeight(Process(cs[..|cs| - 1]), cs[|cs| - 1], p);
    }
  }

  /** `functools.reduce(lambda a, b: a + b.volume(), processed, 0)`. */
  function SumVolumes(cs: seq<Cuboid>): int
  {
    if |cs| == 0 then 0 else SumVolumes(cs[..|cs| - 1]) + Volume(cs[|cs| - 1])
  }

  // ---------------------------------------------------------------------------
  // Counting cubes: sums over a box
  // ---------------------------------------------------------------------------

  /** `f(lo) + ... + f(hi)`, 0 when `hi < lo`. */
  function Sum1(f: int -> int, lo: int, hi: int): int
    decreases hi - lo
  {
    if hi < lo then 0 else Sum1(f, lo, hi - 1) + f(hi)
  }

  /** Sums add termwise. */
  lemma {:induction false} Sum1Add(f: int -> int, g: int -> int, h: int -> int, lo: int, hi: int)
    requires forall i :: lo <= i <= hi ==> f(i) == g(i) + h(i)
    ensures Sum1(f, lo, hi) == Sum1(g, lo, hi) + Sum1(h, lo, hi)
    decreases hi - lo
  {
    if hi >= lo {
      Sum1Add(f, g, h, lo, hi - 1);
    }
  }

  /** Zero terms sum to zero. */
  lemma {:induction false} Sum1Zero(f: int -> int, lo: int, hi: int)
    requires forall i :: lo <= i <= hi ==> f(i) == 0
    ensures Sum1(f, lo, hi) == 0
    decreases hi - lo
  {
    if hi >= lo {
      Sum1Zero(f, lo, hi - 1);
    }
  }

  /** The number of integers from a to m. */
  function Span(a: int, m: int): nat
  {
    if m < a then 0 else m - a + 1
  }

  /** Terms that are v on a..b and 0 elsewhere, from lo on, sum to v for each of a..b reached. */
  lemma {:induction false} Sum1Block(f: int -> int, v: int, a: int, b: int, lo: int, hi: int)
    requires lo <= a
    requires forall i :: lo <= i <= hi ==> f(i) == if a <= i <= b then v else 0
    ensures Sum1(f, lo, hi) == v * Span(a, if hi < b then hi else b)
    decreases hi - lo
  {
    if hi >= lo {
      Sum1Block(f, v, a, b, lo, hi - 1);
      var m := if hi - 1 < b then hi - 1 else b;
      if a <= hi <= b {
        assert Span(a, hi) == Span(a, m) + 1;
        assert v * Span(a, hi) == v * Span(a, m) + v;
      }
    }
  }

  /** Whether cube p lies in the box b; a box is a cuboid whose state is ignored. */
  predicate InBox(p: Point, b: Cuboid)
  {
    Contains(b, p)
  }

  /** The sum of f over the cubes of the box with the first two coordinates x and y. */
  function ZSum(f: Point -> int, x: int, y: int, b: Cuboid): int
  {
    Sum1(z => f((x, y, z)), b.zMin, b.zMax)
  }

  /** The sum of f over the cubes of the box with first coordinate x. */
  function YSum(f: Point -> int, x: int, b: Cuboid): int
  {
    Sum1(y => ZSum(f, x, y, b), b.yMin, b.yMax)
  }

  /** The sum of f over every cube of the box b. */
  function SumBox(f: Point -> int, b: Cuboid): int
  {
    Sum1(x => YSum(f, x, b), b.xMin, b.xMax)
  }

  /** Sums over a box add termwise. */
  lemma SumBoxAdd(f: Point -> int, g: Point -> int, h: Point -> int, b: Cuboid)
    requires forall p :: InBox(p, b) ==> f(p) == g(p) + h(p)
    ensures SumBox(f, b) == SumBox(g, b) + SumBox(h, b)
  {
    forall x, y | b.xMin <= x <= b.xMax && b.yMin <= y <= b.yMax
      ensures ZSum(f, x, y, b) == ZSum(g, x, y, b) + ZSum(h, x, y, b)
    {
      forall z | b.zMin <= z <= b.zMax
        ensures f((x, y, z)) == g((x, y, z)) + h((x, y, z))
      {
        assert InBox((x, y, z), b);
      }
      Sum1Add(z => f((x, y, z)), z => g((x, y, z)), z => h((x, y, z)), b.zMin, b.zMax);
    }
    forall x | b.xMin <= x <= b.xMax
      ensures YSum(f, x, b) == YSum(g, x, b) + YSum(h, x, b)
    {
      Sum1Add(y => ZSum(f, x, y, b), y => ZSum(g, x, y, b), y => ZSum(h, x, y, b), b.yMin, b.yMax);
    }
    Sum1Add(x => YSum(f, x, b), x => YSum(g, x, b), x => YSum(h, x, b), b.xMin, b.xMax);
  }

  /** Zero terms over a box sum to zero. */
  lemma SumBoxZero(f: Point -> int, b: Cuboid)
    requires forall p :: InBox(p, b) ==> f(p) == 0
    ensures SumBox(f, b) == 0
  {
    forall x, y | b.xMin <= x <= b.xMax && b.yMin <= y <= b.yMax
      ensures ZSum(f, x, y, b) == 0
    {
      forall z | b.zMin <= z <= b.zMax
        ensures f((x, y, z)) == 0
      {
        assert InBox((x, y, z), b);
      }
      Sum1Zero(z => f((x, y, z)), b.zMin, b.zMax);
    }
    forall x | b.xMin <= x <= b.xMax
      ensures YSum(f, x, b) == 0
    {
      Sum1Zero(y => ZSum(f, x, y, b), b.yMin, b.yMax);
    }
    Sum1Zero(x => YSum(f, x, b), b.xMin, b.xMax);
  }

  /** Equal terms over a box have equal sums. */
  lemma SumBoxSame(f: Point -> int, g: Point -> int, b: Cuboid)
    requires forall p :: InBox(p, b) ==> f(p) == g(p)
    ensures SumBox(f, b) == SumBox(g, b)
  {
    var zero: Point -> int := p => 0;
    SumBoxAdd(f, g, zero, b);
    SumBoxZero(zero, b);
  }

  /** Cuboid c lies inside the box b. */
  predicate Within(c: Cuboid, b: Cuboid)
  {
    b.xMin <= c.xMin && c.xMax <= b.xMax && b.yMin <= c.yMin && c.yMax <= b.yMax && b.zMin <= c.zMin && c.zMax <= b.zMax
  }

  /** Every cuboid of cs is non-empty and lies inside the box b. */
  predicate AllWithin(cs: seq<Cuboid>, b: Cuboid)
  {
    forall k :: 0 <= k < |cs| ==> NonEmpty(cs[k]) && Within(cs[k], b)
  }

  /** The sign of c on its own cubes, 0 elsewhere. */
  function SignedCubes(c: Cuboid): (r: Point -> int)
    ensures forall p :: r(p) == if Contains(c, p) then Sign(c) else 0
  {
    p => if Contains(c, p) then Sign(c) else 0
  }

  /** Along z, a non-empty cuboid's signed cubes add up to its sign times its depth, on its own columns. */
  lemma ZSumCuboid(c: Cuboid, b: Cuboid, x: int, y: int)
    requires NonEmpty(c) && Within(c, b)
    ensures ZSum(SignedCubes(c), x, y, b) ==
            (if c.xMin <= x <= c.xMax && c.yMin <= y <= c.yMax then Sign(c) else 0) * (c.zMax - c.zMin + 1)
  {
    var v := if c.xMin <= x <= c.xMax && c.yMin <= y <= c.yMax then Sign(c) else 0;
    var f := z => SignedCubes(c)((x, y, z));
    forall z | b.zMin <= z <= b.zMax
      ensures f(z) == if c.zMin <= z <= c.zMax then v else 0
    {
      assert f(z) == SignedCubes(c)((x, y, z));
      assert Contains(c, (x, y, z)) <==> c.xMin <= x <= c.xMax && c.yMin <= y <= c.yMax && c.zMin <= z <= c.zMax;
    }
    Sum1Block(f, v, c.zMin, c.zMax, b.zMin, b.zMax);
  }

  /** Along y and z, a non-empty cuboid's signed cubes add up to its sign times its cross-section, on its own slices. */
  lemma YSumCuboid(c: Cuboid, b: Cuboid, x: int)
    requires NonEmpty(c) && Within(c, b)
    ensures YSum(SignedCubes(c), x, b) ==
            (if c.xMin <= x <= c.xMax then Sign(c) * (c.zMax - c.zMin + 1) else 0) * (c.yMax - c.yMin + 1)
  {
    var w := if c.xMin <= x <= c.xMax then Sign(c) * (c.zMax - c.zMin + 1) else 0;
    forall y | b.yMin <= y <= b.yMax
      ensures ZSum(SignedCubes(c), x, y, b) == if c.yMin <= y <= c.yMax then w else 0
    {
      ZSumCuboid(c, b, x, y);
    }
    Sum1Block(y => ZSum(SignedCubes(c), x, y, b), w, c.yMin, c.yMax, b.yMin, b.yMax);
  }

  /** The order in which the sides are multiplied does not matter. */
  lemma SignedSizeOrder(s: int, dx: int, dy: int, dz: int)
    ensures s * dz * dy * dx == s * dx * dy * dz
  {
  }

  /** Summed over a box holding it, a non-empty cuboid's signed cubes give its volume. */
  lemma SumBoxCuboid(c: Cuboid, b: Cuboid)
    requires NonEmpty(c) && Within(c, b)
    ensures SumBox(SignedCubes(c), b) == Volume(c)
  {
    var dx, dy, dz := c.xMax - c.xMin + 1, c.yMax - c.yMin + 1, c.zMax - c.zMin + 1;
    forall x | b.xMin <= x <= b.xMax
      ensures YSum(SignedCubes(c), x, b) == if c.xMin <= x <= c.xMax then Sign(c) * dz * dy else 0
    {
      YSumCuboid(c, b, x);
    }
    var u := Sign(c) * dz * dy;
    Sum1Block(x => YSum(SignedCubes(c), x, b), u, c.xMin, c.xMax, b.xMin, b.xMax);
    VolumeIsSignedSize(c);
    SignedSizeOrder(Sign(c), dx, dy, dz);
  }

  /** Summed over a box holding them all, the weights of non-empty cuboids give their signed volumes. */
  lemma {:induction false} SumBoxWeights(ps: seq<Cuboid>, b: Cuboid)
    requires AllWithin(ps, b)
    ensures SumBox(p => Weight(ps, p), b) == SumVolumes(ps)
    decreases |ps|
  {
    if |ps| == 0 {
      SumBoxZero(p => Weight(ps, p), b);
    } else {
      var init, c := ps[..|ps| - 1], ps[|ps| - 1];
      SumBoxWeights(init, b);
      SumBoxAdd(p => Weight(ps, p), p => Weight(init, p), SignedCubes(c), b);
      SumBoxCuboid(c, b);
    }
  }

  /** Every correction cuboid is non-empty and lies inside the new cuboid. */
  lemma {:induction false} CorrectionsWithin(c: Cuboid, processed: seq<Cuboid>)
    ensures AllWithin(Corrections(c, processed), c)
    decreases |processed|
  {
    if |processed| > 0 {
      var init := processed[..|processed| - 1];
      CorrectionsWithin(c, init);
      var before := Corrections(c, init);
      match GetIntersection(c, processed[|processed| - 1])
      case None =>
      case Some(i) =>
        var cs := before + [i];
        assert Corrections(c, processed) == cs;
        forall k | 0 <= k < |cs|
          ensures NonEmpty(cs[k]) && Within(cs[k], c)
        {
          if k < |before| {
            assert cs[k] == before[k];
          } else {
            assert cs[k] == i;
          }
        }
    }
  }

  /** Processing non-empty instructions inside a box yields non-empty cuboids inside the box. */
  lemma {:induction false} ProcessWithin(cs: seq<Cuboid>, b: Cuboid)
    requires AllWithin(cs, b)
    ensures AllWithin(Process(cs), b)
    decreases |cs|
  {
    if |cs| > 0 {
      var init, c := cs[..|cs| - 1], cs[|cs| - 1];
      assert forall k :: 0 <= k < |init| ==> init[k] == cs[k];
      ProcessWithin(init, b);
      var before := Process(init);
      var fixes := Corrections(c, before);
      CorrectionsWithin(c, before);
      var own: seq<Cuboid> := if c.state then [c] else [];
      var ps := before + own + fixes;
      assert Process(cs) == ps;
      forall k | 0 <= k < |ps|
        ensures NonEmpty(ps[k]) && Within(ps[k], b)
      {
        if k >= |before| + |own| {
          assert ps[k] == fixes[k - |before| - |own|];
          assert Within(fixes[k - |before| - |own|], c);
        } else if k >= |before| {
          assert ps[k] == c;
        } else {
          assert ps[k] == before[k];
        }
      }
    }
  }

  /** The number of cubes of the box b that are on after the instructions: one for each lit cube. */
  function LitCount(cs: seq<Cuboid>, b: Cuboid): int
  {
    SumBox(p => if Lit(cs, p) then 1 else 0, b)
  }

  /**
   * The claim of the method: for non-empty instructions inside a box, the signed volumes of
   * the processed list add up to the number of cubes of the box left on.
   */
  lemma LitCubesCounted(cs: seq<Cuboid>, b: Cuboid)
    requires AllWithin(cs, b)
    ensures SumVolumes(Process(cs)) == LitCount(cs, b)
  {
    ProcessWithin(cs, b);
    SumBoxWeights(Process(cs), b);
    forall p | InBox(p, b)
      ensures Weight(Process(cs), p) == if Lit(cs, p) then 1 else 0
    {
      ProcessWeight(cs, p);
    }
    SumBoxSame(p => Weight(Process(cs), p), p => if Lit(cs, p) then 1 else 0, b);
  }

  /** The first loop of `part_a`: the cuboids kept. */
  method SelectCuboids(instrs: seq<Cuboid>, just50: bool) returns (cuboids: seq<Cuboid>)
    ensures cuboids == Select(instrs, just50)
  {
    cuboids := [];
    for k := 0 to |instrs|
      invariant cuboids == Select(instrs[..k], just50)
    {
      assert instrs[..k + 1][..k] == instrs[..k];
      if !just50 || IsWithin50(instrs[k]) {
        cuboids := cuboids + [instrs[k]];
      }
    }
    assert instrs[..|instrs|] == instrs;
  }

  /** The nested loops of `part_a`: the processed list with its correction cuboids. */
  method ProcessCuboids(cuboids: seq<Cuboid>) returns (processed: seq<Cuboid>)
    ensures processed == Process(cuboids)
  {
    processed := [];
    for k := 0 to |cuboids|
      invariant processed == Process(cuboids[..k])
    {
      var thisCuboid := cuboids[k];
      var newCuboids: seq<Cuboid> := [];
      for j := 0 to |processed|
        invariant newCuboids == Corrections(thisCuboid, processed[..j])
      {
        assert processed[..j + 1][..j] == processed[..j];
        var intCuboid := GetIntersection(thisCuboid, processed[j]);
        if intCuboid.Some? {
          newCuboids := newCuboids + [intCuboid.value];
        }
      }
      assert processed[..|processed|] == processed;
      assert cuboids[..k + 1][..k] == cuboids[..k];
      ghost var before := processed;
      if thisCuboid.state {
        processed := processed + [thisCuboid];
      }
      processed := processed + newCuboids;
      assert processed == Step(before, thisCuboid);
    }
    assert cuboids[..|cuboids|] == cuboids;
  }

  /**
   * `part_a(instrs, just_50)` on instructions already parsed: the signed volumes of the
   * processed list, added up.
   */
  method PartA(instrs: seq<Cuboid>, just50: bool) returns (volume: int)
    ensures volume == SumVolumes(Process(Select(instrs, just50)))
    ensures forall b :: AllWithin(Select(instrs, just50), b) ==> volume == LitCount(Select(instrs, just50), b)
  {
    var cuboids := SelectCuboids(instrs, just50);
    var processed := ProcessCuboids(cuboids);
    volume := SumVolumes(processed);
    forall b | AllWithin(cuboids, b)
      ensures volume == LitCount(cuboids, b)
    {
      LitCubesCounted(cuboids, b);
    }
  }

  /** `part_b`: every instruction, not only those near the origin. */
  method PartB(instrs: seq<Cuboid>) returns (volume: int)
    ensures volume == SumVolumes(Process(instrs))
    ensures forall b :: AllWithin(instrs, b) ==> volume == LitCount(instrs, b)
  {
    volume := PartA(instrs, false);
  }
}
