/**
 * Day 17, trick shot: a probe fired from `(0, 0)` with an initial velocity moves in steps,
 * slowed by drag along x and pulled down by gravity along y. `does_hit_target` follows it
 * until it is inside the target area or has gone below or past it; `find_ways_to_hit_target`
 * tries a box of initial velocities, counting the hits and keeping the highest point reached.
 */
module Day17 {
  import opened Util

  /** The target area `x=left..right, y=bottom..top`. */
  datatype Target = Target(left: int, right: int, top: int, bottom: int)

  /** Where the probe is and how fast it moves. */
  datatype Probe = Probe(x: int, y: int, vx: int, vy: int)

  /** The loop guard of `does_hit_target`, line 25: not yet below the target nor past its right edge. */
  predicate Flying(t: Target, p: Probe)
  {
    p.y >= t.bottom && p.x <= t.right
  }

  /** The hit test, line 28: at or below the top and at or right of the left edge. */
  predicate Inside(t: Target, p: Probe)
  {
    p.y <= t.top && p.x >= t.left
  }

  /**
   * One step, lines 31-34: the probe moves by its velocity, gravity takes one from the
   * vertical speed, and a positive horizontal speed loses one to drag while any other
   * becomes 0.
   */
  function Step(p: Probe): Probe
  {
    Probe(p.x + p.vx, p.y + p.vy, if p.vx > 0 then p.vx - 1 else 0, p.vy - 1)
  }

  /** The probe after `k` steps. */
  function At(p: Probe, k: nat): Probe
  {
    if k == 0 then p else Step(At(p, k - 1))
  }

  /** Where the steps are going: the vertical speed drops by one per step, the horizontal one drifts to 0 and stays there. */
  lemma {:induction false} AtSpeeds(p: Probe, k: nat)
    ensures At(p, k).vy == p.vy - k
    ensures p.vx >= 0 ==> At(p, k).vx == Max2(p.vx - k, 0)
    ensures k > 0 ==> At(p, k).vx >= 0
  {
    if k > 0 {
      AtSpeeds(p, k - 1);
    }
  }

  /** `At` in two legs. */
  lemma {:induction false} AtAdd(p: Probe, j: nat, k: nat)
    ensures At(At(p, j), k) == At(p, j + k)
    decreases k
  {
    if k > 0 {
      AtAdd(p, j, k - 1);
    }
  }

  /** Twice the height after `k` steps, in closed form: the vertical motion is a parabola. */
  lemma {:induction false} AtHeight(p: Probe, k: nat)
    ensures 2 * At(p, k).y == 2 * p.y + 2 * k * p.vy - k * (k - 1)
  {
    if k > 0 {
      AtHeight(p, k - 1);
      AtSpeeds(p, k - 1);
    }
  }

  /**
   * The observation behind the search bounds (line 42): a probe fired from height 0 with
   * vertical speed `vy >= 0` is back at height 0 after `2 vy + 1` steps, falling at `vy + 1`.
   */
  lemma ComesBack(p: Probe)
    requires p.y == 0 && p.vy >= 0
    ensures At(p, 2 * p.vy + 1).y == 0 && At(p, 2 * p.vy + 1).vy == -p.vy - 1
  {
    var k := 2 * p.vy + 1;
    AtHeight(p, k);
    AtSpeeds(p, k);
    assert 2 * k * p.vy - k * (k - 1) == 0;
  }

  /** The highest point over the first `k + 1` positions. */
  function Highest(p: Probe, k: nat): int
  {
    if k == 0 then p.y else Max2(Highest(p, k - 1), At(p, k).y)
  }

  /** `Highest` is the highest point: every position up to `k` is at most that high and one is that high. */
  lemma {:induction false} HighestIsMax(p: Probe, k: nat)
    ensures forall j :: 0 <= j <= k ==> At(p, j).y <= Highest(p, k)
    ensures exists j :: 0 <= j <= k && At(p, j).y == Highest(p, k)
  {
    if k > 0 {
      HighestIsMax(p, k - 1);
      var j :| 0 <= j <= k - 1 && At(p, j).y == Highest(p, k - 1);
      assert Highest(p, k) == Max2(Highest(p, k - 1), At(p, k).y);
      if Highest(p, k) == At(p, k).y {
        assert 0 <= k <= k && At(p, k).y == Highest(p, k);
      } else {
        assert 0 <= j <= k && At(p, j).y == Highest(p, k);
      }
    } else {
      assert At(p, 0) == p;
    }
  }

  /** The first `k` positions were inside the loop guard and not in the target. */
  predicate Missed(t: Target, p: Probe, k: nat)
  {
    forall j :: 0 <= j < k ==> Flying(t, At(p, j)) && !Inside(t, At(p, j))
  }

  /** The probe is first in the target after `k` steps. */
  predicate FirstHit(t: Target, p: Probe, k: nat)
  {
    Missed(t, p, k) && Flying(t, At(p, k)) && Inside(t, At(p, k))
  }

  /** The probe first leaves the loop guard after `k` steps, never having been in the target. */
  predicate FirstMiss(t: Target, p: Probe, k: nat)
  {
    Missed(t, p, k) && !Flying(t, At(p, k))
  }

  /** Each position before `k` of a probe that missed for `k` steps is inside the guard and outside the target. */
  lemma MissedAt(t: Target, p: Probe, k: nat, j: nat)
    requires Missed(t, p, k) && j < k
    ensures Flying(t, At(p, j)) && !Inside(t, At(p, j))
  {
  }

  /** A simulation ends at most once: the first hit and the first miss exclude each other and are unique. */
  lemma EndsOnce(t: Target, p: Probe, k1: nat, k2: nat)
    requires FirstHit(t, p, k1) || FirstMiss(t, p, k1)
    requires FirstHit(t, p, k2) || FirstMiss(t, p, k2)
    ensures k1 == k2 && (FirstHit(t, p, k1) <==> FirstHit(t, p, k2))
  {
    if k1 < k2 {
      MissedAt(t, p, k2, k1);
      assert false;
    } else if k2 < k1 {
      MissedAt(t, p, k1, k2);
      assert false;
    }
  }

  /**
   * The vertical speed bounds how often the probe can still climb, and once it falls its
   * height above the bottom of the target shrinks: together they measure the steps left.
   */
  function Climb(p: Probe): nat
  {
    if p.vy >= 0 then p.vy + 1 else 0
  }

  /**
   * What `does_hit_target` computes, as a recursion over the steps: `Some(max_y)` at the
   * first position in the target, `None` once the probe is below or past it. `maxY` is the
   * highest point seen before `p`.
   */
  function Simulate(t: Target, p: Probe, maxY: int): Option<int>
    decreases Climb(p), p.y - t.bottom
  {
    if !Flying(t, p) then None
    else
      var m := Max2(maxY, p.y);
      if Inside(t, p) then Some(m) else Simulate(t, Step(p), m)
  }

  /**
   * A hit: when the probe is first in the target after `k` steps, the simulation returns
   * the highest point up to there, no lower than the starting `maxY`.
   */
  lemma {:induction false} SimulateHit(t: Target, p: Probe, maxY: int, k: nat)
    requires FirstHit(t, p, k)
    ensures Simulate(t, p, maxY) == Some(Max2(maxY, Highest(p, k)))
    decreases k
  {
    if k > 0 {
      assert Flying(t, p) && !Inside(t, p) by {
        assert At(p, 0) == p;
      }
      ShiftMissed(t, p, k);
      SimulateHit(t, Step(p), Max2(maxY, p.y), k - 1);
      HighestShift(p, k);
    }
  }

  /** A miss: when the probe first leaves the guard after `k` steps, the simulation returns `None`. */
  lemma {:induction false} SimulateMiss(t: Target, p: Probe, maxY: int, k: nat)
    requires FirstMiss(t, p, k)
    ensures Simulate(t, p, maxY) == None
    decreases k
  {
    if k > 0 {
      assert Flying(t, p) && !Inside(t, p) by {
        assert At(p, 0) == p;
      }
      ShiftMissed(t, p, k);
      SimulateMiss(t, Step(p), Max2(maxY, p.y), k - 1);
    }
  }

  /** Termination of the loop: every simulation ends, in a first hit or a first miss. */
  lemma {:induction false} SimulateEnds(t: Target, p: Probe)
    ensures exists k: nat :: FirstHit(t, p, k) || FirstMiss(t, p, k)
    decreases Climb(p), p.y - t.bottom
  {
    if !Flying(t, p) || Inside(t, p) {
      assert FirstHit(t, p, 0) || FirstMiss(t, p, 0);
    } else {
      SimulateEnds(t, Step(p));
      var k: nat :| FirstHit(t, Step(p), k) || FirstMiss(t, Step(p), k);
      UnshiftMissed(t, p, k);
      assert FirstHit(t, p, k + 1) || FirstMiss(t, p, k + 1);
    }
  }

  /** The positions after the first one are those of the probe one step on. */
  lemma ShiftAt(p: Probe, j: nat)
    ensures At(Step(p), j) == At(p, j + 1)
  {
    AtAdd(p, 1, j);
  }

  /** Missing for `k` steps from `p` means missing for `k - 1` steps from the next position. */
  lemma ShiftMissed(t: Target, p: Probe, k: nat)
    requires k > 0
    ensures Missed(t, p, k) ==> Missed(t, Step(p), k - 1)
    ensures Flying(t, At(Step(p), k - 1)) == Flying(t, At(p, k)) && Inside(t, At(Step(p), k - 1)) == Inside(t, At(p, k))
  {
    forall j | 0 <= j < k
      ensures At(Step(p), j) == At(p, j + 1)
    {
      ShiftAt(p, j);
    }
  }

  /** Missing from the next position and missing at `p` itself is missing for one step more. */
  lemma UnshiftMissed(t: Target, p: Probe, k: nat)
    requires Flying(t, p) && !Inside(t, p)
    requires Missed(t, Step(p), k)
    ensures Missed(t, p, k + 1)
    ensures At(Step(p), k) == At(p, k + 1)
  {
    forall j | 0 <= j < k + 1
      ensures Flying(t, At(p, j)) && !Inside(t, At(p, j))
    {
      if j == 0 {
        assert At(p, 0) == p;
      } else {
        ShiftAt(p, j - 1);
      }
    }
    ShiftAt(p, k);
  }

  /** The highest point from `p` over `k + 1` positions is the higher of `p` and the highest from the next position. */
  lemma {:induction false} HighestShift(p: Probe, k: nat)
    requires k > 0
    ensures Highest(p, k) == Max2(p.y, Highest(Step(p), k - 1))
  {
    ShiftAt(p, k - 1);
    if k > 1 {
      HighestShift(p, k - 1);
    }
  }

  /** Whether the shot with this initial velocity hits the target. */
  predicate Hits(t: Target, vx: int, vy: int)
  {
    Simulate(t, Probe(0, 0, vx, vy), 0).Some?
  }

  /**
   * `does_hit_target`, lines 19-35: follows the probe while it is inside the loop guard,
   * keeping the highest point seen, and returns it at the first position in the target;
   * `None` stands for `(False, None)`. The result is what `Simulate` describes; the lemmas
   * above say what that is.
   */
  method DoesHitTarget(vx0: int, vy0: int, t: Target) returns (r: Option<int>)
    ensures r == Simulate(t, Probe(0, 0, vx0, vy0), 0)
    ensures r.Some? ==> r.value >= 0
  {
    var x, y := 0, 0;
    var speedX, speedY := vx0, vy0;
    var maxY := 0;
    while y >= t.bottom && x <= t.right
      invariant maxY >= 0
      invariant Simulate(t, Probe(x, y, speedX, speedY), maxY) == Simulate(t, Probe(0, 0, vx0, vy0), 0)
      decreases Climb(Probe(x, y, speedX, speedY)), y - t.bottom
    {
      maxY := Max2(maxY, y);
      if y <= t.top && x >= t.left {
        return Some(maxY);
      }
      y := y + speedY;
      x := x + speedX;
      speedY := speedY - 1;
      speedX := if speedX > 0 then speedX - 1 else 0;
    }
    return None;
  }

  /** A simulation never reports a height below the highest point it started with. */
  lemma {:induction false} SimulateAbove(t: Target, p: Probe, maxY: int)
    ensures Simulate(t, p, maxY).Some? ==> Simulate(t, p, maxY).value >= maxY
    decreases Climb(p), p.y - t.bottom
  {
    if Flying(t, p) && !Inside(t, p) {
      SimulateAbove(t, Step(p), Max2(maxY, p.y));
    }
  }

  /** A shot as the search writes it: horizontal speed first, then vertical speed. */
  type Shot = (int, int)

  /** The hitting shots with vertical speed `vy` and horizontal speed `0 <= vx < n`. */
  function RowSet(t: Target, vy: int, n: nat): set<Shot>
  {
    set vx | 0 <= vx < n && Hits(t, vx, vy) :: (vx, vy)
  }

  /** The hitting shots with vertical speed `lo < vy <= hi` and horizontal speed `0 <= vx < n`. */
  function BoxSet(t: Target, lo: int, hi: int, n: nat): set<Shot>
  {
    set vx, vy | 0 <= vx < n && lo < vy <= hi && Hits(t, vx, vy) :: (vx, vy)
  }

  /** How many shots with vertical speed `vy` and horizontal speed `0 <= vx < n` hit, counted in the order of the inner loop. */
  function RowHits(t: Target, vy: int, n: nat): nat
  {
    if n == 0 then 0 else RowHits(t, vy, n - 1) + (if Hits(t, n - 1, vy) then 1 else 0)
  }

  /** The hits of the rows `lo < vy <= hi`, counted in the order of the outer loop: from the top row down. */
  function Rows(t: Target, lo: int, hi: int, n: nat): nat
    decreases hi - lo
  {
    if hi <= lo then 0 else Rows(t, lo + 1, hi, n) + RowHits(t, lo + 1, n)
  }

  /** The highest point of the hits with vertical speed `vy` and horizontal speed `0 <= vx < n`, starting from `m`. */
  function RowBest(t: Target, vy: int, n: nat, m: int): int
  {
    if n == 0 then m
    else
      var prev := RowBest(t, vy, n - 1, m);
      match Simulate(t, Probe(0, 0, n - 1, vy), 0)
      case Some(h) => Max2(prev, h)
      case None => prev
  }

  /** The highest point of the hits in the rows `lo < vy <= hi`, starting from 0. */
  function Best(t: Target, lo: int, hi: int, n: nat): int
    decreases hi - lo
  {
    if hi <= lo then 0 else RowBest(t, lo + 1, n, Best(t, lo + 1, hi, n))
  }

  /** `RowHits` counts the hitting shots of the row. */
  lemma {:induction false} RowHitsCounts(t: Target, vy: int, n: nat)
    ensures RowHits(t, vy, n) == |RowSet(t, vy, n)|
  {
    if n > 0 {
      RowHitsCounts(t, vy, n - 1);
      var before, now := RowSet(t, vy, n - 1), RowSet(t, vy, n);
      var hit := Hits(t, n - 1, vy);
      assert RowHits(t, vy, n) == RowHits(t, vy, n - 1) + (if hit then 1 else 0);
      if hit {
        assert (n - 1, vy) !in before;
        assert now == before + {(n - 1, vy)};
      } else {
        assert now == before;
      }
    }
  }

  /** `Rows` counts the hitting shots of the box of speeds. */
  lemma {:induction false} RowsCount(t: Target, lo: int, hi: int, n: nat)
    ensures Rows(t, lo, hi, n) == |BoxSet(t, lo, hi, n)|
    decreases hi - lo
  {
    if hi <= lo {
      assert BoxSet(t, lo, hi, n) == {};
    } else {
      RowsCount(t, lo + 1, hi, n);
      RowHitsCounts(t, lo + 1, n);
      var rest, row := BoxSet(t, lo + 1, hi, n), RowSet(t, lo + 1, n);
      assert BoxSet(t, lo, hi, n) == rest + row;
      assert rest * row == {} by {
        forall s | s in row ensures s !in rest {
        }
      }
    }
  }

  /** `RowBest` is the highest of `m` and the heights of the row's hits, and is `m` or one of them. */
  lemma {:induction false} RowBestIsMax(t: Target, vy: int, n: nat, m: int)
    ensures RowBest(t, vy, n, m) >= m
    ensures forall vx :: 0 <= vx < n && Hits(t, vx, vy) ==> RowBest(t, vy, n, m) >= HitHeight(t, vx, vy)
    ensures RowBest(t, vy, n, m) == m || exists vx :: 0 <= vx < n && Hits(t, vx, vy) && RowBest(t, vy, n, m) == HitHeight(t, vx, vy)
  {
    if n > 0 {
      RowBestIsMax(t, vy, n - 1, m);
      if RowBest(t, vy, n, m) != RowBest(t, vy, n - 1, m) {
        assert Hits(t, n - 1, vy) && RowBest(t, vy, n, m) == HitHeight(t, n - 1, vy);
      }
    }
  }

  /** `Best` is at least the height of every hit in the box, and is 0 or the height of one of them. */
  lemma {:induction false} BestIsMax(t: Target, lo: int, hi: int, n: nat)
    ensures Best(t, lo, hi, n) >= 0
    ensures forall s :: s in BoxSet(t, lo, hi, n) ==> Best(t, lo, hi, n) >= HitHeight(t, s.0, s.1)
    ensures Best(t, lo, hi, n) == 0 || exists s :: s in BoxSet(t, lo, hi, n) && Best(t, lo, hi, n) == HitHeight(t, s.0, s.1)
    decreases hi - lo
  {
    if lo < hi {
      var b := Best(t, lo + 1, hi, n);
      BestIsMax(t, lo + 1, hi, n);
      RowBestIsMax(t, lo + 1, n, b);
      forall s | s in BoxSet(t, lo, hi, n)
        ensures Best(t, lo, hi, n) >= HitHeight(t, s.0, s.1)
      {
        if s.1 != lo + 1 {
          assert s in BoxSet(t, lo + 1, hi, n);
        }
      }
      if Best(t, lo, hi, n) != b {
        var vx :| 0 <= vx < n && Hits(t, vx, lo + 1) && Best(t, lo, hi, n) == HitHeight(t, vx, lo + 1);
        assert (vx, lo + 1) in BoxSet(t, lo, hi, n);
      } else if b != 0 {
        var s :| s in BoxSet(t, lo + 1, hi, n) && b == HitHeight(t, s.0, s.1);
        assert s in BoxSet(t, lo, hi, n);
      }
    }
  }

  /** The height a shot reaches, as far as the search is concerned: the reported one for a hit, 0 for a miss. */
  function HitHeight(t: Target, vx: int, vy: int): (h: int)
    ensures h >= 0
  {
    SimulateAbove(t, Probe(0, 0, vx, vy), 0);
    match Simulate(t, Probe(0, 0, vx, vy), 0)
    case Some(h) => h
    case None => 0
  }

  /** The number of horizontal speeds the search tries: `range(right + 1)`. */
  function Width(t: Target): nat
  {
    if t.right + 1 > 0 then t.right + 1 else 0
  }

  /** The shots the search tries that hit: vertical speeds from `|bottom|` down to `bottom`, horizontal ones from 0 to `right`. */
  function SearchHits(t: Target): set<Shot>
  {
    BoxSet(t, t.bottom - 1, Abs(t.bottom), Width(t))
  }

  /**
   * `find_ways_to_hit_target`, lines 38-52: tries every shot of the search box, counting
   * the hits and keeping the highest point any of them reaches (0 when none hits).
   */
  method FindWaysToHitTarget(t: Target) returns (count: nat, maxY: int)
    ensures count == |SearchHits(t)|
    ensures maxY >= 0
    ensures forall s :: s in SearchHits(t) ==> HitHeight(t, s.0, s.1) <= maxY
    ensures maxY == 0 || exists s :: s in SearchHits(t) && HitHeight(t, s.0, s.1) == maxY
  {
    var hi, n := Abs(t.bottom), Width(t);
    count, maxY := 0, 0;
    var vy := hi;
    while vy >= t.bottom
      invariant t.bottom - 1 <= vy <= hi
      invariant count == Rows(t, vy, hi, n)
      invariant maxY == Best(t, vy, hi, n)
      decreases vy - t.bottom
    {
      var base := maxY;
      for vx := 0 to n
        invariant count == Rows(t, vy, hi, n) + RowHits(t, vy, vx)
        invariant maxY == RowBest(t, vy, vx, base)
      {
        var r := DoesHitTarget(vx, vy, t);
        if r.Some? {
          count := count + 1;
          maxY := Max2(maxY, r.value);
        }
      }
      vy := vy - 1;
    }
    RowsCount(t, t.bottom - 1, hi, n);
    BestIsMax(t, t.bottom - 1, hi, n);
  }

  /**
   * Why the search box is enough (the observations of lines 42-45): for a target to the
   * right of the origin and below it, every hitting shot has horizontal speed between 0
   * and `right` and vertical speed between `bottom` and `|bottom|`.
   */
  lemma HitsInSearch(t: Target, vx: int, vy: int)
    requires 0 < t.left && t.top < 0
    requires Hits(t, vx, vy)
    ensures 0 <= vx <= t.right && t.bottom <= vy <= Abs(t.bottom)
  {
    var p := Probe(0, 0, vx, vy);
    SimulateEnds(t, p);
    var k: nat :| FirstHit(t, p, k) || FirstMiss(t, p, k);
    if FirstMiss(t, p, k) {
      SimulateMiss(t, p, 0, k);
      assert false;
    }
    assert k >= 1 by {
      assert At(p, 0) == p;
    }
    var q := At(p, k);
    if vx < 0 {
      StaysLeft(p, k);
      assert false;
    }
    if vx > t.right {
      MovesRight(p, k);
      assert false;
    }
    if vy < t.bottom {
      Falls(p, k);
      assert false;
    }
    if vy > Abs(t.bottom) {
      var back := 2 * vy + 1;
      if k <= back {
        AboveStart(p, k);
        assert false;
      }
      ComesBack(p);
      assert At(p, back + 1) == Step(At(p, back));
      assert !Flying(t, At(p, back + 1));
      assert false;
    }
  }

  /** A shot with negative horizontal speed stops after one step and stays left of the origin. */
  lemma {:induction false} StaysLeft(p: Probe, k: nat)
    requires p.vx < 0
    ensures At(p, k).x == (if k == 0 then p.x else p.x + p.vx)
    ensures k > 0 ==> At(p, k).vx == 0
  {
    if k > 0 {
      StaysLeft(p, k - 1);
    }
  }

  /** A shot with non-negative horizontal speed never moves left, and is past `x + vx` after its first step. */
  lemma {:induction false} MovesRight(p: Probe, k: nat)
    requires p.vx >= 0
    ensures At(p, k).x >= p.x && At(p, k).vx >= 0
    ensures k > 0 ==> At(p, k).x >= p.x + p.vx
  {
    if k > 0 {
      MovesRight(p, k - 1);
      if k > 1 {
        MovesRight(p, k - 1);
      }
    }
  }

  /** A shot with non-positive vertical speed only falls: after the first step it is at or below `y + vy`. */
  lemma {:induction false} Falls(p: Probe, k: nat)
    requires p.vy <= 0
    ensures At(p, k).y <= p.y && At(p, k).vy <= p.vy - k
    ensures k > 0 ==> At(p, k).y <= p.y + p.vy
  {
    if k > 0 {
      Falls(p, k - 1);
    }
  }

  /** A shot fired upwards from height 0 stays at or above 0 until it has come back down to 0. */
  lemma AboveStart(p: Probe, k: nat)
    requires p.y == 0 && p.vy >= 0 && k <= 2 * p.vy + 1
    ensures At(p, k).y >= 0
  {
    AtHeight(p, k);
    var rest := 2 * p.vy + 1 - k;
    assert 2 * At(p, k).y == k * rest;
    NonNegativeProduct(k, rest);
  }

  /** The product of two non-negative numbers is non-negative. */
  lemma NonNegativeProduct(a: nat, b: nat)
    ensures a * b >= 0
  {
  }

  /** Part A, lines 59-63: the highest point reached by a hitting shot of the search. */
  method PartA(t: Target) returns (r: int)
    ensures r >= 0
    ensures forall s :: s in SearchHits(t) ==> HitHeight(t, s.0, s.1) <= r
    ensures r == 0 || exists s :: s in SearchHits(t) && HitHeight(t, s.0, s.1) == r
  {
    var count, maxY := FindWaysToHitTarget(t);
    r := maxY;
  }

  /** Part B, lines 66-70: the number of hitting shots of the search. */
  method PartB(t: Target) returns (r: nat)
    ensures r == |SearchHits(t)|
  {
    var count, maxY := FindWaysToHitTarget(t);
    r := count;
  }

  /**
   * The search is complete for a target to the right of and below the origin: its hits
   * are all the hitting shots, so part B counts every shot that hits and part A's height
   * is the highest any hitting shot reaches.
   */
  lemma SearchComplete(t: Target, vx: int, vy: int)
    requires 0 < t.left && t.top < 0
    ensures (vx, vy) in SearchHits(t) <==> Hits(t, vx, vy)
  {
    if Hits(t, vx, vy) {
      HitsInSearch(t, vx, vy);
      assert (vx, vy) in SearchHits(t);
    }
  }
}
