/**
 * Day 5, hydrothermal vents: line segments between integer end points are drawn onto a
 * grid of counters, each cell a segment passes over going up by one; the answer is the
 * number of cells covered more than once. Horizontal and vertical segments are always
 * drawn; diagonal ones only in the second part. End points arrive already parsed.
 */
module Day05 {
  import opened Util

  /** A grid cell, `x` across and `y` down (the field is indexed `field[y][x]`). */
  datatype Point = Point(x: int, y: int)

  /** One vent line `x1,y1 -> x2,y2`. */
  datatype Segment = Segment(x1: nat, y1: nat, x2: nat, y2: nat)

  /** The `k`-th value of a `range` from `a` towards `b`: counting up when `a < b`, otherwise down. */
  function Walk(a: int, b: int, k: nat): int
  {
    if a < b then a + k else a - k
  }

  predicate IsDiagonal(s: Segment)
  {
    s.x1 != s.x2 && s.y1 != s.y2
  }

  // ---------------------------------------------------------------------------
  // The cells one segment visits
  // ---------------------------------------------------------------------------

  /**
   * The cells `populate_field` increments for `s`, in the order it visits them: a
   * diagonal walks the two ranges in step and stops with the shorter one (or is skipped),
   * a horizontal segment goes left to right, a vertical one top to bottom.
   */
  function Points(s: Segment, ignoreDiags: bool): seq<Point>
  {
    if IsDiagonal(s) then
      if ignoreDiags then []
      else
        seq(Min2(Abs(s.x2 - s.x1), Abs(s.y2 - s.y1)) + 1, k requires k >= 0 => Point(Walk(s.x1, s.x2, k), Walk(s.y1, s.y2, k)))
    else if s.y1 == s.y2 then
      seq(Abs(s.x2 - s.x1) + 1, k => Point(Min2(s.x1, s.x2) + k, s.y1))
    else
      seq(Abs(s.y2 - s.y1) + 1, k => Point(s.x1, Min2(s.y1, s.y2) + k))
  }

  /** A sequence without repeats holds each of its elements exactly once. */
  lemma {:induction false} DistinctOnce(ps: seq<Point>, p: Point)
    requires Distinct(ps)
    ensures multiset(ps)[p] == if p in ps then 1 else 0
  {
    if |ps| > 0 {
      var init := ps[..|ps| - 1];
      assert ps == init + [ps[|ps| - 1]];
      assert Distinct(init);
      DistinctOnce(init, p);
      if p == ps[|ps| - 1] {
        assert p !in init;
      }
    }
  }

  /** A horizontal segment covers each cell of its row between its end points exactly once, |x2-x1|+1 cells in all. */
  lemma HorizontalPoints(s: Segment, ignoreDiags: bool, p: Point)
    requires s.y1 == s.y2
    ensures |Points(s, ignoreDiags)| == Abs(s.x2 - s.x1) + Abs(s.y2 - s.y1) + 1
    ensures multiset(Points(s, ignoreDiags))[p] ==
              if p.y == s.y1 && Min2(s.x1, s.x2) <= p.x <= Max2(s.x1, s.x2) then 1 else 0
  {
    var ps := Points(s, ignoreDiags);
    if p.y == s.y1 && Min2(s.x1, s.x2) <= p.x <= Max2(s.x1, s.x2) {
      assert ps[p.x - Min2(s.x1, s.x2)] == p;
    }
    DistinctOnce(ps, p);
  }

  /** A vertical segment covers each cell of its column between its end points exactly once, |y2-y1|+1 cells in all. */
  lemma VerticalPoints(s: Segment, ignoreDiags: bool, p: Point)
    requires s.x1 == s.x2 && s.y1 != s.y2
    ensures |Points(s, ignoreDiags)| == Abs(s.x2 - s.x1) + Abs(s.y2 - s.y1) + 1
    ensures multiset(Points(s, ignoreDiags))[p] ==
              if p.x == s.x1 && Min2(s.y1, s.y2) <= p.y <= Max2(s.y1, s.y2) then 1 else 0
  {
    var ps := Points(s, ignoreDiags);
    if p.x == s.x1 && Min2(s.y1, s.y2) <= p.y <= Max2(s.y1, s.y2) {
      assert ps[p.y - Min2(s.y1, s.y2)] == p;
    }
    DistinctOnce(ps, p);
  }

  /** A diagonal is skipped entirely when diagonals are ignored. */
  lemma IgnoredDiagonal(s: Segment)
    requires IsDiagonal(s)
    ensures Points(s, true) == []
  {
  }

  /**
   * A diagonal that is drawn starts at its first end point, visits the two ranges in
   * step, stops after the shorter of them, and so ends at its second end point exactly
   * when it is at 45 degrees.
   */
  lemma DiagonalPoints(s: Segment)
    requires IsDiagonal(s)
    ensures var ps := Points(s, false);
      |ps| == Min2(Abs(s.x2 - s.x1), Abs(s.y2 - s.y1)) + 1 &&
      ps[0] == Point(s.x1, s.y1) &&
      (forall k :: 0 <= k < |ps| ==> ps[k] == Point(Walk(s.x1, s.x2, k), Walk(s.y1, s.y2, k))) &&
      (Abs(s.x2 - s.x1) == Abs(s.y2 - s.y1) ==> ps[|ps| - 1] == Point(s.x2, s.y2))
  {
  }

  /** Each drawn diagonal step moves one cell in x and one in y, and no cell is visited twice. */
  lemma DiagonalSteps(s: Segment)
    requires IsDiagonal(s)
    ensures var ps := Points(s, false);
      (forall k :: 0 < k < |ps| ==> Abs(ps[k].x - ps[k - 1].x) == 1 && Abs(ps[k].y - ps[k - 1].y) == 1) &&
      Distinct(ps)
  {
  }

  /** Every cell a segment visits lies between 0 and the larger end-point coordinate on each axis. */
  lemma PointsInBox(s: Segment, ignoreDiags: bool)
    ensures forall p :: p in Points(s, ignoreDiags) ==>
              0 <= p.x <= Max2(s.x1, s.x2) && 0 <= p.y <= Max2(s.y1, s.y2)
  {
  }

  // ---------------------------------------------------------------------------
  // read_input: the bounds of the field
  // ---------------------------------------------------------------------------

  /** `max_x`: the largest x end point, or 0. */
  function MaxX(segs: seq<Segment>): nat
  {
    if |segs| == 0 then 0
    else var s := segs[|segs| - 1]; Max2(MaxX(segs[..|segs| - 1]), Max2(s.x1, s.x2))
  }

  /** `max_y`: the largest y end point, or 0. */
  function MaxY(segs: seq<Segment>): nat
  {
    if |segs| == 0 then 0
    else var s := segs[|segs| - 1]; Max2(MaxY(segs[..|segs| - 1]), Max2(s.y1, s.y2))
  }

  /** Every end point is within the bounds, and each bound is 0 or an end point. */
  lemma {:induction false} MaxBounds(segs: seq<Segment>)
    ensures forall s :: s in segs ==> s.x1 <= MaxX(segs) && s.x2 <= MaxX(segs)
    ensures forall s :: s in segs ==> s.y1 <= MaxY(segs) && s.y2 <= MaxY(segs)
    ensures MaxX(segs) == 0 || exists s :: s in segs && (s.x1 == MaxX(segs) || s.x2 == MaxX(segs))
    ensures MaxY(segs) == 0 || exists s :: s in segs && (s.y1 == MaxY(segs) || s.y2 == MaxY(segs))
  {
    if |segs| > 0 {
      var init := segs[..|segs| - 1];
      assert segs == init + [segs[|segs| - 1]];
      MaxBounds(init);
    }
  }

  /** The bounds loop of `read_input`. */
  method ReadBounds(segs: seq<Segment>) returns (maxX: nat, maxY: nat)
    ensures maxX == MaxX(segs) && maxY == MaxY(segs)
  {
    maxX, maxY := 0, 0;
    for i := 0 to |segs|
      invariant maxX == MaxX(segs[..i]) && maxY == MaxY(segs[..i])
    {
      assert segs[..i + 1][..i] == segs[..i];
      var s := segs[i];
      maxX := Max2(maxX, Max2(s.x1, s.x2));
      maxY := Max2(maxY, Max2(s.y1, s.y2));
    }
    assert segs[..|segs|] == segs;
  }

  // ---------------------------------------------------------------------------
  // populate_field
  // ---------------------------------------------------------------------------

  /** How often each cell is covered by the segments: the multiset union of their cells. */
  function Coverage(segs: seq<Segment>, ignoreDiags: bool): multiset<Point>
  {
    if |segs| == 0 then multiset{}
    else Coverage(segs[..|segs| - 1], ignoreDiags) + multiset(Points(segs[|segs| - 1], ignoreDiags))
  }

  /** Every covered cell lies inside the field `read_input`'s bounds call for. */
  lemma {:induction false} CoverageInside(segs: seq<Segment>, ignoreDiags: bool)
    ensures forall p :: p in Coverage(segs, ignoreDiags) ==>
              0 <= p.x <= MaxX(segs) && 0 <= p.y <= MaxY(segs)
  {
    if |segs| > 0 {
      CoverageInside(segs[..|segs| - 1], ignoreDiags);
      PointsInBox(segs[|segs| - 1], ignoreDiags);
    }
  }

  /** Adding one segment never lowers a cell's cover count. */
  lemma CoverageGrows(segs: seq<Segment>, s: Segment, ignoreDiags: bool, p: Point)
    ensures Coverage(segs + [s], ignoreDiags)[p] >= Coverage(segs, ignoreDiags)[p]
  {
    assert (segs + [s])[..|segs|] == segs;
  }

  predicate FitsIn(s: Segment, field: array2<int>)
  {
    s.x1 < field.Length1 && s.x2 < field.Length1 && s.y1 < field.Length0 && s.y2 < field.Length0
  }

  /** The cells of one segment, each incremented once per visit. */
  method AddSegment(field: array2<int>, s: Segment, ignoreDiags: bool)
    requires FitsIn(s, field)
    modifies field
    ensures forall y, x :: 0 <= y < field.Length0 && 0 <= x < field.Length1 ==>
              field[y, x] == old(field[y, x]) + multiset(Points(s, ignoreDiags))[Point(x, y)]
  {
    var ps := Points(s, ignoreDiags);
    PointsInBox(s, ignoreDiags);
    for k := 0 to |ps|
      invariant forall y, x :: 0 <= y < field.Length0 && 0 <= x < field.Length1 ==>
                  field[y, x] == old(field[y, x]) + multiset(ps[..k])[Point(x, y)]
    {
      var p := ps[k];
      assert p in ps;
      assert ps[..k + 1] == ps[..k] + [p];
      field[p.y, p.x] := field[p.y, p.x] + 1;
    }
    assert ps[..|ps|] == ps;
  }

  /** `populate_field`: every cell ends up raised by its cover count. */
  method PopulateField(segs: seq<Segment>, field: array2<int>, ignoreDiags: bool)
    requires forall s :: s in segs ==> FitsIn(s, field)
    modifies field
    ensures forall y, x :: 0 <= y < field.Length0 && 0 <= x < field.Length1 ==>
              field[y, x] == old(field[y, x]) + Coverage(segs, ignoreDiags)[Point(x, y)]
  {
    for i := 0 to |segs|
      invariant forall y, x :: 0 <= y < field.Length0 && 0 <= x < field.Length1 ==>
                  field[y, x] == old(field[y, x]) + Coverage(segs[..i], ignoreDiags)[Point(x, y)]
    {
      assert segs[..i + 1][..i] == segs[..i];
      AddSegment(field, segs[i], ignoreDiags);
    }
    assert segs[..|segs|] == segs;
  }

  // ---------------------------------------------------------------------------
  // count_overlaps
  // ---------------------------------------------------------------------------

  /** The number of entries above 1 in one row. */
  function RowOverlaps(row: seq<int>): nat
  {
    if |row| == 0 then 0
    else RowOverlaps(row[..|row| - 1]) + if row[|row| - 1] > 1 then 1 else 0
  }

  /** The number of entries above 1 in a grid, row by row. */
  function GridOverlaps(grid: seq<seq<int>>): nat
  {
    if |grid| == 0 then 0
    else GridOverlaps(grid[..|grid| - 1]) + RowOverlaps(grid[|grid| - 1])
  }

  /** A row's overlap count is the number of its positions holding more than 1. */
  lemma {:induction false} RowOverlapsCounts(row: seq<int>)
    ensures RowOverlaps(row) == |set i | 0 <= i < |row| && row[i] > 1|
  {
    if |row| > 0 {
      var init := row[..|row| - 1];
      RowOverlapsCounts(init);
      var before := set i | 0 <= i < |init| && init[i] > 1;
      var after := set i | 0 <= i < |row| && row[i] > 1;
      if row[|row| - 1] > 1 {
        assert after == before + {|init|};
      } else {
        assert after == before;
      }
    }
  }

  /** The field as rows of counters. */
  function Rows(field: array2<int>): seq<seq<int>>
    reads field
  {
    seq(field.Length0, y requires 0 <= y < field.Length0 reads field =>
      seq(field.Length1, x requires 0 <= x < field.Length1 reads field => field[y, x]))
  }

  /** `count_overlaps`: the cells of the field holding more than 1. */
  method CountOverlaps(field: array2<int>) returns (n: nat)
    ensures n == GridOverlaps(Rows(field))
  {
    ghost var grid := Rows(field);
    n := 0;
    for y := 0 to field.Length0
      invariant n == GridOverlaps(grid[..y])
    {
      for x := 0 to field.Length1
        invariant n == GridOverlaps(grid[..y]) + RowOverlaps(grid[y][..x])
      {
        assert grid[y][..x + 1][..x] == grid[y][..x];
        if field[y, x] > 1 {
          n := n + 1;
        }
      }
      assert grid[y][..field.Length1] == grid[y];
      assert grid[..y + 1][..y] == grid[..y];
    }
    assert grid[..field.Length0] == grid;
  }

  // ---------------------------------------------------------------------------
  // part_a / part_b
  // ---------------------------------------------------------------------------

  /** The cover counts over the field `read_input`'s bounds call for, row by row. */
  function CoverGrid(segs: seq<Segment>, ignoreDiags: bool): seq<seq<int>>
  {
    var cov := Coverage(segs, ignoreDiags);
    seq(MaxY(segs) + 1, y => seq(MaxX(segs) + 1, x => cov[Point(x, y)]))
  }

  /** A field sized by the bounds and holding each cell's cover count reads as the cover grid. */
  lemma RowsAreCoverGrid(field: array2<int>, segs: seq<Segment>, ignoreDiags: bool)
    requires field.Length0 == MaxY(segs) + 1 && field.Length1 == MaxX(segs) + 1
    requires forall y, x :: 0 <= y < field.Length0 && 0 <= x < field.Length1 ==>
               field[y, x] == Coverage(segs, ignoreDiags)[Point(x, y)]
    ensures Rows(field) == CoverGrid(segs, ignoreDiags)
  {
    var cov := Coverage(segs, ignoreDiags);
    forall y | 0 <= y < field.Length0
      ensures Rows(field)[y] == CoverGrid(segs, ignoreDiags)[y]
    {
      forall x | 0 <= x < field.Length1
        ensures Rows(field)[y][x] == cov[Point(x, y)]
      {
      }
    }
  }

  /** `part_a`: the number of field cells covered by at least two segments. */
  method PartA(segs: seq<Segment>, ignoreDiags: bool) returns (r: nat)
    ensures r == GridOverlaps(CoverGrid(segs, ignoreDiags))
  {
    var maxX, maxY := ReadBounds(segs);
    MaxBounds(segs);
    var field := new int[maxY + 1, maxX + 1]((_, _) => 0);
    assert forall y, x :: 0 <= y <= maxY && 0 <= x <= maxX ==> field[y, x] == 0;
    assert forall s :: s in segs ==> FitsIn(s, field);
    PopulateField(segs, field, ignoreDiags);
    RowsAreCoverGrid(field, segs, ignoreDiags);
    r := CountOverlaps(field);
  }

  /** `part_b`: the same count with diagonals drawn. */
  method PartB(segs: seq<Segment>) returns (r: nat)
    ensures r == GridOverlaps(CoverGrid(segs, false))
  {
    r := PartA(segs, false);
  }
}
