/**
 * Day 9, smoke basins: a height grid of digits. The first part finds the low points, the
 * cells lower than every orthogonal neighbour, and sums their heights plus one. The second
 * flood-fills the basin around each low point, stopping at height 9, and multiplies the sizes
 * of the three largest basins.
 */
module Day09 {
  import opened Util
  import Sorting

  /** The height grid, `grid[row][col]`. */
  type Grid = seq<seq<int>>

  /** A cell position `(row_i, col_i)`. */
  type Pos = (nat, nat)

  // ---------------------------------------------------------------------------
  // Parsing
  // ---------------------------------------------------------------------------

  /**
   * `[int(h) for h in line]`: one digit per character, or ValueError. Only the ASCII digits
   * are read; `int` would also read the other Unicode decimal digits.
   */
  function ParseRow(line: string): (r: Result<seq<int>>)
    ensures r.Ok? <==> AllDigits(line)
    ensures r.Ok? ==> |r.value| == |line| && forall k :: 0 <= k < |line| ==> r.value[k] == DigitValue(line[k])
  {
    if |line| == 0 then Ok([])
    else
      match ParseRow(line[..|line| - 1])
      case Err(e) => Err(e)
      case Ok(init) =>
        var c := line[|line| - 1];
        if IsDigit(c) then Ok(init + [DigitValue(c)])
        else Err("ValueError: invalid literal for int() with base 10")
  }

  /** `[[int(h) for h in line] for line in lines]`. */
  function ParseGrid(lines: seq<string>): (r: Result<Grid>)
    ensures r.Ok? ==> |r.value| == |lines|
    ensures r.Ok? ==> forall k :: 0 <= k < |lines| ==> ParseRow(lines[k]) == Ok(r.value[k])
  {
    if |lines| == 0 then Ok([])
    else
      match ParseGrid(lines[..|lines| - 1])
      case Err(e) => Err(e)
      case Ok(init) =>
        match ParseRow(lines[|lines| - 1])
        case Err(e) => Err(e)
        case Ok(row) => Ok(init + [row])
  }

  // ---------------------------------------------------------------------------
  // Neighbours and low points
  // ---------------------------------------------------------------------------

  /** p lies in the grid: its row exists and its column is inside that row. */
  predicate IsCell(grid: Grid, p: Pos)
  {
    p.0 < |grid| && p.1 < |grid[p.0]|
  }

  /** Every row is as long as the first. */
  predicate Rectangular(grid: Grid)
  {
    forall r :: 0 <= r < |grid| ==> |grid[r]| == |grid[0]|
  }

  /** p and q are orthogonal neighbours. */
  predicate Adjacent(p: Pos, q: Pos)
  {
    (p.0 == q.0 && (p.1 == q.1 + 1 || q.1 == p.1 + 1)) || (p.1 == q.1 && (p.0 == q.0 + 1 || q.0 == p.0 + 1))
  }

  /**
   * `get_neighbors`: up, down, left and right, each when it lies inside the rows of the grid
   * and the columns of its first row.
   */
  function Neighbors(grid: Grid, r: nat, c: nat): seq<Pos>
    requires |grid| > 0
  {
    var up := if r > 0 then [(r - 1, c)] else [];
    var down := if r < |grid| - 1 then [(r + 1, c)] else [];
    var left := if c > 0 then [(r, c - 1)] else [];
    var right := if c < |grid[0]| - 1 then [(r, c + 1)] else [];
    up + down + left + right
  }

  /**
   * The neighbours are at most four distinct orthogonal neighbours inside the rows of the grid,
   * and they include every orthogonal neighbour inside the rows and the first row's columns.
   */
  lemma NeighborsMeaning(grid: Grid, r: nat, c: nat)
    requires r < |grid|
    ensures var ns := Neighbors(grid, r, c);
      && |ns| <= 4
      && (forall k :: 0 <= k < |ns| ==> Adjacent((r, c), ns[k]) && ns[k].0 < |grid|)
      && (forall q: Pos {:trigger Adjacent((r, c), q)} :: Adjacent((r, c), q) && q.0 < |grid| && q.1 < |grid[0]| ==> q in ns)
      && (forall i, j :: 0 <= i < j < |ns| ==> ns[i] != ns[j])
  {
  }

  /** `grid[nr_i][nc_i]`, which raises IndexError outside the grid. */
  function HeightAt(grid: Grid, p: Pos): (r: Result<int>)
    ensures r.Ok? <==> IsCell(grid, p)
    ensures r.Ok? ==> r.value == grid[p.0][p.1]
  {
    if IsCell(grid, p) then Ok(grid[p.0][p.1]) else Err("IndexError: list index out of range")
  }

  /** `[grid[nr_i][nc_i] for nr_i, nc_i in neighbors]`, failing at the first position outside the grid. */
  function Heights(grid: Grid, ps: seq<Pos>): Result<seq<int>>
  {
    if |ps| == 0 then Ok([])
    else
      match Heights(grid, ps[..|ps| - 1])
      case Err(e) => Err(e)
      case Ok(init) =>
        match HeightAt(grid, ps[|ps| - 1])
        case Err(e) => Err(e)
        case Ok(h) => Ok(init + [h])
  }

  /** The heights are read exactly when every position is a cell, and they are those cells' heights in order. */
  lemma {:induction false} HeightsMeaning(grid: Grid, ps: seq<Pos>)
    ensures var r := Heights(grid, ps);
      && (r.Ok? <==> forall k :: 0 <= k < |ps| ==> IsCell(grid, ps[k]))
      && (r.Ok? ==> |r.value| == |ps| && forall k :: 0 <= k < |ps| ==> r.value[k] == grid[ps[k].0][ps[k].1])
  {
    if |ps| > 0 {
      var init := ps[..|ps| - 1];
      HeightsMeaning(grid, init);
      assert forall k :: 0 <= k < |init| ==> ps[k] == init[k];
    }
  }

  /** `grid[row_i][col_i] < min(neighbor_heights)`; `min` of no neighbours raises ValueError. */
  function LowPointAt(grid: Grid, r: nat, c: nat): Result<bool>
    requires r < |grid| && c < |grid[r]|
  {
    match Heights(grid, Neighbors(grid, r, c))
    case Err(e) => Err(e)
    case Ok(hs) =>
      if |hs| == 0 then Err("ValueError: min() arg is an empty sequence")
      else Ok(grid[r][c] < Min(hs))
  }

  /** A low point is a cell strictly lower than every neighbour `get_neighbors` lists. */
  lemma LowPointMeans(grid: Grid, r: nat, c: nat)
    requires r < |grid| && c < |grid[r]| && LowPointAt(grid, r, c).Ok?
    ensures var ns := Neighbors(grid, r, c);
      LowPointAt(grid, r, c).value <==>
        forall k :: 0 <= k < |ns| ==> IsCell(grid, ns[k]) && grid[r][c] < grid[ns[k].0][ns[k].1]
  {
    var ns := Neighbors(grid, r, c);
    HeightsMeaning(grid, ns);
  }

  /** In a rectangular grid, a low point is a cell strictly lower than every orthogonal neighbour in the grid. */
  lemma LowPointIsLower(grid: Grid, r: nat, c: nat)
    requires Rectangular(grid) && r < |grid| && c < |grid[r]| && LowPointAt(grid, r, c).Ok?
    ensures LowPointAt(grid, r, c).value <==>
      forall q: Pos {:trigger Adjacent((r, c), q)} :: IsCell(grid, q) && Adjacent((r, c), q) ==> grid[r][c] < grid[q.0][q.1]
  {
    LowPointMeans(grid, r, c);
    NeighborsMeaning(grid, r, c);
    var ns := Neighbors(grid, r, c);
    forall q: Pos | IsCell(grid, q) && Adjacent((r, c), q)
      ensures q in ns
    {
      assert |grid[q.0]| == |grid[0]|;
    }
  }

  /** In a rectangular grid, every neighbour `get_neighbors` lists is a cell. */
  lemma NeighborsInGrid(grid: Grid, r: nat, c: nat)
    requires Rectangular(grid) && r < |grid| && c < |grid[r]|
    ensures var ns := Neighbors(grid, r, c); forall k :: 0 <= k < |ns| ==> IsCell(grid, ns[k])
  {
    var ns := Neighbors(grid, r, c);
    forall k | 0 <= k < |ns|
      ensures IsCell(grid, ns[k])
    {
      assert |grid[ns[k].0]| == |grid[0]| && |grid[r]| == |grid[0]|;
    }
  }

  /** In a rectangular grid that is not a single cell, every cell can be compared with its neighbours without raising. */
  lemma LowPointDefined(grid: Grid, r: nat, c: nat)
    requires Rectangular(grid) && r < |grid| && c < |grid[r]| && !(|grid| == 1 && |grid[0]| == 1)
    ensures LowPointAt(grid, r, c).Ok?
  {
    var ns := Neighbors(grid, r, c);
    NeighborsInGrid(grid, r, c);
    HeightsMeaning(grid, ns);
    assert |grid[r]| == |grid[0]|;
    assert |ns| > 0;
  }

  /** The tests of the first n cells of row r, or the error of the first test that raises. */
  function RowTests(grid: Grid, r: nat, n: nat): Result<seq<bool>>
    requires r < |grid| && n <= |grid[r]|
  {
    if n == 0 then Ok([])
    else
      match RowTests(grid, r, n - 1)
      case Err(e) => Err(e)
      case Ok(flags) =>
        match LowPointAt(grid, r, n - 1)
        case Err(e) => Err(e)
        case Ok(low) => Ok(flags + [low])
  }

  /** The positions (r, c) whose flag is set, in column order. */
  function Flagged(r: nat, flags: seq<bool>): seq<Pos>
  {
    if |flags| == 0 then []
    else Flagged(r, flags[..|flags| - 1]) + if flags[|flags| - 1] then [(r, |flags| - 1)] else []
  }

  /** The low points among the first n cells of row r, in column order. */
  function RowLowPoints(grid: Grid, r: nat, n: nat): Result<seq<Pos>>
    requires r < |grid| && n <= |grid[r]|
  {
    match RowTests(grid, r, n)
    case Err(e) => Err(e)
    case Ok(flags) => Ok(Flagged(r, flags))
  }

  /** The low points of the first m rows, row by row: what `get_local_mins` returns for m = len(grid). */
  function LowPoints(grid: Grid, m: nat): Result<seq<Pos>>
    requires m <= |grid|
  {
    if m == 0 then Ok([])
    else
      match LowPoints(grid, m - 1)
      case Err(e) => Err(e)
      case Ok(ms) =>
        match RowLowPoints(grid, m - 1, |grid[m - 1]|)
        case Err(e) => Err(e)
        case Ok(row) => Ok(ms + row)
  }

  /** The cell (r, c) tests as a low point. */
  predicate IsLowPoint(grid: Grid, r: nat, c: nat)
  {
    r < |grid| && c < |grid[r]| && LowPointAt(grid, r, c) == Ok(true)
  }

  /** The tests succeed with one flag per cell, each the verdict of that cell's test. */
  lemma {:induction false} RowTestsMeaning(grid: Grid, r: nat, n: nat)
    requires r < |grid| && n <= |grid[r]|
    ensures var res := RowTests(grid, r, n);
      res.Ok? ==> |res.value| == n && forall c :: 0 <= c < n ==> LowPointAt(grid, r, c) == Ok(res.value[c])
  {
    if n > 0 {
      RowTestsMeaning(grid, r, n - 1);
      match RowTests(grid, r, n - 1)
      case Err(_) =>
      case Ok(flags) =>
        match LowPointAt(grid, r, n - 1)
        case Err(_) =>
        case Ok(low) => assert RowTests(grid, r, n) == Ok(flags + [low]);
    }
  }

  /** The flagged positions lie in row r, in increasing column order, and are exactly the flagged columns. */
  lemma {:induction false} FlaggedMeaning(r: nat, flags: seq<bool>)
    ensures var ms := Flagged(r, flags);
      && (forall k :: 0 <= k < |ms| ==> ms[k].0 == r && ms[k].1 < |flags|)
      && (forall i, j :: 0 <= i < j < |ms| ==> ms[i].1 < ms[j].1)
      && (forall c {:trigger flags[c]} :: 0 <= c < |flags| ==> ((r, c) in ms <==> flags[c]))
  {
    if |flags| > 0 {
      var init, last := flags[..|flags| - 1], |flags| - 1;
      FlaggedMeaning(r, init);
      var ms, prev := Flagged(r, flags), Flagged(r, init);
      assert ms == prev + if flags[last] then [(r, last)] else [];
      forall c | 0 <= c < |flags|
        ensures (r, c) in ms <==> flags[c]
      {
        if c < last {
          assert flags[c] == init[c];
          assert (r, c) in ms <==> (r, c) in prev;
        } else {
          assert (r, c) !in prev;
        }
      }
    }
  }

  /** A cell of row r is listed exactly when it tests as a low point; the list is in row r, in column order. */
  lemma RowLowPointsMembers(grid: Grid, r: nat, n: nat)
    requires r < |grid| && n <= |grid[r]| && RowLowPoints(grid, r, n).Ok?
    ensures var ms := RowLowPoints(grid, r, n).value;
      && (forall k :: 0 <= k < |ms| ==> ms[k].0 == r && ms[k].1 < n)
      && (forall i, j :: 0 <= i < j < |ms| ==> ms[i].1 < ms[j].1)
      && (forall c {:trigger LowPointAt(grid, r, c)} :: 0 <= c < n ==> ((r, c) in ms <==> LowPointAt(grid, r, c) == Ok(true)))
  {
    RowTestsMeaning(grid, r, n);
    FlaggedMeaning(r, RowTests(grid, r, n).value);
  }

  /** A successful scan of one more row is the scan of the rows before it followed by that row's low points. */
  lemma LowPointsStep(grid: Grid, m: nat)
    requires m < |grid| && LowPoints(grid, m + 1).Ok?
    ensures LowPoints(grid, m).Ok? && RowLowPoints(grid, m, |grid[m]|).Ok?
    ensures LowPoints(grid, m + 1).value == LowPoints(grid, m).value + RowLowPoints(grid, m, |grid[m]|).value
  {
  }

  /** Every position listed for the first m rows is a cell of those rows that tests as a low point. */
  lemma {:induction false} LowPointsSound(grid: Grid, m: nat)
    requires m <= |grid| && LowPoints(grid, m).Ok?
    ensures var ms := LowPoints(grid, m).value;
      forall k :: 0 <= k < |ms| ==> ms[k].0 < m && IsLowPoint(grid, ms[k].0, ms[k].1)
  {
    if m > 0 {
      var last := m - 1;
      LowPointsStep(grid, last);
      var prev, row := LowPoints(grid, last).value, RowLowPoints(grid, last, |grid[last]|).value;
      var ms := LowPoints(grid, m).value;
      LowPointsSound(grid, last);
      RowLowPointsMembers(grid, last, |grid[last]|);
      forall k | |prev| <= k < |ms|
        ensures ms[k].0 < m && IsLowPoint(grid, ms[k].0, ms[k].1)
      {
        var p := row[k - |prev|];
        assert ms[k] == p && p == (last, p.1) && p in row;
      }
    }
  }

  /** Every cell of the first m rows that tests as a low point is listed. */
  lemma {:induction false} LowPointsComplete(grid: Grid, m: nat, r: nat, c: nat)
    requires m <= |grid| && LowPoints(grid, m).Ok? && r < m && IsLowPoint(grid, r, c)
    ensures (r, c) in LowPoints(grid, m).value
  {
    var last := m - 1;
    LowPointsStep(grid, last);
    var prev, row := LowPoints(grid, last).value, RowLowPoints(grid, last, |grid[last]|).value;
    if r < last {
      LowPointsComplete(grid, last, r, c);
      assert (r, c) in prev;
    } else {
      LowPointInRow(grid, last, c);
    }
  }

  /** A cell that tests as a low point is among its row's low points. */
  lemma LowPointInRow(grid: Grid, r: nat, c: nat)
    requires r < |grid| && RowLowPoints(grid, r, |grid[r]|).Ok? && IsLowPoint(grid, r, c)
    ensures (r, c) in RowLowPoints(grid, r, |grid[r]|).value
  {
    RowLowPointsMembers(grid, r, |grid[r]|);
  }

  /** When every cell before column n can be compared with its neighbours, the scan of the row succeeds. */
  lemma {:induction false} RowLowPointsOk(grid: Grid, r: nat, n: nat)
    requires r < |grid| && n <= |grid[r]|
    requires forall c :: 0 <= c < n ==> LowPointAt(grid, r, c).Ok?
    ensures RowTests(grid, r, n).Ok? && RowLowPoints(grid, r, n).Ok?
  {
    if n > 0 {
      RowLowPointsOk(grid, r, n - 1);
    }
  }

  /** In a rectangular grid that is not a single cell, the scan succeeds. */
  lemma {:induction false} LowPointsOk(grid: Grid, m: nat)
    requires m <= |grid| && Rectangular(grid) && !(|grid| == 1 && |grid[0]| == 1)
    ensures LowPoints(grid, m).Ok?
  {
    if m > 0 {
      LowPointsOk(grid, m - 1);
      var row := m - 1;
      forall c | 0 <= c < |grid[row]|
        ensures LowPointAt(grid, row, c).Ok?
      {
        LowPointDefined(grid, row, c);
      }
      RowLowPointsOk(grid, row, |grid[row]|);
    }
  }

  /** A single cell has no neighbours, and `min` of none raises. */
  lemma SingleCellRaises()
    ensures LowPoints([[5]], 1) == Err("ValueError: min() arg is an empty sequence")
  {
    assert Neighbors([[5]], 0, 0) == [];
  }

  /** An error in a row's scan is the error of every longer scan of that row. */
  lemma {:induction false} RowErrStays(grid: Grid, r: nat, c: nat, n: nat)
    requires r < |grid| && c <= n <= |grid[r]| && RowTests(grid, r, c).Err?
    ensures RowTests(grid, r, n) == RowTests(grid, r, c)
    decreases n - c
  {
    if n > c {
      RowErrStays(grid, r, c, n - 1);
    }
  }

  /** An error in the first rows' scan is the error of every longer scan. */
  lemma {:induction false} ErrStays(grid: Grid, m: nat, n: nat)
    requires m <= n <= |grid| && LowPoints(grid, m).Err?
    ensures LowPoints(grid, n) == LowPoints(grid, m)
    decreases n - m
  {
    if n > m {
      ErrStays(grid, m, n - 1);
      ErrStep(grid, n - 1);
    }
  }

  /** An error in the scan of the first m rows is the error of the scan of one more. */
  lemma ErrStep(grid: Grid, m: nat)
    requires m < |grid| && LowPoints(grid, m).Err?
    ensures LowPoints(grid, m + 1) == LowPoints(grid, m)
  {
  }

  /** The inner loop of `get_local_mins`, over one row. */
  method ScanRow(grid: Grid, r: nat) returns (res: Result<seq<Pos>>)
    requires r < |grid|
    ensures res == RowLowPoints(grid, r, |grid[r]|)
  {
    var mins: seq<Pos> := [];
    ghost var flags: seq<bool> := [];
    for c := 0 to |grid[r]|
      invariant RowTests(grid, r, c) == Ok(flags) && mins == Flagged(r, flags) && |flags| == c
    {
      var low := LowPointAt(grid, r, c);
      if low.Err? {
        RowErrStays(grid, r, c + 1, |grid[r]|);
        return Err(low.msg);
      }
      if low.value {
        mins := mins + [(r, c)];
      }
      flags := flags + [low.value];
      assert flags[..c] == flags[..|flags| - 1];
    }
    return Ok(mins);
  }

  /** `get_local_mins`: the low points, row by row, or the first error a test raises. */
  method GetLocalMins(grid: Grid) returns (res: Result<seq<Pos>>)
    ensures res == LowPoints(grid, |grid|)
  {
    var mins: seq<Pos> := [];
    for r := 0 to |grid|
      invariant LowPoints(grid, r) == Ok(mins)
    {
      var row := ScanRow(grid, r);
      if row.Err? {
        ErrStays(grid, r + 1, |grid|);
        return Err(row.msg);
      }
      mins := mins + row.value;
    }
    return Ok(mins);
  }

  // ---------------------------------------------------------------------------
  // Part A
  // ---------------------------------------------------------------------------

  /** Every position lies in the grid. */
  predicate AllCells(grid: Grid, ps: seq<Pos>)
  {
    forall k :: 0 <= k < |ps| ==> ps[k].0 < |grid| && ps[k].1 < |grid[ps[k].0]|
  }

  /** `[grid[row_i][col_i] + 1 for (row_i, col_i) in local_mins]`. */
  function RiskLevels(grid: Grid, ms: seq<Pos>): (r: seq<int>)
    requires AllCells(grid, ms)
    ensures |r| == |ms| && forall k :: 0 <= k < |ms| ==> r[k] == grid[ms[k].0][ms[k].1] + 1
  {
    seq(|ms|, k requires 0 <= k < |ms| => grid[ms[k].0][ms[k].1] + 1)
  }

  /** Heights are digits. */
  predicate DigitHeights(grid: Grid)
  {
    forall r, c :: 0 <= r < |grid| && 0 <= c < |grid[r]| ==> 0 <= grid[r][c] <= 9
  }

  /** Every parsed grid has digit heights. */
  lemma ParsedDigits(lines: seq<string>)
    requires ParseGrid(lines).Ok?
    ensures DigitHeights(ParseGrid(lines).value)
  {
    var grid := ParseGrid(lines).value;
    forall r, c | 0 <= r < |grid| && 0 <= c < |grid[r]|
      ensures 0 <= grid[r][c] <= 9
    {
      assert ParseRow(lines[r]) == Ok(grid[r]);
    }
  }

  /** With digit heights, each low point adds between 1 and 10 to the total risk. */
  lemma {:induction false} RiskBounds(grid: Grid, ms: seq<Pos>)
    requires DigitHeights(grid) && AllCells(grid, ms)
    ensures |ms| <= Sum(RiskLevels(grid, ms)) <= 10 * |ms|
  {
    if |ms| > 0 {
      var init := ms[..|ms| - 1];
      RiskBounds(grid, init);
      assert RiskLevels(grid, ms)[..|ms| - 1] == RiskLevels(grid, init);
    }
  }

  /** `part_a`: the sum of the risk levels of the low points. */
  method PartA(lines: seq<string>) returns (r: Result<int>)
    ensures ParseGrid(lines).Err? ==> r == Err(ParseGrid(lines).msg)
    ensures ParseGrid(lines).Ok? ==> var grid := ParseGrid(lines).value;
      && (LowPoints(grid, |grid|).Err? ==> r == Err(LowPoints(grid, |grid|).msg))
      && (LowPoints(grid, |grid|).Ok? ==> var ms := LowPoints(grid, |grid|).value;
            AllCells(grid, ms) && r == Ok(Sum(RiskLevels(grid, ms))))
  {
    var grid := ParseGrid(lines);
    if grid.Err? {
      return Err(grid.msg);
    }
    var mins := GetLocalMins(grid.value);
    if mins.Err? {
      return Err(mins.msg);
    }
    LowPointsSound(grid.value, |grid.value|);
    r := Ok(Sum(RiskLevels(grid.value, mins.value)));
  }

  // ---------------------------------------------------------------------------
  // Part B
  // ---------------------------------------------------------------------------

  /** Every cell of the grid. */
  function Cells(grid: Grid): set<Pos>
  {
    set r: nat, c: nat | r < |grid| && c < |grid[r]| :: (r, c)
  }

  /** Every cell is among the cells. */
  lemma InCells(grid: Grid, p: Pos)
    requires IsCell(grid, p)
    ensures p in Cells(grid)
  {
  }

  /** The flood never stops at q: q is a cell whose height is not 9. */
  predicate Floodable(grid: Grid, q: Pos)
  {
    IsCell(grid, q) && grid[q.0][q.1] != 9
  }

  /** Each neighbour of p that `get_neighbors` lists is in B or is a cell of height 9. */
  predicate ClosedAt(grid: Grid, p: Pos, B: set<Pos>)
    requires |grid| > 0
  {
    forall q {:trigger q in Neighbors(grid, p.0, p.1)} ::
      q in Neighbors(grid, p.0, p.1) ==> q in B || (IsCell(grid, q) && grid[q.0][q.1] == 9)
  }

  /**
   * A walk the flood can take from start: each step goes to a neighbour `get_neighbors`
   * lists, and every cell after the start is a cell whose height is not 9.
   */
  ghost predicate IsFloodPath(grid: Grid, start: Pos, path: seq<Pos>)
    decreases |path|
  {
    && |grid| > 0 && |path| > 0
    && if |path| == 1 then path[0] == start
       else
         var p, q := path[|path| - 2], path[|path| - 1];
         IsFloodPath(grid, start, path[..|path| - 1]) && q in Neighbors(grid, p.0, p.1) && Floodable(grid, q)
  }

  /** The flood from start can reach p. */
  ghost predicate Reaches(grid: Grid, start: Pos, p: Pos)
  {
    exists path {:trigger IsFloodPath(grid, start, path)} :: IsFloodPath(grid, start, path) && path[|path| - 1] == p
  }

  /** The start is reached by the walk that does not move. */
  lemma ReachesStart(grid: Grid, start: Pos)
    requires IsCell(grid, start)
    ensures Reaches(grid, start, start)
  {
    assert IsFloodPath(grid, start, [start]);
  }

  /** The flood reaches every listed neighbour not of height 9 of a position it reaches. */
  lemma ReachesStep(grid: Grid, start: Pos, p: Pos, q: Pos)
    requires Reaches(grid, start, p) && |grid| > 0 && q in Neighbors(grid, p.0, p.1) && Floodable(grid, q)
    ensures Reaches(grid, start, q)
  {
    var path :| IsFloodPath(grid, start, path) && path[|path| - 1] == p;
    var path' := path + [q];
    FloodPathSnoc(grid, start, path, q);
    assert IsFloodPath(grid, start, path') && path'[|path'| - 1] == q;
  }

  /** A flood walk extended by one step to a listed neighbour not of height 9. */
  lemma FloodPathSnoc(grid: Grid, start: Pos, path: seq<Pos>, q: Pos)
    requires IsFloodPath(grid, start, path)
    requires var p := path[|path| - 1]; q in Neighbors(grid, p.0, p.1) && Floodable(grid, q)
    ensures IsFloodPath(grid, start, path + [q]) && (path + [q])[|path + [q]| - 1] == q
  {
    assert (path + [q])[..|path|] == path;
  }

  /**
   * B is a basin grown from start: it holds start, every other member is a cell that is not
   * of height 9, every member is reached from start, and B is closed, so the flood from any
   * member reaches nothing outside it.
   */
  ghost predicate IsBasin(grid: Grid, start: Pos, B: set<Pos>)
  {
    && start in B
    && forall p {:trigger p in B} :: p in B ==> Member(grid, start, p) && ClosedAt(grid, p, B)
  }

  /** A basin is exactly what the flood from its low point can reach: its connected component. */
  lemma BasinIsComponent(grid: Grid, start: Pos, B: set<Pos>)
    requires IsBasin(grid, start, B)
    ensures forall p :: p in B <==> Reaches(grid, start, p)
  {
    forall p | Reaches(grid, start, p)
      ensures p in B
    {
      var path :| IsFloodPath(grid, start, path) && path[|path| - 1] == p;
      PathInBasin(grid, start, B, path);
    }
  }

  /** Every position along a flood walk lies in a basin holding its start. */
  lemma {:induction false} PathInBasin(grid: Grid, start: Pos, B: set<Pos>, path: seq<Pos>)
    requires IsBasin(grid, start, B) && IsFloodPath(grid, start, path)
    ensures path[|path| - 1] in B
    decreases |path|
  {
    if |path| > 1 {
      var init := path[..|path| - 1];
      PathInBasin(grid, start, B, init);
      var p, q := init[|init| - 1], path[|path| - 1];
      assert ClosedAt(grid, p, B);
      assert q in Neighbors(grid, p.0, p.1);
    }
  }

  /** A neighbour of a cell that is not itself a cell shows that the rows differ in length. */
  lemma OutsideMeansRagged(grid: Grid, p: Pos, q: Pos)
    requires IsCell(grid, p) && q in Neighbors(grid, p.0, p.1) && !IsCell(grid, q)
    ensures !Rectangular(grid)
  {
    if Rectangular(grid) {
      NeighborsInGrid(grid, p.0, p.1);
    }
  }

  /** The flood may hold p: p is a cell, the start or not of height 9, and reached from the start. */
  ghost predicate Member(grid: Grid, start: Pos, p: Pos)
  {
    IsCell(grid, p) && (p == start || grid[p.0][p.1] != 9) && Reaches(grid, start, p)
  }

  /**
   * The inner loop of the flood fill in `part_b`, for the neighbours ns of a position just
   * visited: queue each neighbour that is neither visited nor queued and whose height is not 9.
   * Reading the height of a neighbour outside a short row raises IndexError.
   */
  method QueueNeighbors(grid: Grid, start: Pos, p: Pos, visited: set<Pos>, toVisit: set<Pos>)
    returns (res: Result<set<Pos>>)
    requires IsCell(grid, p) && p in visited && toVisit !! visited
    requires forall x :: x in visited + toVisit ==> Member(grid, start, x)
    ensures res.Ok? ==> toVisit <= res.value && res.value !! visited
    ensures res.Ok? ==> forall x :: x in res.value ==> Member(grid, start, x)
    ensures res.Ok? ==> ClosedAt(grid, p, visited + res.value)
    ensures res.Err? ==> res.msg == "IndexError: list index out of range" && !Rectangular(grid)
  {
    var ns := Neighbors(grid, p.0, p.1);
    var queued := toVisit;
    assert p in visited + toVisit;
    assert Reaches(grid, start, p);
    for j := 0 to |ns|
      invariant toVisit <= queued && queued !! visited
      invariant forall x :: x in queued ==> Member(grid, start, x)
      invariant forall i :: 0 <= i < j ==> ns[i] in visited + queued || (IsCell(grid, ns[i]) && grid[ns[i].0][ns[i].1] == 9)
    {
      var q := ns[j];
      if q !in visited && q !in queued {
        if !IsCell(grid, q) {
          OutsideMeansRagged(grid, p, q);
          return Err("IndexError: list index out of range");
        }
        if grid[q.0][q.1] != 9 {
          ReachesStep(grid, start, p, q);
          queued := queued + {q};
        }
      }
    }
    return Ok(queued);
  }

  /** Adding members to the flood keeps every visited position closed. */
  lemma ClosedGrows(grid: Grid, visited: set<Pos>, A: set<Pos>, B: set<Pos>)
    requires A <= B
    requires forall x :: x in visited ==> IsCell(grid, x) && ClosedAt(grid, x, A)
    ensures forall x :: x in visited ==> IsCell(grid, x) && ClosedAt(grid, x, B)
  {
  }

  /** The flood's state: visited and still to visit are disjoint, and both hold only possible members. */
  ghost predicate FloodState(grid: Grid, start: Pos, visited: set<Pos>, toVisit: set<Pos>)
  {
    && toVisit !! visited
    && start in visited + toVisit
    && (forall x :: x in visited + toVisit ==> Member(grid, start, x))
    && (forall x :: x in visited ==> ClosedAt(grid, x, visited + toVisit))
  }

  /** One round of the flood: pop p from the positions to visit, mark it visited and queue its neighbours. */
  method Visit(grid: Grid, start: Pos, visited: set<Pos>, toVisit: set<Pos>, p: Pos)
    returns (res: Result<set<Pos>>)
    requires FloodState(grid, start, visited, toVisit) && p in toVisit
    ensures res.Ok? ==> FloodState(grid, start, visited + {p}, res.value)
    ensures res.Err? ==> res.msg == "IndexError: list index out of range" && !Rectangular(grid)
  {
    var rest := toVisit - {p};
    res := QueueNeighbors(grid, start, p, visited + {p}, rest);
    if res.Ok? {
      ClosedGrows(grid, visited, visited + toVisit, visited + {p} + res.value);
    }
  }

  /** Visiting a cell not visited before leaves fewer cells unvisited. */
  lemma FewerLeft(cells: set<Pos>, visited: set<Pos>, p: Pos)
    requires p in cells && p !in visited
    ensures |cells - (visited + {p})| < |cells - visited|
  {
    assert cells - visited == (cells - (visited + {p})) + {p};
  }

  /** A flood state after its last round is a basin. */
  lemma FloodDone(grid: Grid, start: Pos, visited: set<Pos>)
    requires FloodState(grid, start, visited, {})
    ensures IsBasin(grid, start, visited)
  {
    assert visited + {} == visited;
  }

  /**
   * The flood fill of `part_b` from one low point: while positions remain to visit, pop any of
   * them, mark it visited and queue its neighbours. The result is the set of visited positions.
   */
  method Flood(grid: Grid, start: Pos) returns (res: Result<set<Pos>>)
    requires IsCell(grid, start)
    ensures res.Ok? ==> IsBasin(grid, start, res.value)
    ensures res.Ok? ==> forall p :: p in res.value <==> Reaches(grid, start, p)
    ensures res.Err? ==> res.msg == "IndexError: list index out of range" && !Rectangular(grid)
  {
    var toVisit: set<Pos> := {start};
    var visited: set<Pos> := {};
    ReachesStart(grid, start);
    ghost var cells := Cells(grid);
    while toVisit != {}
      invariant FloodState(grid, start, visited, toVisit)
      invariant forall x :: x in visited ==> x in cells
      decreases |cells - visited|
    {
      var p :| p in toVisit;
      var queued := Visit(grid, start, visited, toVisit, p);
      if queued.Err? {
        return Err(queued.msg);
      }
      InCells(grid, p);
      FewerLeft(cells, visited, p);
      visited, toVisit := visited + {p}, queued.value;
    }
    FloodDone(grid, start, visited);
    BasinIsComponent(grid, start, visited);
    return Ok(visited);
  }

  /** A basin holds its low point, so its size is at least 1. */
  lemma BasinSize(grid: Grid, start: Pos, B: set<Pos>)
    requires IsBasin(grid, start, B)
    ensures |B| >= 1
  {
    assert B == (B - {start}) + {start};
  }

  /** `math.prod`: the product of the elements, 1 for none. */
  function Product(xs: seq<int>): int
  {
    if |xs| == 0 then 1 else Product(xs[..|xs| - 1]) * xs[|xs| - 1]
  }

  /** `xs[-3:]`: the last three elements, or all of them when there are fewer. */
  function LastThree(xs: seq<int>): (r: seq<int>)
    ensures |r| == if |xs| < 3 then |xs| else 3
    ensures r == xs[|xs| - |r|..]
  {
    if |xs| <= 3 then xs else xs[|xs| - 3..]
  }

  /** The sizes of the basins, in order. */
  function Sizes(basins: seq<set<Pos>>): (sizes: seq<int>)
    ensures |sizes| == |basins| && forall k :: 0 <= k < |basins| ==> sizes[k] == |basins[k]|
  {
    seq(|basins|, k requires 0 <= k < |basins| => |basins[k]|)
  }

  /** `basin_sizes.sort()` then `math.prod(basin_sizes[-3:])`. */
  function TopThreeProduct(sizes: seq<int>): int
  {
    Product(LastThree(Sorting.Sort(sizes)))
  }

  /** A product of positive numbers is positive. */
  lemma {:induction false} ProductPositive(xs: seq<int>)
    requires forall k :: 0 <= k < |xs| ==> xs[k] >= 1
    ensures Product(xs) >= 1
  {
    if |xs| > 0 {
      ProductPositive(xs[..|xs| - 1]);
    }
  }

  /** When every basin has a cell, the answer is at least 1. */
  lemma TopThreePositive(sizes: seq<int>)
    requires forall k :: 0 <= k < |sizes| ==> sizes[k] >= 1
    ensures TopThreeProduct(sizes) >= 1
  {
    var t := Sorting.Sort(sizes);
    forall k | 0 <= k < |t|
      ensures t[k] >= 1
    {
      assert t[k] in multiset(t);
    }
    ProductPositive(LastThree(t));
  }

  /** The product of three elements, multiplied left to right. */
  lemma ProductOfThree(a: int, b: int, c: int)
    ensures Product([a, b, c]) == a * b * c
  {
    assert [a, b, c][..2] == [a, b] && [a, b][..1] == [a] && [a][..0] == [];
    assert Product([a]) == a;
    assert Product([a, b]) == a * b;
  }

  /** In an ascending sequence of three or more, the last three are its largest. */
  lemma LastThreeOfSorted(t: seq<int>)
    requires Sorting.Sorted(t) && |t| >= 3
    ensures var n := |t|;
      && Product(LastThree(t)) == t[n - 3] * t[n - 2] * t[n - 1]
      && t[n - 3] <= t[n - 2] <= t[n - 1]
      && forall k :: 0 <= k < n - 3 ==> t[k] <= t[n - 3]
  {
    var n := |t|;
    assert LastThree(t) == [t[n - 3], t[n - 2], t[n - 1]];
    ProductOfThree(t[n - 3], t[n - 2], t[n - 1]);
  }

  /**
   * With three basins or more, the answer is the product of the last three sorted sizes, and
   * every size before them is at most the smallest of the three.
   */
  lemma TopThreeLargest(sizes: seq<int>)
    requires |sizes| >= 3
    ensures var t := Sorting.Sort(sizes); var n := |t|;
      && multiset(t) == multiset(sizes)
      && TopThreeProduct(sizes) == t[n - 3] * t[n - 2] * t[n - 1]
      && t[n - 3] <= t[n - 2] <= t[n - 1]
      && forall k :: 0 <= k < n - 3 ==> t[k] <= t[n - 3]
  {
    LastThreeOfSorted(Sorting.Sort(sizes));
  }

  /** The basins of the listed low points, grown one after the other; the first flood that raises ends the scan. */
  method FloodAll(grid: Grid, mins: seq<Pos>) returns (res: Result<seq<int>>, ghost basins: seq<set<Pos>>)
    requires AllCells(grid, mins)
    ensures res.Ok? ==> |basins| == |mins| && res.value == Sizes(basins)
    ensures res.Ok? ==> forall k :: 0 <= k < |mins| ==> IsBasin(grid, mins[k], basins[k])
    ensures res.Err? ==> !Rectangular(grid)
  {
    var sizes: seq<int> := [];
    basins := [];
    for k := 0 to |mins|
      invariant |basins| == k && sizes == Sizes(basins)
      invariant forall i :: 0 <= i < k ==> IsBasin(grid, mins[i], basins[i])
    {
      var basin := Flood(grid, mins[k]);
      if basin.Err? {
        return Err(basin.msg), basins;
      }
      basins := basins + [basin.value];
      sizes := sizes + [|basin.value|];
    }
    return Ok(sizes), basins;
  }

  /** `part_b`: the product of the sizes of the three largest basins. */
  method PartB(lines: seq<string>) returns (r: Result<int>, ghost basins: seq<set<Pos>>)
    ensures ParseGrid(lines).Err? ==> r == Err(ParseGrid(lines).msg)
    ensures ParseGrid(lines).Ok? ==> var grid := ParseGrid(lines).value;
      && (LowPoints(grid, |grid|).Err? ==> r == Err(LowPoints(grid, |grid|).msg))
      && (LowPoints(grid, |grid|).Ok? && Rectangular(grid) ==> r.Ok?)
      && (r.Ok? ==> var ms := LowPoints(grid, |grid|).value;
            && |basins| == |ms|
            && (forall k :: 0 <= k < |ms| ==> IsBasin(grid, ms[k], basins[k]))
            && r.value == TopThreeProduct(Sizes(basins))
            && r.value >= 1)
  {
    basins := [];
    var grid := ParseGrid(lines);
    if grid.Err? {
      return Err(grid.msg), basins;
    }
    var mins := GetLocalMins(grid.value);
    if mins.Err? {
      return Err(mins.msg), basins;
    }
    LowPointsSound(grid.value, |grid.value|);
    var sizes;
    sizes, basins := FloodAll(grid.value, mins.value);
    if sizes.Err? {
      return Err(sizes.msg), basins;
    }
    forall k | 0 <= k < |basins|
      ensures sizes.value[k] >= 1
    {
      BasinSize(grid.value, mins.value[k], basins[k]);
    }
    TopThreePositive(sizes.value);
    var sorted := Sorting.Sort(sizes.value);
    r := Ok(Product(LastThree(sorted)));
  }
}
