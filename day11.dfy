/**
 * Day 11, dumbo octopuses: a grid of octopuses, each with an energy level. In every step
 * each octopus gains one energy; any with energy at least ten flashes, which resets it to
 * zero and gives one energy to each of its (up to eight) neighbours, possibly making them
 * flash in turn. An octopus flashes at most once per step. The first part counts the
 * flashes over a hundred steps, the second finds the first step in which all flash.
 */
module Day11 {
  import opened Util
  import Day09

  /** The number of steps of the first part. */
  const NUM_STEPS: nat := 100

  /** The energy at which an octopus flashes. */
  const FLASH_ENERGY: int := 10

  // ---------------------------------------------------------------------------
  // The grid's shape: flattening and the neighbour wiring, on plain sequences
  // ---------------------------------------------------------------------------

  /** `itertools.chain(*rows)`: the rows one after the other. */
  function Flatten<T>(rows: seq<seq<T>>): seq<T>
  {
    if |rows| == 0 then [] else Flatten(rows[..|rows| - 1]) + rows[|rows| - 1]
  }

  /** (r, c) is a cell of the grid. */
  predicate InGrid<T>(rows: seq<seq<T>>, r: nat, c: nat)
  {
    r < |rows| && c < |rows[r]|
  }

  /** Flattening keeps exactly the cells of the grid. */
  lemma {:induction false} FlattenMembers<T>(rows: seq<seq<T>>)
    ensures forall r: nat, c: nat {:trigger rows[r][c]} :: InGrid(rows, r, c) ==> rows[r][c] in Flatten(rows)
    ensures forall x :: x in Flatten(rows) ==> exists r: nat, c: nat {:trigger rows[r][c]} :: InGrid(rows, r, c) && rows[r][c] == x
  {
    if |rows| > 0 {
      var init := rows[..|rows| - 1];
      FlattenMembers(init);
      assert forall r :: 0 <= r < |init| ==> init[r] == rows[r];
    }
  }

  /** No cell of the grid holds the same element as another. */
  ghost predicate Distinct2D<T>(rows: seq<seq<T>>)
  {
    forall r: nat, c: nat, r2: nat, c2: nat {:trigger rows[r][c], rows[r2][c2]} ::
      InGrid(rows, r, c) && InGrid(rows, r2, c2) && rows[r][c] == rows[r2][c2] ==> r == r2 && c == c2
  }

  /** A grid whose cells are distinct flattens to a sequence without repeats. */
  lemma {:induction false} FlattenDistinct<T>(rows: seq<seq<T>>)
    requires Distinct2D(rows)
    ensures Distinct(Flatten(rows))
  {
    if |rows| > 0 {
      var init, last := rows[..|rows| - 1], rows[|rows| - 1];
      assert forall r :: 0 <= r < |init| ==> init[r] == rows[r];
      assert Distinct2D(init);
      FlattenDistinct(init);
      FlattenMembers(init);
      var f := Flatten(rows);
      var n := |Flatten(init)|;
      forall i, j | 0 <= i < j < |f|
        ensures f[i] != f[j]
      {
        if j >= n {
          assert f[j] == rows[|rows| - 1][j - n];
          if i >= n {
            assert f[i] == rows[|rows| - 1][i - n];
          } else {
            assert f[i] in Flatten(init);
          }
        }
      }
    }
  }

  /** `row[max(0, c - 1):c + 2]`: the up to three entries around column c, clipped to the row. */
  function Around<T>(row: seq<T>, c: nat): seq<T>
  {
    var lo := if c == 0 then 0 else c - 1;
    var hi := if c + 2 <= |row| then c + 2 else |row|;
    if lo <= hi then row[lo..hi] else []
  }

  /** The row above, around column c (lines 69-70). */
  function Above<T>(rows: seq<seq<T>>, r: nat, c: nat): seq<T>
    requires r < |rows|
  {
    if r > 0 then Around(rows[r - 1], c) else []
  }

  /** The row below, around column c (lines 71-72). */
  function Below<T>(rows: seq<seq<T>>, r: nat, c: nat): seq<T>
    requires r < |rows|
  {
    if r < |rows| - 1 then Around(rows[r + 1], c) else []
  }

  /** The cell to the left and the cell to the right in the same row (lines 73-76). */
  function Beside<T>(rows: seq<seq<T>>, r: nat, c: nat): seq<T>
    requires InGrid(rows, r, c)
  {
    (if c > 0 then [rows[r][c - 1]] else []) + (if c < |rows[r]| - 1 then [rows[r][c + 1]] else [])
  }

  /** The neighbours the constructor wires to cell (r, c), in its order. */
  function NeighborsOf<T>(rows: seq<seq<T>>, r: nat, c: nat): seq<T>
    requires InGrid(rows, r, c)
  {
    Above(rows, r, c) + Below(rows, r, c) + Beside(rows, r, c)
  }

  /** (r2, c2) is one of the eight cells around (r, c). */
  predicate Touching(r: nat, c: nat, r2: nat, c2: nat)
  {
    (r2 != r || c2 != c) && r2 <= r + 1 && r <= r2 + 1 && c2 <= c + 1 && c <= c2 + 1
  }

  /** The entries around c are exactly those of the row at most one column from c, each once if the row has no repeats. */
  lemma AroundMembers<T>(row: seq<T>, c: nat)
    ensures |Around(row, c)| <= 3
    ensures forall c2: nat {:trigger row[c2]} :: c2 < |row| && c2 <= c + 1 && c <= c2 + 1 ==> row[c2] in Around(row, c)
    ensures forall x :: x in Around(row, c) ==> exists c2: nat {:trigger row[c2]} :: c2 < |row| && c2 <= c + 1 && c <= c2 + 1 && row[c2] == x
    ensures Distinct(row) ==> Distinct(Around(row, c))
  {
    var lo := if c == 0 then 0 else c - 1;
    var hi := if c + 2 <= |row| then c + 2 else |row|;
    if lo <= hi {
      assert forall c2: nat :: lo <= c2 < hi ==> row[c2] == row[lo..hi][c2 - lo];
      assert forall k :: 0 <= k < hi - lo ==> row[lo..hi][k] == row[lo + k];
    }
  }

  /** Every cell among the eight around (r, c) is wired to it. */
  lemma NeighborsComplete<T>(rows: seq<seq<T>>, r: nat, c: nat)
    requires InGrid(rows, r, c)
    ensures forall r2: nat, c2: nat {:trigger rows[r2][c2]} ::
      InGrid(rows, r2, c2) && Touching(r, c, r2, c2) ==> rows[r2][c2] in NeighborsOf(rows, r, c)
  {
    if r > 0 { AroundMembers(rows[r - 1], c); }
    if r < |rows| - 1 { AroundMembers(rows[r + 1], c); }
    forall r2: nat, c2: nat | InGrid(rows, r2, c2) && Touching(r, c, r2, c2)
      ensures rows[r2][c2] in NeighborsOf(rows, r, c)
    {
      if r2 + 1 == r {
        assert rows[r2][c2] in Above(rows, r, c);
      } else if r2 == r + 1 {
        assert rows[r2][c2] in Below(rows, r, c);
      } else {
        assert rows[r2][c2] in Beside(rows, r, c);
      }
    }
  }

  /** Everything wired to (r, c) is a cell among the eight around it. */
  lemma NeighborsSound<T>(rows: seq<seq<T>>, r: nat, c: nat)
    requires InGrid(rows, r, c)
    ensures forall x :: x in NeighborsOf(rows, r, c) ==>
      exists r2: nat, c2: nat {:trigger rows[r2][c2]} :: InGrid(rows, r2, c2) && Touching(r, c, r2, c2) && rows[r2][c2] == x
  {
    forall x | x in NeighborsOf(rows, r, c)
      ensures exists r2: nat, c2: nat {:trigger rows[r2][c2]} :: InGrid(rows, r2, c2) && Touching(r, c, r2, c2) && rows[r2][c2] == x
    {
      if x in Above(rows, r, c) {
        AroundMembers(rows[r - 1], c);
        var c2: nat :| c2 < |rows[r - 1]| && c2 <= c + 1 && c <= c2 + 1 && rows[r - 1][c2] == x;
        assert InGrid(rows, r - 1, c2) && Touching(r, c, r - 1, c2);
      } else if x in Below(rows, r, c) {
        AroundMembers(rows[r + 1], c);
        var c2: nat :| c2 < |rows[r + 1]| && c2 <= c + 1 && c <= c2 + 1 && rows[r + 1][c2] == x;
        assert InGrid(rows, r + 1, c2) && Touching(r, c, r + 1, c2);
      } else if c > 0 && x == rows[r][c - 1] {
        assert InGrid(rows, r, c - 1) && Touching(r, c, r, c - 1);
      } else {
        assert InGrid(rows, r, c + 1) && Touching(r, c, r, c + 1);
      }
    }
  }

  /** With distinct cells, the row above shares nothing with the row below, the same row or the cell itself. */
  lemma AboveApart<T>(rows: seq<seq<T>>, r: nat, c: nat)
    requires InGrid(rows, r, c) && Distinct2D(rows)
    ensures Distinct(Above(rows, r, c))
    ensures forall x :: x in Above(rows, r, c) ==> x !in Below(rows, r, c) + Beside(rows, r, c) && x != rows[r][c]
  {
    if r > 0 {
      AroundMembers(rows[r - 1], c);
      assert Distinct(rows[r - 1]);
      forall x | x in Above(rows, r, c)
        ensures x !in Below(rows, r, c) + Beside(rows, r, c) && x != rows[r][c]
      {
        var c2: nat :| c2 < |rows[r - 1]| && c2 <= c + 1 && c <= c2 + 1 && rows[r - 1][c2] == x;
        if r < |rows| - 1 {
          AroundMembers(rows[r + 1], c);
        }
      }
    }
  }

  /** With distinct cells, the row below shares nothing with the same row or the cell itself. */
  lemma BelowApart<T>(rows: seq<seq<T>>, r: nat, c: nat)
    requires InGrid(rows, r, c) && Distinct2D(rows)
    ensures Distinct(Below(rows, r, c))
    ensures forall x :: x in Below(rows, r, c) ==> x !in Beside(rows, r, c) && x != rows[r][c]
  {
    if r < |rows| - 1 {
      AroundMembers(rows[r + 1], c);
      assert Distinct(rows[r + 1]);
      forall x | x in Below(rows, r, c)
        ensures x !in Beside(rows, r, c) && x != rows[r][c]
      {
        var c3: nat :| c3 < |rows[r + 1]| && c3 <= c + 1 && c <= c3 + 1 && rows[r + 1][c3] == x;
      }
    }
  }

  /** With distinct cells, no neighbour is wired twice and a cell is not its own neighbour. */
  lemma NeighborsDistinct<T>(rows: seq<seq<T>>, r: nat, c: nat)
    requires InGrid(rows, r, c) && Distinct2D(rows)
    ensures rows[r][c] !in NeighborsOf(rows, r, c) && Distinct(NeighborsOf(rows, r, c))
  {
    var a, b, s := Above(rows, r, c), Below(rows, r, c), Beside(rows, r, c);
    AboveApart(rows, r, c);
    BelowApart(rows, r, c);
    assert rows[r][c] !in s;
    ConcatDistinct(b, s);
    ConcatDistinct(a, b + s);
    assert a + b + s == a + (b + s);
  }

  /**
   * The wiring of lines 68-77: the neighbours of a cell are exactly the cells of the grid
   * among the eight around it, at most eight of them; with distinct cells none of them is
   * the cell itself and none is wired twice.
   */
  lemma NeighborsMeaning<T>(rows: seq<seq<T>>, r: nat, c: nat)
    requires InGrid(rows, r, c)
    ensures forall r2: nat, c2: nat {:trigger rows[r2][c2]} ::
      InGrid(rows, r2, c2) && Touching(r, c, r2, c2) ==> rows[r2][c2] in NeighborsOf(rows, r, c)
    ensures forall x :: x in NeighborsOf(rows, r, c) ==>
      exists r2: nat, c2: nat {:trigger rows[r2][c2]} :: InGrid(rows, r2, c2) && Touching(r, c, r2, c2) && rows[r2][c2] == x
    ensures |NeighborsOf(rows, r, c)| <= 8
    ensures Distinct2D(rows) ==> rows[r][c] !in NeighborsOf(rows, r, c) && Distinct(NeighborsOf(rows, r, c))
  {
    NeighborsComplete(rows, r, c);
    NeighborsSound(rows, r, c);
    if r > 0 { AroundMembers(rows[r - 1], c); }
    if r < |rows| - 1 { AroundMembers(rows[r + 1], c); }
    if Distinct2D(rows) {
      NeighborsDistinct(rows, r, c);
    }
  }

  /** Every octopus of `all` has all its neighbours in `all`. */
  ghost predicate Wired(all: set<Octopus>)
    reads all
  {
    forall o, k :: o in all && 0 <= k < |o.neighbors| ==> o.neighbors[k] in all
  }

  /** An octopus that flashed in this step rests at zero energy. */
  ghost predicate Settled(all: set<Octopus>)
    reads all
  {
    forall o :: o in all && o.flashedThisStep ==> o.energy == 0
  }

  /** The octopuses that have not flashed yet in this step. */
  ghost function Unflashed(all: set<Octopus>): set<Octopus>
    reads all
  {
    set o | o in all && !o.flashedThisStep
  }

  /**
   * What a flash cascade may do to the octopuses of `all`: nobody is rewired, an octopus
   * that had flashed is left alone, one that flashes now rests at zero with one more
   * flash on its counter, and one that still has not flashed only gained energy, and
   * never enough to flash unless it already had that much.
   */
  twostate predicate Cascaded(all: set<Octopus>)
    reads all
  {
    forall o :: o in all ==>
      && o.neighbors == old(o.neighbors)
      && (old(o.flashedThisStep) ==>
            o.flashedThisStep && o.energy == old(o.energy) && o.flashes == old(o.flashes))
      && (!old(o.flashedThisStep) && o.flashedThisStep ==>
            o.energy == 0 && o.flashes == old(o.flashes) + 1)
      && (!o.flashedThisStep ==>
            o.flashes == old(o.flashes) && old(o.energy) <= o.energy &&
            (o.energy >= FLASH_ENERGY ==> o.energy == old(o.energy)))
  }

  /** A smaller set of octopuses is a set with fewer of them. */
  lemma {:induction false} FewerUnflashed(small: set<Octopus>, big: set<Octopus>, gone: Octopus)
    requires small <= big && gone in big && gone !in small
    ensures |small| < |big|
    decreases |small|
  {
    if small != {} {
      var x :| x in small;
      FewerUnflashed(small - {x}, big - {x}, gone);
    }
  }

  /** One octopus: `Qctopus`. */
  class Octopus {
    var energy: int
    var flashes: nat
    var flashedThisStep: bool
    var neighbors: seq<Octopus>

    /** A fresh octopus with the given energy, no flashes and no neighbours yet. */
    constructor (energy: int)
      ensures this.energy == energy && flashes == 0 && !flashedThisStep && neighbors == []
    {
      this.energy := energy;
      flashes := 0;
      flashedThisStep := false;
      neighbors := [];
    }

    /** `start_step_and_add_energy`: a new step begins, the octopus has not flashed and gains one energy. */
    method StartStepAndAddEnergy()
      modifies this
      ensures !flashedThisStep && energy == old(energy) + 1
      ensures flashes == old(flashes) && neighbors == old(neighbors)
    {
      flashedThisStep := false;
      energy := energy + 1;
    }

    /**
     * `think_about_flashing`: an octopus that has not flashed yet gains one energy if a
     * neighbour just flashed, and flashes if its energy has reached `FLASH_ENERGY`. One
     * that already flashed is left as it is, and so is everything else.
     */
    method ThinkAboutFlashing(neighborJustFlashed: bool, ghost all: set<Octopus>)
      requires this in all && Wired(all) && Settled(all)
      modifies all
      ensures Wired(all) && Settled(all) && Cascaded(all)
      ensures flashedThisStep || energy < FLASH_ENERGY
      ensures old(flashedThisStep) ==> unchanged(all)
      ensures !old(flashedThisStep) && old(energy) + (if neighborJustFlashed then 1 else 0) >= FLASH_ENERGY ==>
                flashedThisStep
      ensures !flashedThisStep ==> energy == old(energy) + if neighborJustFlashed then 1 else 0
      decreases |Unflashed(all)|, 1
    {
      if !flashedThisStep {
        ghost var waiting := Unflashed(all);
        if neighborJustFlashed {
          energy := energy + 1;
        }
        if energy >= FLASH_ENERGY {
          assert Unflashed(all) == waiting;
          Flash(all);
        }
      }
    }

    /**
     * `flash`: one more flash, the octopus rests at zero for the rest of the step, and
     * every neighbour is told, in order, that a neighbour just flashed.
     */
    method Flash(ghost all: set<Octopus>)
      requires this in all && Wired(all) && Settled(all) && !flashedThisStep
      modifies all
      ensures Wired(all) && Settled(all) && Cascaded(all)
      ensures flashedThisStep && energy == 0 && flashes == old(flashes) + 1
      decreases |Unflashed(all)|, 0
    {
      flashes := flashes + 1;
      flashedThisStep := true;
      energy := 0;
      ghost var left := Unflashed(all);
      assert left <= old(Unflashed(all)) && this in old(Unflashed(all));
      var ns := neighbors;
      for k := 0 to |ns|
        invariant Wired(all) && Settled(all) && Cascaded(all) && flashedThisStep
        invariant Unflashed(all) <= left && ns == neighbors
      {
        assert ns[k] in all;
        FewerUnflashed(Unflashed(all), old(Unflashed(all)), this);
        ns[k].ThinkAboutFlashing(true, all);
      }
    }
  }

  // ---------------------------------------------------------------------------
  // Building the grid
  // ---------------------------------------------------------------------------

  /** Every octopus of the grid. */
  ghost function Members(rows: seq<seq<Octopus>>): set<Octopus>
  {
    set o | o in Flatten(rows)
  }

  /** Two grids with the same number of rows, and rows of the same lengths. */
  predicate SameShape<T, U>(a: seq<seq<T>>, b: seq<seq<U>>)
  {
    |a| == |b| && forall r :: 0 <= r < |a| ==> |a[r]| == |b[r]|
  }

  /** Cell (r, c) holds an octopus in the state `Qctopus(energy)` leaves it. */
  predicate IsNew(o: Octopus, energy: int)
    reads o
  {
    o.energy == energy && o.flashes == 0 && !o.flashedThisStep && o.neighbors == []
  }

  /** Lines 62-66: one new octopus per energy, row by row, each a different object. */
  method MakeOctos(energies: seq<seq<int>>) returns (rows: seq<seq<Octopus>>)
    ensures SameShape(rows, energies) && Distinct2D(rows) && fresh(Members(rows))
    ensures forall r: nat, c: nat {:trigger rows[r][c]} :: InGrid(rows, r, c) ==>
      fresh(rows[r][c]) && IsNew(rows[r][c], energies[r][c])
    ensures forall o :: o in Members(rows) ==> o.flashes == 0 && !o.flashedThisStep
    ensures (forall r: nat, c: nat {:trigger energies[r][c]} :: InGrid(energies, r, c) ==> 0 <= energies[r][c]) ==>
      forall o :: o in Members(rows) ==> 0 <= o.energy
  {
    rows := [];
    for r := 0 to |energies|
      invariant |rows| == r && forall i :: 0 <= i < r ==> |rows[i]| == |energies[i]|
      invariant Distinct2D(rows)
      invariant forall i: nat, j: nat {:trigger rows[i][j]} :: InGrid(rows, i, j) ==>
        fresh(rows[i][j]) && IsNew(rows[i][j], energies[i][j])
    {
      var row: seq<Octopus> := [];
      for c := 0 to |energies[r]|
        invariant |row| == c && Distinct(row)
        invariant forall j :: 0 <= j < c ==> fresh(row[j]) && IsNew(row[j], energies[r][j])
        invariant forall i: nat, j: nat {:trigger rows[i][j]} :: InGrid(rows, i, j) ==> rows[i][j] !in row
        invariant forall i: nat, j: nat {:trigger rows[i][j]} :: InGrid(rows, i, j) ==>
          fresh(rows[i][j]) && IsNew(rows[i][j], energies[i][j])
      {
        var o := new Octopus(energies[r][c]);
        row := row + [o];
      }
      rows := rows + [row];
    }
    FlattenMembers(rows);
    FreshSettled(rows);
    if forall r: nat, c: nat {:trigger energies[r][c]} :: InGrid(energies, r, c) ==> 0 <= energies[r][c] {
      NonNegativeStart(rows, energies);
    }
  }

  /** Lines 68-76 for one octopus: its neighbours are appended in the wiring order. */
  method Wire(rows: seq<seq<Octopus>>, r: nat, c: nat, octo: Octopus)
    requires InGrid(rows, r, c) && octo == rows[r][c]
    modifies octo`neighbors
    ensures octo.neighbors == old(octo.neighbors) + NeighborsOf(rows, r, c)
  {
    var ns := octo.neighbors;
    if r > 0 {
      ns := ns + Around(rows[r - 1], c);
    }
    ghost var above := ns;
    assert above == octo.neighbors + Above(rows, r, c);
    if r < |rows| - 1 {
      ns := ns + Around(rows[r + 1], c);
    }
    ghost var below := ns;
    assert below == above + Below(rows, r, c);
    if c > 0 {
      ns := ns + [rows[r][c - 1]];
    }
    ghost var left := ns;
    assert left == below + (if c > 0 then [rows[r][c - 1]] else []);
    if c < |rows[r]| - 1 {
      ns := ns + [rows[r][c + 1]];
    }
    assert ns == left + (if c < |rows[r]| - 1 then [rows[r][c + 1]] else []);
    Assoc(below, if c > 0 then [rows[r][c - 1]] else [], if c < |rows[r]| - 1 then [rows[r][c + 1]] else []);
    Regroup(octo.neighbors, Above(rows, r, c), Below(rows, r, c), Beside(rows, r, c));
    octo.neighbors := ns;
  }

  lemma Assoc<T>(a: seq<T>, b: seq<T>, c: seq<T>)
    ensures a + b + c == a + (b + c)
  {
  }

  lemma Regroup<T>(a: seq<T>, b: seq<T>, c: seq<T>, d: seq<T>)
    ensures a + b + c + d == a + (b + c + d)
  {
  }

  /** Lines 68-77 for row r: each octopus of the row, left to right, gets its neighbours. */
  method WireRow(rows: seq<seq<Octopus>>, r: nat)
    requires r < |rows| && Distinct2D(rows)
    requires forall i: nat, j: nat {:trigger rows[i][j]} :: InGrid(rows, i, j) ==>
      rows[i][j].neighbors == (if i < r then NeighborsOf(rows, i, j) else [])
    modifies Members(rows)`neighbors
    ensures forall i: nat, j: nat {:trigger rows[i][j]} :: InGrid(rows, i, j) ==>
      rows[i][j].neighbors == (if i <= r then NeighborsOf(rows, i, j) else [])
  {
    for c := 0 to |rows[r]|
      invariant forall i: nat, j: nat {:trigger rows[i][j]} :: InGrid(rows, i, j) ==>
        rows[i][j].neighbors == (if i < r || (i == r && j < c) then NeighborsOf(rows, i, j) else [])
    {
      InMembers(rows, r, c);
      label before:
      Wire(rows, r, c, rows[r][c]);
      forall i: nat, j: nat | InGrid(rows, i, j)
        ensures rows[i][j].neighbors == (if i < r || (i == r && j < c + 1) then NeighborsOf(rows, i, j) else [])
      {
        if i != r || j != c {
          assert rows[i][j] != rows[r][c];
          assert rows[i][j].neighbors == old@before(rows[i][j].neighbors);
        }
      }
    }
  }

  /** Each cell's octopus is one of the grid's. */
  lemma InMembers(rows: seq<seq<Octopus>>, r: nat, c: nat)
    requires InGrid(rows, r, c)
    ensures rows[r][c] in Members(rows)
  {
    FlattenMembers(rows);
  }

  /** Lines 67-77: every octopus, row by row, gets the neighbours `NeighborsOf` names; only neighbours change. */
  method WireAll(rows: seq<seq<Octopus>>)
    requires Distinct2D(rows)
    requires forall r: nat, c: nat {:trigger rows[r][c]} :: InGrid(rows, r, c) ==> rows[r][c].neighbors == []
    modifies Members(rows)`neighbors
    ensures WiredAsGrid(rows)
  {
    for r := 0 to |rows|
      invariant forall i: nat, j: nat {:trigger rows[i][j]} :: InGrid(rows, i, j) ==>
        rows[i][j].neighbors == (if i < r then NeighborsOf(rows, i, j) else [])
    {
      WireRow(rows, r);
    }
  }

  /** Every octopus of the grid has the neighbours `NeighborsOf` names. */
  ghost predicate WiredAsGrid(rows: seq<seq<Octopus>>)
    reads Members(rows)
  {
    FlattenMembers(rows);
    forall r: nat, c: nat {:trigger rows[r][c]} :: InGrid(rows, r, c) ==> rows[r][c].neighbors == NeighborsOf(rows, r, c)
  }

  /** A grid wired as `NeighborsOf` says has all neighbours inside it. */
  lemma GridWired(rows: seq<seq<Octopus>>)
    requires WiredAsGrid(rows)
    ensures Wired(Members(rows))
  {
    FlattenMembers(rows);
    forall o, k | o in Members(rows) && 0 <= k < |o.neighbors|
      ensures o.neighbors[k] in Members(rows)
    {
      var r: nat, c: nat :| InGrid(rows, r, c) && rows[r][c] == o;
      NeighborsSound(rows, r, c);
      assert o.neighbors[k] in NeighborsOf(rows, r, c);
    }
  }

  /** New octopuses have neither flashed nor counted a flash. */
  lemma FreshSettled(rows: seq<seq<Octopus>>)
    requires forall r: nat, c: nat {:trigger rows[r][c]} :: InGrid(rows, r, c) ==> !rows[r][c].flashedThisStep && rows[r][c].flashes == 0
    ensures forall o :: o in Members(rows) ==> o.flashes == 0 && !o.flashedThisStep
  {
    FlattenMembers(rows);
  }

  /** Octopuses made from non-negative energies start with non-negative energy. */
  lemma NonNegativeStart(rows: seq<seq<Octopus>>, energies: seq<seq<int>>)
    requires SameShape(rows, energies)
    requires forall r: nat, c: nat {:trigger rows[r][c]} :: InGrid(rows, r, c) ==> rows[r][c].energy == energies[r][c]
    requires forall r: nat, c: nat {:trigger energies[r][c]} :: InGrid(energies, r, c) ==> 0 <= energies[r][c]
    ensures forall o :: o in Members(rows) ==> 0 <= o.energy
  {
    FlattenMembers(rows);
    forall o | o in Members(rows)
      ensures 0 <= o.energy
    {
      var r: nat, c: nat :| InGrid(rows, r, c) && rows[r][c] == o;
      assert InGrid(energies, r, c);
    }
  }

  /** Lines 60-77: the octopuses of a new grid, made and wired. */
  method BuildGrid(energies: seq<seq<int>>) returns (rows: seq<seq<Octopus>>)
    ensures Distinct2D(rows) && WiredAsGrid(rows) && Wired(Members(rows)) && fresh(Members(rows))
    ensures SameShape(rows, energies)
    ensures forall r: nat, c: nat {:trigger rows[r][c]} :: InGrid(rows, r, c) ==>
      rows[r][c].energy == energies[r][c] && rows[r][c].flashes == 0 && !rows[r][c].flashedThisStep
    ensures forall o :: o in Members(rows) ==> o.flashes == 0 && !o.flashedThisStep
    ensures (forall r: nat, c: nat {:trigger energies[r][c]} :: InGrid(energies, r, c) ==> 0 <= energies[r][c]) ==>
      forall o :: o in Members(rows) ==> 0 <= o.energy
  {
    rows := MakeOctos(energies);
    assert allocated(Flatten(rows));
    WireAll(rows);
    GridWired(rows);
  }

  /** The flashes of the octopuses of `s`, added up. */
  ghost function TotalFlashes(s: seq<Octopus>): nat
    reads set o | o in s
  {
    if |s| == 0 then 0 else TotalFlashes(s[..|s| - 1]) + s[|s| - 1].flashes
  }

  /** If no octopus of `s` has flashed more than n times, together they have flashed at most n times as many as there are. */
  lemma {:induction false} FlashesBound(s: seq<Octopus>, n: nat)
    requires forall o :: o in s ==> o.flashes <= n
    ensures TotalFlashes(s) <= n * |s|
  {
    if |s| > 0 {
      FlashesBound(s[..|s| - 1], n);
    }
  }

  /** The octopus has started a new step: not flashed yet, one more energy, nothing else changed. */
  twostate predicate Started(o: Octopus)
    reads o
  {
    !o.flashedThisStep && o.energy == old(o.energy) + 1 && o.flashes == old(o.flashes) && o.neighbors == old(o.neighbors)
  }

  /**
   * What a whole step did to one octopus: it flashed at most once, and exactly when its
   * energy reached `FLASH_ENERGY`; if it flashed it rests at zero, otherwise it gained at
   * least the step's one energy and stays below `FLASH_ENERGY`; it was not rewired.
   */
  twostate predicate Stepped(o: Octopus)
    reads o
  {
    && o.neighbors == old(o.neighbors)
    && o.flashes == old(o.flashes) + (if o.flashedThisStep then 1 else 0)
    && (o.flashedThisStep ==> o.energy == 0)
    && (!o.flashedThisStep ==> old(o.energy) + 1 <= o.energy < FLASH_ENERGY)
    && (old(o.energy) + 1 >= FLASH_ENERGY ==> o.flashedThisStep)
  }

  /** The first loop of `do_step`: every octopus, in order, starts a new step. */
  method StartAll(flat: seq<Octopus>)
    requires Distinct(flat)
    modifies set o | o in flat
    ensures forall o :: o in flat ==> Started(o)
  {
    for i := 0 to |flat|
      invariant forall j :: 0 <= j < i ==> Started(flat[j])
      invariant forall j :: i <= j < |flat| ==> unchanged(flat[j])
    {
      flat[i].StartStepAndAddEnergy();
    }
  }

  /**
   * What the second loop of a step did to an octopus that had not flashed: it flashed
   * exactly when its energy reached `FLASH_ENERGY`, and then rests at zero with one more
   * flash; otherwise it only gained energy and stays below `FLASH_ENERGY`.
   */
  twostate predicate ThoughtAbout(o: Octopus)
    reads o
  {
    && o.neighbors == old(o.neighbors)
    && o.flashes == old(o.flashes) + (if o.flashedThisStep then 1 else 0)
    && (o.flashedThisStep ==> o.energy == 0)
    && (!o.flashedThisStep ==> old(o.energy) <= o.energy < FLASH_ENERGY)
    && (old(o.energy) >= FLASH_ENERGY ==> o.flashedThisStep)
  }

  /**
   * The second loop of `do_step`: every octopus, in order, thinks about flashing with no
   * neighbour having just flashed.
   */
  method ThinkAll(flat: seq<Octopus>, ghost all: set<Octopus>)
    requires forall o :: o in all <==> o in flat
    requires Wired(all) && forall o :: o in all ==> !o.flashedThisStep
    modifies all
    ensures Wired(all) && Settled(all)
    ensures forall o :: o in all ==> ThoughtAbout(o)
  {
    for i := 0 to |flat|
      invariant Wired(all) && Settled(all) && Cascaded(all)
      invariant forall j :: 0 <= j < i ==> flat[j].flashedThisStep || flat[j].energy < FLASH_ENERGY
    {
      flat[i].ThinkAboutFlashing(false, all);
    }
  }

  /** `OctoGrid`: the octopuses, row by row. */
  class OctoGrid {
    var octos: seq<seq<Octopus>>

    /** Every octopus of the grid. */
    ghost function All(): set<Octopus>
      reads this
    {
      Members(octos)
    }

    /** The octopuses in the order `itertools.chain(*self.octos)` visits them. */
    function Flat(): seq<Octopus>
      reads this
    {
      Flatten(octos)
    }

    /** Distinct octopuses, wired as `NeighborsOf` says, at rest if they flashed. */
    ghost predicate Valid()
      reads this, All()
    {
      && Distinct2D(octos)
      && WiredAsGrid(octos)
      && Wired(All())
      && Settled(All())
    }

    /** No octopus has negative energy. */
    ghost predicate NonNegative()
      reads this, All()
    {
      forall o :: o in All() ==> 0 <= o.energy
    }

    /** Lines 60-77: one new octopus per energy, each wired to the cells around it. */
    constructor (energies: seq<seq<int>>)
      ensures Valid() && fresh(All())
      ensures SameShape(octos, energies)
      ensures forall r: nat, c: nat {:trigger octos[r][c]} :: InGrid(octos, r, c) ==>
        octos[r][c].energy == energies[r][c] && octos[r][c].flashes == 0 && !octos[r][c].flashedThisStep
      ensures forall o :: o in All() ==> o.flashes == 0
      ensures (forall r: nat, c: nat {:trigger energies[r][c]} :: InGrid(energies, r, c) ==> 0 <= energies[r][c]) ==> NonNegative()
    {
      var rows := BuildGrid(energies);
      octos := rows;
    }

    /**
     * `do_step`: every octopus, in order, starts the step and gains one energy; then
     * every octopus, in order, thinks about flashing. Afterwards each octopus has flashed
     * at most once, exactly if its energy reached `FLASH_ENERGY` during the step: a
     * flashed one rests at zero with one more flash, any other gained at least the one
     * energy of the step and is still below `FLASH_ENERGY`.
     */
    method DoStep()
      requires Valid()
      modifies All()
      ensures Valid()
      ensures forall o :: o in All() ==> old(allocated(o)) && Stepped(o)
      ensures old(NonNegative()) ==> NonNegative() && forall o :: o in All() ==> (o.energy == 0 <==> o.flashedThisStep)
    {
      var flat := Flatten(octos);
      FlattenDistinct(octos);
      ghost var all := All();
      assert old(allocated(flat));
      StartAll(flat);
      ThinkAll(flat, all);
    }

    /** `count_flashes`: the flashes of all octopuses, added up in order. */
    method CountFlashes() returns (count: nat)
      ensures count == TotalFlashes(Flat())
    {
      var flat := Flatten(octos);
      count := 0;
      for i := 0 to |flat|
        invariant count == TotalFlashes(flat[..i])
      {
        assert flat[..i + 1][..i] == flat[..i];
        count := count + flat[i].flashes;
      }
      assert flat[..|flat|] == flat;
    }

    /** `did_they_all_flash`: no octopus has any energy left. */
    method DidTheyAllFlash() returns (b: bool)
      ensures b <==> forall o :: o in Flat() ==> o.energy == 0
    {
      var flat := Flatten(octos);
      var anyEnergy := false;
      for i := 0 to |flat|
        invariant anyEnergy <==> exists j :: 0 <= j < i && flat[j].energy != 0
      {
        if flat[i].energy != 0 {
          anyEnergy := true;
        }
      }
      b := !anyEnergy;
    }

    /** Every octopus flashed in the last step. */
    ghost predicate Synchronized()
      reads this, All()
    {
      forall o :: o in All() ==> o.flashedThisStep
    }
  }

  /** Grids of the same shape flatten to sequences of the same length. */
  lemma {:induction false} FlattenLength<T, U>(a: seq<seq<T>>, b: seq<seq<U>>)
    requires SameShape(a, b)
    ensures |Flatten(a)| == |Flatten(b)|
  {
    if |a| > 0 {
      FlattenLength(a[..|a| - 1], b[..|b| - 1]);
    }
  }

  /** With energies parsed from digits, the octopuses never have negative energy. */
  lemma DigitsNonNegative(lines: seq<string>)
    requires Day09.ParseGrid(lines).Ok?
    ensures var energies := Day09.ParseGrid(lines).value;
      forall r: nat, c: nat {:trigger energies[r][c]} :: InGrid(energies, r, c) ==> 0 <= energies[r][c]
  {
    Day09.ParsedDigits(lines);
  }

  /** The loop of `part_a`: `steps` steps, in each of which every octopus flashes at most once. */
  method RunSteps(grid: OctoGrid, steps: nat)
    requires grid.Valid()
    modifies grid.All()
    ensures grid.Valid() && grid.octos == old(grid.octos)
    ensures forall o :: o in grid.All() ==> old(allocated(o)) && o.flashes <= old(o.flashes) + steps
  {
    assert allocated(grid.Flat());
    for day := 0 to steps
      invariant grid.Valid() && grid.octos == old(grid.octos)
      invariant forall o :: o in grid.All() ==> old(allocated(o)) && o.flashes <= old(o.flashes) + day
    {
      grid.DoStep();
    }
  }

  /**
   * `part_a`: parse the energies, build the grid, take `NUM_STEPS` steps and count the
   * flashes. As every octopus flashes at most once a step, there are at most
   * `NUM_STEPS` flashes per octopus.
   */
  method PartA(lines: seq<string>) returns (r: Result<nat>)
    ensures Day09.ParseGrid(lines).Err? ==> r == Err(Day09.ParseGrid(lines).msg)
    ensures Day09.ParseGrid(lines).Ok? ==> r.Ok? && r.value <= NUM_STEPS * |Flatten(Day09.ParseGrid(lines).value)|
  {
    var parsed := Day09.ParseGrid(lines);
    if parsed.Err? {
      return Err(parsed.msg);
    }
    var grid := new OctoGrid(parsed.value);
    RunSteps(grid, NUM_STEPS);
    assert forall o :: o in grid.Flat() ==> o in grid.All();
    var count := grid.CountFlashes();
    FlashesBound(grid.Flat(), NUM_STEPS);
    FlattenLength(grid.octos, parsed.value);
    r := Ok(count);
  }

  /**
   * `part_b`, whose `while True` loop is cut off after `limit` steps: step until every
   * octopus flashed in the same step and return that step's number. `synced` records,
   * step by step, whether every octopus flashed in it; the answer is the first step
   * where one did, and `None` means none of the first `limit` steps did.
   */
  method PartB(lines: seq<string>, limit: nat) returns (r: Result<Option<nat>>, ghost synced: seq<bool>)
    ensures Day09.ParseGrid(lines).Err? ==> r == Err(Day09.ParseGrid(lines).msg)
    ensures Day09.ParseGrid(lines).Ok? ==> r.Ok?
    ensures r == Ok(None) ==> |synced| == limit && forall k :: 0 <= k < limit ==> !synced[k]
    ensures r.Ok? && r.value.Some? ==>
      var day := r.value.value;
      1 <= day <= limit && |synced| == day && synced[day - 1] && forall k :: 0 <= k < day - 1 ==> !synced[k]
  {
    synced := [];
    var parsed := Day09.ParseGrid(lines);
    if parsed.Err? {
      return Err(parsed.msg), synced;
    }
    DigitsNonNegative(lines);
    var grid := new OctoGrid(parsed.value);
    ghost var octos := grid.octos;
    var day := 0;
    while day < limit
      invariant day <= limit && |synced| == day
      invariant grid.octos == octos && grid.Valid() && grid.NonNegative() && fresh(grid.All())
      invariant forall k :: 0 <= k < day ==> !synced[k]
    {
      grid.DoStep();
      day := day + 1;
      var all := grid.DidTheyAllFlash();
      synced := synced + [grid.Synchronized()];
      if all {
        return Ok(Some(day)), synced;
      }
    }
    r := Ok(None);
  }
}
