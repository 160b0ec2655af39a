/**
 * Day 15, chiton: a square grid of risk levels, searched with A* for the least total risk
 * from the top-left to the bottom-right cell (the start cell's own risk is not counted).
 * The second part first expands the grid five times in each direction, each tile to the
 * right or below adding one to every risk, with 9 wrapping round to 1.
 */
module Day15 {
  import opened Util
  import Day09

  /** A cell, `(row, column)`. */
  type Pos = (int, int)

  /** A frontier entry, `(priority, cell)`; the heap orders entries as Python orders tuples. */
  type Entry = (int, Pos)

  /** Every row is as long as the grid is tall, as `get_neighbors` assumes. */
  predicate IsSquare(grid: seq<seq<int>>)
  {
    forall r :: 0 <= r < |grid| ==> |grid[r]| == |grid|
  }

  predicate InBounds(p: Pos, dim: int)
  {
    0 <= p.0 < dim && 0 <= p.1 < dim
  }

  // ---------------------------------------------------------------------------
  // heuristic and get_neighbors
  // ---------------------------------------------------------------------------

  /** `heuristic`, lines 35-38: the Manhattan distance, zero exactly between equal cells. */
  function Manhattan(a: Pos, b: Pos): (d: nat)
    ensures d == 0 <==> a == b
  {
    Abs(a.0 - b.0) + Abs(a.1 - b.1)
  }

  /** The Manhattan distance is symmetric and obeys the triangle inequality. */
  lemma ManhattanMetric(a: Pos, b: Pos, c: Pos)
    ensures Manhattan(a, b) == Manhattan(b, a)
    ensures Manhattan(a, c) <= Manhattan(a, b) + Manhattan(b, c)
  {
  }

  /** Horizontal or vertical neighbours. */
  predicate Adjacent(p: Pos, q: Pos)
  {
    Manhattan(p, q) == 1
  }

  /**
   * `get_neighbors`, lines 19-32: for a cell of the grid, exactly the cells of the grid
   * directly above, below, left and right of it, each once.
   */
  function Neighbors(p: Pos, dim: int): (ns: seq<Pos>)
    ensures |ns| <= 4
    ensures InBounds(p, dim) ==> forall i :: 0 <= i < |ns| ==> InBounds(ns[i], dim) && Adjacent(p, ns[i])
  {
    (if p.0 > 0 then [(p.0 - 1, p.1)] else []) +
    (if p.0 < dim - 1 then [(p.0 + 1, p.1)] else []) +
    (if p.1 > 0 then [(p.0, p.1 - 1)] else []) +
    (if p.1 < dim - 1 then [(p.0, p.1 + 1)] else [])
  }

  /**
   * For a cell of the grid the neighbours are exactly the adjacent cells of the grid, none
   * listed twice and the cell itself not among them.
   */
  lemma NeighborsExact(p: Pos, dim: int)
    requires InBounds(p, dim)
    ensures forall q :: q in Neighbors(p, dim) <==> InBounds(q, dim) && Adjacent(p, q)
    ensures Distinct(Neighbors(p, dim)) && p !in Neighbors(p, dim)
  {
    forall q | InBounds(q, dim) && Adjacent(p, q)
      ensures q in Neighbors(p, dim)
    {
      if q.0 < p.0 {
        assert q == (p.0 - 1, p.1);
      } else if q.0 > p.0 {
        assert q == (p.0 + 1, p.1);
      } else if q.1 < p.1 {
        assert q == (p.0, p.1 - 1);
      } else {
        assert q == (p.0, p.1 + 1);
      }
    }
  }

  // ---------------------------------------------------------------------------
  // Walks and their risk
  // ---------------------------------------------------------------------------

  /** `route` is a walk through the grid from `from` to `to`, one neighbour at a time. */
  predicate IsWalk(dim: int, route: seq<Pos>, from: Pos, to: Pos)
  {
    |route| > 0 && route[0] == from && route[|route| - 1] == to &&
    (forall i :: 0 <= i < |route| ==> InBounds(route[i], dim)) &&
    (forall i :: 0 <= i < |route| - 1 ==> Adjacent(route[i], route[i + 1]))
  }

  /** The risk of a walk: the sum of the risks of the cells it enters, the first cell not counted. */
  function Risk(grid: seq<seq<int>>, route: seq<Pos>): int
    requires IsSquare(grid) && forall i :: 0 <= i < |route| ==> InBounds(route[i], |grid|)
  {
    if |route| <= 1 then 0
    else
      var last := route[|route| - 1];
      assert InBounds(last, |grid|);
      Risk(grid, route[..|route| - 1]) + grid[last.0][last.1]
  }

  /** Stepping to one more cell adds that cell's risk. */
  lemma RiskSnoc(grid: seq<seq<int>>, route: seq<Pos>, p: Pos)
    requires IsSquare(grid) && |route| > 0 && InBounds(p, |grid|)
    requires forall i :: 0 <= i < |route| ==> InBounds(route[i], |grid|)
    ensures Risk(grid, route + [p]) == Risk(grid, route) + grid[p.0][p.1]
  {
    assert (route + [p])[..|route|] == route;
  }

  /** Extending a walk by a neighbour of its end gives a walk to that neighbour. */
  lemma WalkSnoc(dim: int, route: seq<Pos>, from: Pos, to: Pos, p: Pos)
    requires IsWalk(dim, route, from, to) && InBounds(p, dim) && Adjacent(to, p)
    ensures IsWalk(dim, route + [p], from, p)
  {
  }

  /**
   * Why the heuristic is admissible: when every cell has risk at least 1, no walk is less
   * risky than the Manhattan distance between its ends.
   */
  lemma {:induction false} HeuristicAdmissible(grid: seq<seq<int>>, route: seq<Pos>, from: Pos, to: Pos)
    requires IsSquare(grid) && IsWalk(|grid|, route, from, to)
    requires forall r, c :: 0 <= r < |grid| && 0 <= c < |grid| ==> grid[r][c] >= 1
    ensures Risk(grid, route) >= Manhattan(from, to)
    decreases |route|
  {
    if |route| > 1 {
      var init := route[..|route| - 1];
      var prev := init[|init| - 1];
      assert IsWalk(|grid|, init, from, prev);
      HeuristicAdmissible(grid, init, from, prev);
      ManhattanMetric(from, prev, to);
    }
  }

  // ---------------------------------------------------------------------------
  // heapq
  // ---------------------------------------------------------------------------

  /** Python's order on `(priority, (row, column))` tuples. */
  predicate EntryLE(a: Entry, b: Entry)
  {
    a.0 < b.0 || (a.0 == b.0 && (a.1.0 < b.1.0 || (a.1.0 == b.1.0 && a.1.1 <= b.1.1)))
  }

  /**
   * `heapq.heappop`: removes and returns a least entry. The heap's internal layout is not
   * modelled; the frontier is the multiset of its entries.
   */
  method PopMin(frontier: seq<Entry>) returns (e: Entry, rest: seq<Entry>)
    requires frontier != []
    ensures e in frontier && forall x :: x in frontier ==> EntryLE(e, x)
    ensures multiset(rest) + multiset{e} == multiset(frontier)
  {
    var best := 0;
    for k := 1 to |frontier|
      invariant 0 <= best < |frontier|
      invariant forall j :: 0 <= j < k ==> EntryLE(frontier[best], frontier[j])
    {
      if !EntryLE(frontier[best], frontier[k]) {
        best := k;
      }
    }
    e := frontier[best];
    rest := frontier[..best] + frontier[best + 1..];
    assert frontier == frontier[..best] + [e] + frontier[best + 1..];
  }

  // ---------------------------------------------------------------------------
  // a_star
  // ---------------------------------------------------------------------------

  /** Risk levels are digits, never negative. */
  predicate NonNegative(grid: seq<seq<int>>)
  {
    forall r, c :: 0 <= r < |grid| && 0 <= c < |grid[r]| ==> grid[r][c] >= 0
  }

  /** On a grid without negative risks no walk has negative risk. */
  lemma {:induction false} RiskNonNegative(grid: seq<seq<int>>, route: seq<Pos>)
    requires IsSquare(grid) && NonNegative(grid) && forall i :: 0 <= i < |route| ==> InBounds(route[i], |grid|)
    ensures Risk(grid, route) >= 0
    decreases |route|
  {
    if |route| > 1 {
      RiskNonNegative(grid, route[..|route| - 1]);
    }
  }

  /**
   * Every cell with a cost is in the grid and its cost is the risk of a walk from `start`
   * to it, kept in the ghost `routes`; `cost[start]` is 0.
   */
  ghost predicate Walked(grid: seq<seq<int>>, start: Pos, cost: map<Pos, int>, routes: map<Pos, seq<Pos>>)
    requires IsSquare(grid)
  {
    start in cost && cost[start] == 0 &&
    (forall c :: c in cost ==> InBounds(c, |grid|) && c in routes) &&
    forall c {:trigger routes[c]} :: c in cost && c in routes ==>
      IsWalk(|grid|, routes[c], start, c) && Risk(grid, routes[c]) == cost[c]
  }

  /** What `Walked` says about one cell with a cost. */
  lemma WalkedAt(grid: seq<seq<int>>, start: Pos, cost: map<Pos, int>, routes: map<Pos, seq<Pos>>, c: Pos)
    requires IsSquare(grid) && Walked(grid, start, cost, routes) && c in cost
    ensures InBounds(c, |grid|) && c in routes && IsWalk(|grid|, routes[c], start, c) && Risk(grid, routes[c]) == cost[c]
  {
  }

  /** `came_from` has the cells of `cost`: `start` came from nowhere, every other cell from a neighbour with a cost. */
  ghost predicate Linked(start: Pos, cost: map<Pos, int>, cameFrom: map<Pos, Option<Pos>>)
  {
    cameFrom.Keys == cost.Keys && start in cameFrom && cameFrom[start] == None &&
    forall c {:trigger cameFrom[c]} :: c in cameFrom && c != start ==> cameFrom[c].Some? && cameFrom[c].value in cost && Adjacent(cameFrom[c].value, c)
  }

  /** Every frontier cell has a cost. */
  ghost predicate Known(frontier: seq<Entry>, cost: map<Pos, int>)
  {
    forall i :: 0 <= i < |frontier| ==> frontier[i].1 in cost
  }

  /** What the search has recorded. */
  ghost predicate Recorded(grid: seq<seq<int>>, start: Pos, cost: map<Pos, int>, cameFrom: map<Pos, Option<Pos>>,
                           frontier: seq<Entry>, routes: map<Pos, seq<Pos>>)
    requires IsSquare(grid)
  {
    Walked(grid, start, cost, routes) && Linked(start, cost, cameFrom) && Known(frontier, cost)
  }

  /** Taking an entry out of the frontier leaves a frontier whose cells, and the taken one, have costs. */
  lemma KnownPop(frontier: seq<Entry>, cost: map<Pos, int>, e: Entry, rest: seq<Entry>)
    requires Known(frontier, cost) && multiset(rest) + multiset{e} == multiset(frontier)
    ensures Known(rest, cost) && e.1 in cost
  {
    assert e in multiset(frontier);
    forall i | 0 <= i < |rest|
      ensures rest[i].1 in cost
    {
      assert rest[i] in multiset(rest);
      assert rest[i] in multiset(frontier);
    }
  }

  /**
   * One turn of the loop over the neighbours of `current`, for the neighbour `next`: the cost
   * through `current` is the cost of `current` plus the risk of `next`; when `next` had no
   * cost or a higher one it gets that cost, is pushed with that cost plus the heuristic as
   * priority and remembers `current`; otherwise nothing changes.
   */
  predicate Relaxed(grid: seq<seq<int>>, dest: Pos, current: Pos, next: Pos,
                    cost: map<Pos, int>, cameFrom: map<Pos, Option<Pos>>, frontier: seq<Entry>,
                    cost': map<Pos, int>, cameFrom': map<Pos, Option<Pos>>, frontier': seq<Entry>)
    requires IsSquare(grid) && InBounds(next, |grid|) && current in cost
  {
    var newCost := cost[current] + grid[next.0][next.1];
    if next !in cost || newCost < cost[next] then
      cost' == cost[next := newCost] && cameFrom' == cameFrom[next := Some(current)] &&
      frontier' == frontier + [(newCost + Manhattan(dest, next), next)]
    else
      cost' == cost && cameFrom' == cameFrom && frontier' == frontier
  }

  /** The body of the loop over the neighbours, lines 57-62. */
  method RelaxNeighbor(grid: seq<seq<int>>, dest: Pos, current: Pos, next: Pos,
                       cost: map<Pos, int>, cameFrom: map<Pos, Option<Pos>>, frontier: seq<Entry>)
    returns (cost': map<Pos, int>, cameFrom': map<Pos, Option<Pos>>, frontier': seq<Entry>)
    requires IsSquare(grid) && InBounds(next, |grid|) && current in cost
    ensures Relaxed(grid, dest, current, next, cost, cameFrom, frontier, cost', cameFrom', frontier')
  {
    cost', cameFrom', frontier' := cost, cameFrom, frontier;
    var newCost := cost[current] + grid[next.0][next.1];
    if next !in cost || newCost < cost[next] {
      cost' := cost[next := newCost];
      var priority := newCost + Manhattan(dest, next);
      frontier' := frontier + [(priority, next)];
      cameFrom' := cameFrom[next := Some(current)];
    }
  }

  /**
   * What the loop over the neighbours of `current` has done once the neighbours in `done`
   * are handled: `came_from` still has the cells of `cost`; no cost went up; a cost that
   * changed belongs to a cell of `done` and is the cost of `current` plus that cell's risk;
   * a cell whose cost changed came from `current`, every other cell kept its `came_from`;
   * and the frontier only grew, by entries for cells of `done`, each with its current cost
   * plus the heuristic as priority.
   */
  ghost predicate RelaxedSoFar(grid: seq<seq<int>>, dest: Pos, current: Pos,
                               cost: map<Pos, int>, cameFrom: map<Pos, Option<Pos>>, frontier: seq<Entry>,
                               cost': map<Pos, int>, cameFrom': map<Pos, Option<Pos>>, frontier': seq<Entry>, done: seq<Pos>)
    requires IsSquare(grid)
  {
    current in cost && cameFrom'.Keys == cost'.Keys &&
    (forall c {:trigger cost[c]} :: c in cost ==> c in cost' && cost'[c] <= cost[c]) &&
    (forall c {:trigger cost'[c]} :: c in cost' && (c !in cost || cost'[c] != cost[c]) ==>
      c in done && InBounds(c, |grid|) && cost'[c] == cost[current] + grid[c.0][c.1]) &&
    (forall c {:trigger cameFrom'[c]} :: c in cameFrom' && c in cost' ==>
      if c in cost && cost'[c] == cost[c] then c in cameFrom && cameFrom'[c] == cameFrom[c] else cameFrom'[c] == Some(current)) &&
    |frontier| <= |frontier'| && frontier'[..|frontier|] == frontier &&
    (forall i :: |frontier| <= i < |frontier'| ==>
      frontier'[i].1 in done && frontier'[i].1 in cost' && frontier'[i].0 == cost'[frontier'[i].1] + Manhattan(dest, frontier'[i].1))
  }

  /**
   * Handling one more neighbour `next`, not handled before, keeps `RelaxedSoFar`: its new
   * cost is the cost of `current` plus its risk, kept, pushed and linked to `current` only
   * when `next` had no cost or a higher one.
   */
  lemma RelaxedStep(grid: seq<seq<int>>, dest: Pos, current: Pos,
                    cost: map<Pos, int>, cameFrom: map<Pos, Option<Pos>>, frontier: seq<Entry>,
                    c0: map<Pos, int>, m0: map<Pos, Option<Pos>>, f0: seq<Entry>,
                    c1: map<Pos, int>, m1: map<Pos, Option<Pos>>, f1: seq<Entry>, done: seq<Pos>, next: Pos, done': seq<Pos>)
    requires IsSquare(grid) && RelaxedSoFar(grid, dest, current, cost, cameFrom, frontier, c0, m0, f0, done)
    requires InBounds(next, |grid|) && next !in done && next != current && done' == done + [next]
    requires current in c0 && c0[current] == cost[current]
    requires Relaxed(grid, dest, current, next, c0, m0, f0, c1, m1, f1)
    ensures RelaxedSoFar(grid, dest, current, cost, cameFrom, frontier, c1, m1, f1, done')
    ensures current in c1 && c1[current] == cost[current]
  {
    var newCost := c0[current] + grid[next.0][next.1];
    if next !in c0 || newCost < c0[next] {
      assert f1[..|frontier|] == f0[..|frontier|];
      forall i | |frontier| <= i < |f1|
        ensures f1[i].1 in done' && f1[i].1 in c1 && f1[i].0 == c1[f1[i].1] + Manhattan(dest, f1[i].1)
      {
        if i < |f0| {
          assert f1[i] == f0[i];
        }
      }
      forall c | c in m1 && c in c1
        ensures if c in cost && c1[c] == cost[c] then c in cameFrom && m1[c] == cameFrom[c] else m1[c] == Some(current)
      {
        if c != next {
          assert m1[c] == m0[c] && c1[c] == c0[c];
        }
      }
    }
  }

  /** The cells whose cost the loop changed are neighbours of `current`, now with a walk through `current`. */
  ghost function RelaxedRoutes(cost: map<Pos, int>, cost': map<Pos, int>, routes: map<Pos, seq<Pos>>, current: Pos): (routes': map<Pos, seq<Pos>>)
    requires current in routes
    ensures routes'.Keys == cost'.Keys
  {
    map c | c in cost' :: if c in cost && cost'[c] == cost[c] && c in routes then routes[c] else routes[current] + [c]
  }

  /** After the loop every cost is still the risk of a walk from `start`, and `cost[start]` is still 0. */
  lemma WalkedRelaxed(grid: seq<seq<int>>, start: Pos, dest: Pos, current: Pos,
                      cost: map<Pos, int>, cameFrom: map<Pos, Option<Pos>>, frontier: seq<Entry>, routes: map<Pos, seq<Pos>>,
                      cost': map<Pos, int>, cameFrom': map<Pos, Option<Pos>>, frontier': seq<Entry>)
    requires IsSquare(grid) && NonNegative(grid) && Walked(grid, start, cost, routes) && current in cost
    requires RelaxedSoFar(grid, dest, current, cost, cameFrom, frontier, cost', cameFrom', frontier', Neighbors(current, |grid|))
    ensures Walked(grid, start, cost', RelaxedRoutes(cost, cost', routes, current))
  {
    var routes' := RelaxedRoutes(cost, cost', routes, current);
    var ns := Neighbors(current, |grid|);
    WalkedAt(grid, start, cost, routes, current);
    RiskNonNegative(grid, routes[current]);
    assert cost'[start] == 0;
    forall c | c in cost'
      ensures InBounds(c, |grid|) && c in routes'
    {
      if c in cost && cost'[c] == cost[c] {
        WalkedAt(grid, start, cost, routes, c);
      }
    }
    forall c | c in cost' && c in routes'
      ensures IsWalk(|grid|, routes'[c], start, c) && Risk(grid, routes'[c]) == cost'[c]
    {
      if c in cost && cost'[c] == cost[c] {
        WalkedAt(grid, start, cost, routes, c);
      } else {
        assert c in ns;
        RiskSnoc(grid, routes[current], c);
        WalkSnoc(|grid|, routes[current], start, current, c);
      }
    }
  }

  /** After the loop `start` still came from nowhere and every other cell from a costed neighbour. */
  lemma LinkedRelaxed(grid: seq<seq<int>>, start: Pos, dest: Pos, current: Pos,
                      cost: map<Pos, int>, cameFrom: map<Pos, Option<Pos>>, frontier: seq<Entry>, routes: map<Pos, seq<Pos>>,
                      cost': map<Pos, int>, cameFrom': map<Pos, Option<Pos>>, frontier': seq<Entry>)
    requires IsSquare(grid) && Walked(grid, start, cost, routes) && Linked(start, cost, cameFrom) && current in cost
    requires Walked(grid, start, cost', RelaxedRoutes(cost, cost', routes, current))
    requires RelaxedSoFar(grid, dest, current, cost, cameFrom, frontier, cost', cameFrom', frontier', Neighbors(current, |grid|))
    ensures Linked(start, cost', cameFrom')
  {
    WalkedAt(grid, start, cost, routes, current);
    assert cameFrom'[start] == cameFrom[start];
    forall c | c in cameFrom' && c != start
      ensures cameFrom'[c].Some? && cameFrom'[c].value in cost' && Adjacent(cameFrom'[c].value, c)
    {
      if c in cost && cost'[c] == cost[c] {
        assert cameFrom'[c] == cameFrom[c];
        assert cameFrom[c].value in cost;
      } else {
        assert c in Neighbors(current, |grid|);
      }
    }
  }

  /** After the loop every frontier cell still has a cost: old entries keep their cells, new ones carry costed cells. */
  lemma KnownRelaxed(grid: seq<seq<int>>, dest: Pos, current: Pos,
                     cost: map<Pos, int>, cameFrom: map<Pos, Option<Pos>>, frontier: seq<Entry>,
                     cost': map<Pos, int>, cameFrom': map<Pos, Option<Pos>>, frontier': seq<Entry>, done: seq<Pos>)
    requires IsSquare(grid) && Known(frontier, cost) && RelaxedSoFar(grid, dest, current, cost, cameFrom, frontier, cost', cameFrom', frontier', done)
    ensures Known(frontier', cost')
  {
    forall i | 0 <= i < |frontier'|
      ensures frontier'[i].1 in cost'
    {
      if i < |frontier| {
        assert frontier'[i] == frontier'[..|frontier|][i] == frontier[i];
        assert frontier[i].1 in cost;
      }
    }
  }

  /** Relaxing the neighbours of a recorded cell keeps everything the search records. */
  lemma RecordedRelaxed(grid: seq<seq<int>>, start: Pos, dest: Pos, current: Pos,
                        cost: map<Pos, int>, cameFrom: map<Pos, Option<Pos>>, frontier: seq<Entry>, routes: map<Pos, seq<Pos>>,
                        cost': map<Pos, int>, cameFrom': map<Pos, Option<Pos>>, frontier': seq<Entry>)
    requires IsSquare(grid) && NonNegative(grid) && Recorded(grid, start, cost, cameFrom, frontier, routes) && current in cost
    requires RelaxedSoFar(grid, dest, current, cost, cameFrom, frontier, cost', cameFrom', frontier', Neighbors(current, |grid|))
    ensures current in routes
    ensures Recorded(grid, start, cost', cameFrom', frontier', RelaxedRoutes(cost, cost', routes, current))
  {
    WalkedAt(grid, start, cost, routes, current);
    WalkedRelaxed(grid, start, dest, current, cost, cameFrom, frontier, routes, cost', cameFrom', frontier');
    LinkedRelaxed(grid, start, dest, current, cost, cameFrom, frontier, routes, cost', cameFrom', frontier');
    KnownRelaxed(grid, dest, current, cost, cameFrom, frontier, cost', cameFrom', frontier', Neighbors(current, |grid|));
  }

  /**
   * The loop over the neighbours of `current`, lines 56-62: a neighbour gets the cost of
   * `current` plus its own risk when it had no cost or a higher one; it is then pushed with
   * that cost plus the heuristic as priority and remembers `current`.
   */
  method Relax(grid: seq<seq<int>>, dest: Pos, current: Pos, cost: map<Pos, int>, cameFrom: map<Pos, Option<Pos>>, frontier: seq<Entry>)
    returns (cost': map<Pos, int>, cameFrom': map<Pos, Option<Pos>>, frontier': seq<Entry>)
    requires IsSquare(grid) && InBounds(current, |grid|) && current in cost && cameFrom.Keys == cost.Keys
    ensures RelaxedSoFar(grid, dest, current, cost, cameFrom, frontier, cost', cameFrom', frontier', Neighbors(current, |grid|))
  {
    var ns := Neighbors(current, |grid|);
    assert Distinct(ns) && current !in ns by {
      NeighborsExact(current, |grid|);
    }
    cost', cameFrom', frontier' := RelaxEach(grid, dest, current, ns, cost, cameFrom, frontier);
  }

  /** The same loop, over any cells of the grid other than `current`, each handled once. */
  method RelaxEach(grid: seq<seq<int>>, dest: Pos, current: Pos, ns: seq<Pos>,
                   cost: map<Pos, int>, cameFrom: map<Pos, Option<Pos>>, frontier: seq<Entry>)
    returns (cost': map<Pos, int>, cameFrom': map<Pos, Option<Pos>>, frontier': seq<Entry>)
    requires IsSquare(grid) && current in cost && cameFrom.Keys == cost.Keys
    requires Distinct(ns) && current !in ns && forall i :: 0 <= i < |ns| ==> InBounds(ns[i], |grid|)
    ensures RelaxedSoFar(grid, dest, current, cost, cameFrom, frontier, cost', cameFrom', frontier', ns)
  {
    cost', cameFrom', frontier' := cost, cameFrom, frontier;
    assert frontier'[..|frontier|] == frontier;
    for k := 0 to |ns|
      invariant current in cost' && cost'[current] == cost[current]
      invariant RelaxedSoFar(grid, dest, current, cost, cameFrom, frontier, cost', cameFrom', frontier', ns[..k])
    {
      var next := ns[k];
      assert ns[..k + 1] == ns[..k] + [next];
      DistinctNotBefore(ns, k);
      ghost var (c0, m0, f0) := (cost', cameFrom', frontier');
      cost', cameFrom', frontier' := RelaxNeighbor(grid, dest, current, next, cost', cameFrom', frontier');
      RelaxedStep(grid, dest, current, cost, cameFrom, frontier, c0, m0, f0, cost', cameFrom', frontier', ns[..k], next, ns[..k + 1]);
    }
    assert ns[..|ns|] == ns;
  }

  /**
   * `a_star`, lines 41-63: pops the least entry, stops when it is `dest`, relaxes its
   * neighbours otherwise, and returns `cost[dest]` (a `KeyError` when `dest` was never
   * reached). The returned cost is the risk of a walk from `start` to `dest` (`route`), and
   * it is 0 when `start` is `dest`. `maxPops` bounds the number of pops; reaching it is an error.
   */
  method AStar(grid: seq<seq<int>>, start: Pos, dest: Pos, maxPops: nat) returns (r: Result<int>, ghost route: seq<Pos>)
    requires IsSquare(grid) && NonNegative(grid) && InBounds(start, |grid|)
    ensures r.Ok? ==> IsWalk(|grid|, route, start, dest) && Risk(grid, route) == r.value
    ensures start == dest && maxPops > 0 ==> r == Ok(0)
  {
    var frontier: seq<Entry> := [(0, start)];
    var cameFrom: map<Pos, Option<Pos>> := map[start := None];
    var cost: map<Pos, int> := map[start := 0];
    ghost var routes: map<Pos, seq<Pos>> := map[start := [start]];
    var pops := 0;
    while frontier != []
      invariant Recorded(grid, start, cost, cameFrom, frontier, routes)
      invariant pops <= maxPops
      invariant start == dest && maxPops > 0 ==> pops == 0 && frontier == [(0, start)]
      decreases maxPops - pops
    {
      if pops == maxPops {
        return Err("the search did not finish within the given number of pops"), [];
      }
      var e, rest := PopMin(frontier);
      var current := e.1;
      pops := pops + 1;
      KnownPop(frontier, cost, e, rest);
      frontier := rest;
      if current == dest {
        break;
      }
      WalkedAt(grid, start, cost, routes, current);
      var cost', cameFrom', frontier' := Relax(grid, dest, current, cost, cameFrom, frontier);
      RecordedRelaxed(grid, start, dest, current, cost, cameFrom, frontier, routes, cost', cameFrom', frontier');
      routes := RelaxedRoutes(cost, cost', routes, current);
      cost, cameFrom, frontier := cost', cameFrom', frontier';
    }
    if dest in cost {
      r, route := Ok(cost[dest]), routes[dest];
    } else {
      r, route := Err("KeyError: the destination was never reached"), [];
    }
  }

  /** A risk one tile further on: one more, with 9 wrapping round to 1 (lines 84 and 92). */
  function Inc(v: int): (w: int)
    ensures 1 <= v <= 9 ==> 1 <= w <= 9
    ensures v < 9 ==> w == v + 1
  {
    if v < 9 then v + 1 else 1
  }

  /** `Inc` applied `k` times. */
  function IncN(v: int, k: nat): int
  {
    if k == 0 then v else Inc(IncN(v, k - 1))
  }

  /** Stepping `a` tiles and then `b` more is stepping `a + b` tiles. */
  lemma {:induction false} IncNAdd(v: int, a: nat, b: nat)
    ensures IncN(IncN(v, a), b) == IncN(v, a + b)
    decreases b
  {
    if b > 0 {
      IncNAdd(v, a, b - 1);
    }
  }

  /** For a digit 1..9 the risk `k` tiles on is `v + k` wrapped into 1..9. */
  lemma {:induction false} IncNWraps(v: int, k: nat)
    requires 1 <= v <= 9
    ensures IncN(v, k) == (v - 1 + k) % 9 + 1
    decreases k
  {
    if k > 0 {
      IncNWraps(v, k - 1);
    }
  }

  /**
   * Cell `c` of a row copied to the right: the original cell within the first copy, and one
   * tile on from the cell a row-width to its left beyond it.
   */
  function RowAt(base: seq<int>, c: nat): int
    requires |base| > 0
  {
    if c < |base| then base[c] else Inc(RowAt(base, c - |base|))
  }

  /**
   * Cell `(r, c)` of the expanded grid: cell `c` of the copied row `r` within the first band
   * of rows, and one tile on from the cell a grid-height above it beyond it.
   */
  function ExpandedAt(grid: seq<seq<int>>, r: nat, c: nat): int
    requires IsSquare(grid) && r < 5 * |grid|
  {
    if r < |grid| then RowAt(grid[r], c) else Inc(ExpandedAt(grid, r - |grid|, c))
  }

  /** Column `c0` of copy `j` of a row is the original cell `j` tiles on. */
  lemma {:induction false} RowAtTile(base: seq<int>, j: nat, c0: nat)
    requires 0 <= c0 < |base|
    ensures RowAt(base, j * |base| + c0) == IncN(base[c0], j)
    decreases j
  {
    if j > 0 {
      assert j * |base| + c0 - |base| == (j - 1) * |base| + c0;
      RowAtTile(base, j - 1, c0);
    }
  }

  /** Cell `(r0, c0)` of tile `(i, j)` of the expanded grid is the original cell `i + j` tiles on. */
  lemma {:induction false} ExpandedTile(grid: seq<seq<int>>, i: nat, j: nat, r0: nat, c0: nat)
    requires IsSquare(grid) && i < 5 && r0 < |grid| && c0 < |grid|
    ensures i * |grid| + r0 < 5 * |grid|
    ensures ExpandedAt(grid, i * |grid| + r0, j * |grid| + c0) == IncN(grid[r0][c0], i + j)
    decreases i
  {
    var dim := |grid|;
    if i == 0 {
      RowAtTile(grid[r0], j, c0);
    } else {
      assert i * dim + r0 - dim == (i - 1) * dim + r0;
      ExpandedTile(grid, i - 1, j, r0, c0);
      IncNAdd(grid[r0][c0], i - 1 + j, 1);
    }
  }

  /** For a grid of digits 1..9, cell `(r0, c0)` of tile `(i, j)` is the original digit plus `i + j`, wrapped into 1..9. */
  lemma ExpandedWraps(grid: seq<seq<int>>, i: nat, j: nat, r0: nat, c0: nat)
    requires IsSquare(grid) && i < 5 && r0 < |grid| && c0 < |grid| && 1 <= grid[r0][c0] <= 9
    ensures i * |grid| + r0 < 5 * |grid|
    ensures ExpandedAt(grid, i * |grid| + r0, j * |grid| + c0) == (grid[r0][c0] - 1 + i + j) % 9 + 1
  {
    ExpandedTile(grid, i, j, r0, c0);
    IncNWraps(grid[r0][c0], i + j);
  }

  /** A row copied to the right up to width `width`. */
  predicate RowTiled(base: seq<int>, row: seq<int>, width: nat)
    requires |base| > 0
  {
    |row| == width && forall c :: 0 <= c < |row| ==> row[c] == RowAt(base, c)
  }

  /** The inner loop of the horizontal copy, lines 81-84: appends one more copy of the row. */
  method ExtendRow(base: seq<int>, row: seq<int>, copy: nat) returns (row': seq<int>)
    requires |base| > 0 && copy >= 1 && RowTiled(base, row, copy * |base|)
    ensures RowTiled(base, row', copy * |base| + |base|) && row'[..|row|] == row
  {
    var dim := |base|;
    row' := row;
    for col := copy * dim to copy * dim + dim
      invariant RowTiled(base, row', col) && row'[..|row|] == row
    {
      var baseValue := row'[col - dim];
      row' := row' + [if baseValue < 9 then baseValue + 1 else 1];
    }
  }

  /** The inner loop of the vertical copy, lines 89-92: a new row, one tile on from `above`. */
  method NextRow(above: seq<int>) returns (row: seq<int>)
    ensures |row| == |above| && forall c :: 0 <= c < |row| ==> row[c] == Inc(above[c])
  {
    row := [];
    for col := 0 to |above|
      invariant |row| == col && forall c :: 0 <= c < col ==> row[c] == Inc(above[c])
    {
      var baseValue := above[col];
      row := row + [if baseValue < 9 then baseValue + 1 else 1];
    }
  }

  /**
   * The horizontal copy, lines 79-84: every row is copied four times to its right, each
   * copy one tile on.
   */
  method ExpandRight(grid: seq<seq<int>>) returns (g: seq<seq<int>>)
    requires IsSquare(grid) && |grid| > 0
    ensures |g| == |grid| && forall r :: 0 <= r < |g| ==> RowTiled(grid[r], g[r], 5 * |grid|)
  {
    var dim := |grid|;
    g := grid;
    for copy := 1 to 5
      invariant |g| == dim && forall r :: 0 <= r < dim ==> RowTiled(grid[r], g[r], copy * dim)
    {
      for row := 0 to dim
        invariant |g| == dim
        invariant forall r :: 0 <= r < row ==> RowTiled(grid[r], g[r], copy * dim + dim)
        invariant forall r :: row <= r < dim ==> RowTiled(grid[r], g[r], copy * dim)
      {
        var extended := ExtendRow(grid[row], g[row], copy);
        g := g[row := extended];
      }
    }
  }

  /** The first `rows` rows of `g` are as wide as the expanded grid and hold the cells `ExpandedAt` describes. */
  predicate RowsExpanded(grid: seq<seq<int>>, g: seq<seq<int>>, rows: nat)
    requires IsSquare(grid)
  {
    rows <= |g| && rows <= 5 * |grid| &&
    forall r :: 0 <= r < rows ==> |g[r]| == 5 * |grid| && forall c :: 0 <= c < 5 * |grid| ==> g[r][c] == ExpandedAt(grid, r, c)
  }

  /** A row one tile below an expanded row, each risk one higher, extends the expanded rows by one. */
  lemma RowsExpandedSnoc(grid: seq<seq<int>>, g: seq<seq<int>>, newRow: seq<int>)
    requires IsSquare(grid) && |grid| <= |g| < 5 * |grid| && RowsExpanded(grid, g, |g|)
    requires var above := g[|g| - |grid|];
      |newRow| == |above| && forall c :: 0 <= c < |newRow| ==> newRow[c] == Inc(above[c])
    ensures RowsExpanded(grid, g + [newRow], |g| + 1)
  {
    var g', r := g + [newRow], |g|;
    forall k | 0 <= k < r + 1
      ensures |g'[k]| == 5 * |grid| && forall c :: 0 <= c < 5 * |grid| ==> g'[k][c] == ExpandedAt(grid, k, c)
    {
      if k == r {
        assert g'[k] == newRow;
      } else {
        assert g'[k] == g[k];
      }
    }
  }

  /**
   * `expand_grid`, lines 74-92: the grid grows five times in each direction, whatever `n`
   * is; `ExpandedTile` and `ExpandedWraps` say what each tile holds.
   */
  method ExpandGrid(grid: seq<seq<int>>, n: int) returns (g: seq<seq<int>>)
    requires IsSquare(grid)
    ensures IsSquare(g) && |g| == 5 * |grid|
    ensures forall r, c :: 0 <= r < |g| && 0 <= c < |g| ==> g[r][c] == ExpandedAt(grid, r, c)
    ensures NonNegative(grid) ==> NonNegative(g)
  {
    var dim := |grid|;
    if dim == 0 {
      return grid;
    }
    g := ExpandRight(grid);
    for copy := 1 to 5
      invariant |g| == copy * dim && RowsExpanded(grid, g, copy * dim)
    {
      for row := copy * dim to copy * dim + dim
        invariant |g| == row && RowsExpanded(grid, g, row)
      {
        var newRow := NextRow(g[row - dim]);
        RowsExpandedSnoc(grid, g, newRow);
        g := g + [newRow];
      }
    }
    if NonNegative(grid) {
      ExpandedNonNegative(grid, g);
    }
  }

  /** Every line is as long as there are lines, as the puzzle's square map is. */
  predicate SquareLines(lines: seq<string>)
  {
    forall k :: 0 <= k < |lines| ==> |lines[k]| == |lines|
  }

  /** The parsed map of square lines is square, and its risks are digits. */
  lemma ParsedSquare(lines: seq<string>, grid: seq<seq<int>>)
    requires SquareLines(lines) && Day09.ParseGrid(lines) == Ok(grid)
    ensures IsSquare(grid) && |grid| == |lines| && NonNegative(grid)
    ensures (forall k :: 0 <= k < |lines| ==> forall j :: 0 <= j < |lines[k]| ==> lines[k][j] != '0') ==>
      forall r, c :: 0 <= r < |grid| && 0 <= c < |grid| ==> grid[r][c] >= 1
  {
    forall k | 0 <= k < |lines|
      ensures Day09.ParseRow(lines[k]) == Ok(grid[k])
    {
    }
  }

  /** Shared by both parts: A* from the top-left to the bottom-right cell; an empty map has no such cell. */
  method SearchCorners(grid: seq<seq<int>>, maxPops: nat) returns (r: Result<int>, ghost route: seq<Pos>)
    requires IsSquare(grid) && NonNegative(grid)
    ensures |grid| == 0 ==> r.Err?
    ensures r.Ok? ==> IsWalk(|grid|, route, (0, 0), (|grid| - 1, |grid| - 1)) && Risk(grid, route) == r.value
    ensures r.Ok? && (forall a, b :: 0 <= a < |grid| && 0 <= b < |grid| ==> grid[a][b] >= 1) ==> r.value >= 2 * (|grid| - 1)
    ensures |grid| == 1 && maxPops > 0 ==> r == Ok(0)
  {
    var n := |grid|;
    if n == 0 {
      return Err("KeyError: the destination was never reached"), [];
    }
    r, route := AStar(grid, (0, 0), (n - 1, n - 1), maxPops);
    if r.Ok? && forall a, b :: 0 <= a < n && 0 <= b < n ==> grid[a][b] >= 1 {
      HeuristicAdmissible(grid, route, (0, 0), (n - 1, n - 1));
    }
  }

  /**
   * `part_a`, lines 66-71: the least total risk from the top-left to the bottom-right cell.
   * What is returned is the risk of a walk between the corners; with no zero risk it is at
   * least the Manhattan distance between them. A non-digit is a `ValueError`; an empty map
   * is a `KeyError`.
   */
  method PartA(lines: seq<string>, maxPops: nat) returns (r: Result<int>, ghost route: seq<Pos>)
    requires SquareLines(lines)
    ensures Day09.ParseGrid(lines).Err? || |lines| == 0 ==> r.Err?
    ensures r.Ok? ==> Day09.ParseGrid(lines).Ok?
    ensures r.Ok? ==> IsWalk(|lines|, route, (0, 0), (|lines| - 1, |lines| - 1))
    ensures r.Ok? ==> Risk(Day09.ParseGrid(lines).value, route) == r.value
    ensures r.Ok? && (forall k :: 0 <= k < |lines| ==> forall j :: 0 <= j < |lines[k]| ==> lines[k][j] != '0') ==>
      r.value >= 2 * (|lines| - 1)
  {
    var parsed := Day09.ParseGrid(lines);
    if parsed.Err? {
      return Err(parsed.msg), [];
    }
    var grid := parsed.value;
    ParsedSquare(lines, grid);
    r, route := SearchCorners(grid, maxPops);
  }

  /**
   * `part_b`, lines 95-102: the same search on the map expanded five times in each
   * direction, from its top-left to its bottom-right cell.
   */
  method PartB(lines: seq<string>, maxPops: nat) returns (r: Result<int>, ghost route: seq<Pos>)
    requires SquareLines(lines)
    ensures Day09.ParseGrid(lines).Err? || |lines| == 0 ==> r.Err?
    ensures r.Ok? ==> Day09.ParseGrid(lines).Ok?
    ensures r.Ok? ==> IsWalk(5 * |lines|, route, (0, 0), (5 * |lines| - 1, 5 * |lines| - 1))
    ensures r.Ok? ==> ExpandedRisk(Day09.ParseGrid(lines).value, route) == r.value
  {
    var parsed := Day09.ParseGrid(lines);
    if parsed.Err? {
      return Err(parsed.msg), [];
    }
    var grid := parsed.value;
    ParsedSquare(lines, grid);
    var expanded := ExpandGrid(grid, 5);
    r, route := SearchCorners(expanded, maxPops);
    if r.Ok? {
      RiskOfExpanded(grid, expanded, route);
    }
  }

  /**
   * The risk of a walk over the map expanded five times in each direction, read cell by cell
   * through `ExpandedAt`, the first cell not counted.
   */
  ghost function ExpandedRisk(grid: seq<seq<int>>, route: seq<Pos>): int
    requires IsSquare(grid) && forall i :: 0 <= i < |route| ==> InBounds(route[i], 5 * |grid|)
  {
    if |route| <= 1 then 0
    else
      var last := route[|route| - 1];
      assert InBounds(last, 5 * |grid|);
      ExpandedRisk(grid, route[..|route| - 1]) + ExpandedAt(grid, last.0, last.1)
  }

  /** On a grid holding the expansion of `grid`, a walk's risk is its expanded risk. */
  lemma {:induction false} RiskOfExpanded(grid: seq<seq<int>>, g: seq<seq<int>>, route: seq<Pos>)
    requires IsSquare(grid) && IsSquare(g) && |g| == 5 * |grid|
    requires forall r, c :: 0 <= r < |g| && 0 <= c < |g| ==> g[r][c] == ExpandedAt(grid, r, c)
    requires forall i :: 0 <= i < |route| ==> InBounds(route[i], |g|)
    ensures Risk(g, route) == ExpandedRisk(grid, route)
    decreases |route|
  {
    if |route| > 1 {
      var init := route[..|route| - 1];
      assert forall i :: 0 <= i < |init| ==> init[i] == route[i];
      RiskOfExpanded(grid, g, init);
      var last := route[|route| - 1];
      assert InBounds(last, |g|);
    }
  }

  /** Expanding a map of risks without negatives gives one without negatives. */
  lemma ExpandedNonNegative(grid: seq<seq<int>>, g: seq<seq<int>>)
    requires IsSquare(grid) && NonNegative(grid) && IsSquare(g) && |g| == 5 * |grid|
    requires forall r, c :: 0 <= r < |g| && 0 <= c < |g| ==> g[r][c] == ExpandedAt(grid, r, c)
    ensures NonNegative(g)
  {
    forall r, c | 0 <= r < |g| && 0 <= c < |g|
      ensures g[r][c] >= 0
    {
      ExpandedAtNonNegative(grid, r, c);
    }
  }

  /** `ExpandedAt` of a map without negatives is never negative. */
  lemma {:induction false} ExpandedAtNonNegative(grid: seq<seq<int>>, r: nat, c: nat)
    requires IsSquare(grid) && NonNegative(grid) && r < 5 * |grid|
    ensures ExpandedAt(grid, r, c) >= 0
    decreases r
  {
    if r < |grid| {
      RowAtNonNegative(grid[r], c);
    } else {
      ExpandedAtNonNegative(grid, r - |grid|, c);
    }
  }

  /** `RowAt` of a row without negatives is never negative. */
  lemma {:induction false} RowAtNonNegative(base: seq<int>, c: nat)
    requires |base| > 0 && forall k :: 0 <= k < |base| ==> base[k] >= 0
    ensures RowAt(base, c) >= 0
    decreases c
  {
    if c >= |base| {
      RowAtNonNegative(base, c - |base|);
    }
  }
}
