/**
 * Day 21, Dirac dice: two pawns move round a circular track of ten spaces, scoring the
 * space they land on. Part A rolls a deterministic 1..100 die until a score reaches 1000;
 * part B splits the universe three ways on every roll and counts the wins of each player
 * to 21 across all universes.
 */
module Day21 {
  import opened Util

  // ---------------------------------------------------------------------------
  // The track
  // ---------------------------------------------------------------------------

  /** `pos += n; if pos > 10: pos -= 10`. */
  function Advance(pos: int, n: int): (p: int)
    ensures 1 <= pos <= 10 && 0 <= n <= 9 ==> 1 <= p <= 10
    ensures pos >= 1 && n >= 0 ==> p >= 1
  {
    if pos + n > 10 then pos + n - 10 else pos + n
  }

  /** On the track of ten, moving n spaces is adding n modulo ten (spaces numbered 1..10). */
  lemma AdvanceIsCircular(pos: int, n: int)
    requires 1 <= pos <= 10 && 0 <= n <= 9
    ensures Advance(pos, n) == (pos - 1 + n) % 10 + 1
  {
  }

  /** The starting position: `int(line.split()[-1])`. */
  function StartPosition(line: string): Result<int>
  {
    match LastWord(line)
    case Err(e) => Err(e)
    case Ok(w) =>
      match ParseInt(w)
      case None => Err("ValueError: invalid literal for int()")
      case Some(p) => Ok(p)
  }

  /**
   * Both starting positions, from the first two lines. The first line is read before the
   * second is indexed, so a bad first line raises its own error even when it is the only one.
   */
  function StartPositions(lines: seq<string>): (r: Result<(int, int)>)
    ensures |lines| == 0 ==> r == Err("IndexError: list index out of range")
    ensures |lines| >= 1 && StartPosition(lines[0]).Err? ==> r == Err(StartPosition(lines[0]).msg)
    ensures |lines| == 1 && StartPosition(lines[0]).Ok? ==> r == Err("IndexError: list index out of range")
    ensures r.Ok? <==> |lines| >= 2 && StartPosition(lines[0]).Ok? && StartPosition(lines[1]).Ok?
    ensures r.Ok? ==> r.value == (StartPosition(lines[0]).value, StartPosition(lines[1]).value)
  {
    if |lines| == 0 then Err("IndexError: list index out of range")
    else
      match StartPosition(lines[0])
      case Err(e) => Err(e)
      case Ok(a) =>
        if |lines| < 2 then Err("IndexError: list index out of range")
        else
          match StartPosition(lines[1])
          case Err(e) => Err(e)
          case Ok(b) => Ok((a, b))
  }

  /** A single line whose last word is not a number raises the `int` error, not `IndexError`. */
  lemma OneBadLineExample()
    ensures StartPositions(["x"]) == Err("ValueError: invalid literal for int()")
  {
    assert LastWord("x") == Ok("x");
    assert ParseInt("x").None?;
  }

  /**
   * Whether the starting positions let the games end: from a position of at least 1 every
   * move scores at least 1. From a lower position the Python loop and recursion need not stop.
   */
  predicate PlayableStart(lines: seq<string>)
  {
    StartPositions(lines).Ok? ==> StartPositions(lines).value.0 >= 1 && StartPositions(lines).value.1 >= 1
  }

  // ---------------------------------------------------------------------------
  // part_a: the deterministic die
  // ---------------------------------------------------------------------------

  /** The k-th roll (from 0) of `itertools.cycle(range(1, 101))`. */
  function DieValue(k: nat): (v: int)
    ensures 1 <= v <= 100
  {
    k % 100 + 1
  }

  /** The die repeats with period 100. */
  lemma DieCycles(k: nat)
    ensures DieValue(k + 100) == DieValue(k)
    ensures DieValue(k) == k + 1 || (k >= 100 && DieValue(k) == DieValue(k - 100))
  {
  }

  /** The cyclic die, an iterator that remembers how many values it has handed out. */
  class Die {
    var rolled: nat

    constructor ()
      ensures rolled == 0
    {
      rolled := 0;
    }

    /** `more_itertools.take(3, die)`. */
    method Take3() returns (rolls: seq<int>)
      modifies this
      ensures rolls == [DieValue(old(rolled)), DieValue(old(rolled) + 1), DieValue(old(rolled) + 2)]
      ensures rolled == old(rolled) + 3
    {
      rolls := [rolled % 100 + 1, (rolled + 1) % 100 + 1, (rolled + 2) % 100 + 1];
      rolled := rolled + 3;
    }
  }

  /** The state of the deterministic game. */
  datatype Game = Game(aPos: int, bPos: int, aScore: int, bScore: int, turn: nat)

  /** The spaces moved on turn `turn` (from 1): the three rolls of that turn, modulo 10. */
  function TurnMove(turn: nat): (n: int)
    requires turn >= 1
    ensures 0 <= n <= 9
  {
    var k := 3 * (turn - 1);
    (DieValue(k) + DieValue(k + 1) + DieValue(k + 2)) % 10
  }

  /** The three rolls handed out on turn `turn` move the player TurnMove(turn) spaces. */
  lemma TurnRolls(turn: nat, rolls: seq<int>, n: int)
    requires turn >= 1
    requires rolls == [DieValue(3 * (turn - 1)), DieValue(3 * (turn - 1) + 1), DieValue(3 * (turn - 1) + 2)]
    requires n == (rolls[0] + rolls[1] + rolls[2]) % 10
    ensures n == TurnMove(turn)
  {
  }

  /** One turn of the loop: player A moves on odd turns, player B on even ones. */
  function PlayTurn(g: Game): Game
  {
    var turn := g.turn + 1;
    var n := TurnMove(turn);
    if turn % 2 == 1 then
      var p := Advance(g.aPos, n);
      g.(aPos := p, aScore := g.aScore + p, turn := turn)
    else
      var p := Advance(g.bPos, n);
      g.(bPos := p, bScore := g.bScore + p, turn := turn)
  }

  /** How far both scores are from 1000. */
  function Slack1000(g: Game): nat
  {
    (if g.aScore < 1000 then 1000 - g.aScore else 0) + (if g.bScore < 1000 then 1000 - g.bScore else 0)
  }

  /** The game played out: turns until one score reaches 1000. */
  function Play(g: Game): (r: Game)
    requires g.aPos >= 1 && g.bPos >= 1
    ensures r.aScore >= 1000 || r.bScore >= 1000
    ensures r.turn >= g.turn && r.aPos >= 1 && r.bPos >= 1
    decreases Slack1000(g)
  {
    if g.aScore >= 1000 || g.bScore >= 1000 then g else Play(PlayTurn(g))
  }

  /** Play stops the moment a score reaches 1000, so the other player has not reached it. */
  lemma {:induction false} PlayStopsAtFirstWinner(g: Game)
    requires g.aPos >= 1 && g.bPos >= 1 && g.aScore < 1000 && g.bScore < 1000
    ensures var r := Play(g); (r.aScore >= 1000) != (r.bScore >= 1000)
    ensures Play(g).turn > g.turn
    decreases Slack1000(g)
  {
    var h := PlayTurn(g);
    if h.aScore < 1000 && h.bScore < 1000 {
      PlayStopsAtFirstWinner(h);
    }
  }

  /** From positions on the track, every position the game reaches stays on the track. */
  lemma {:induction false} PlayStaysOnTrack(g: Game)
    requires 1 <= g.aPos <= 10 && 1 <= g.bPos <= 10
    ensures 1 <= Play(g).aPos <= 10 && 1 <= Play(g).bPos <= 10
    decreases Slack1000(g)
  {
    if g.aScore < 1000 && g.bScore < 1000 {
      PlayStaysOnTrack(PlayTurn(g));
    }
  }

  /** The answer of part A: the losing score times the number of rolls. */
  function ScoreA(a: int, b: int): int
    requires a >= 1 && b >= 1
  {
    var r := Play(Game(a, b, 0, 0, 0));
    Min2(r.aScore, r.bScore) * (r.turn * 3)
  }

  /** The game loop of `part_a`, with the die as a stateful iterator. */
  method PlayDeterministic(aStart: int, bStart: int) returns (answer: int)
    requires aStart >= 1 && bStart >= 1
    ensures answer == ScoreA(aStart, bStart)
  {
    var aPos, bPos := aStart, bStart;
    var aScore, bScore := 0, 0;
    var die := new Die();
    var turn: nat := 0;
    while aScore < 1000 && bScore < 1000
      invariant aPos >= 1 && bPos >= 1 && die.rolled == 3 * turn
      invariant Play(Game(aPos, bPos, aScore, bScore, turn)) == Play(Game(aStart, bStart, 0, 0, 0))
      decreases Slack1000(Game(aPos, bPos, aScore, bScore, turn))
    {
      ghost var g := Game(aPos, bPos, aScore, bScore, turn);
      turn := turn + 1;
      var rolls := die.Take3();
      var n := (rolls[0] + rolls[1] + rolls[2]) % 10;
      TurnRolls(turn, rolls, n);
      if turn % 2 == 1 {
        aPos := aPos + n;
        if aPos > 10 {
          aPos := aPos - 10;
        }
        aScore := aScore + aPos;
      } else {
        bPos := bPos + n;
        if bPos > 10 {
          bPos := bPos - 10;
        }
        bScore := bScore + bPos;
      }
      assert Game(aPos, bPos, aScore, bScore, turn) == PlayTurn(g);
    }
    answer := Min2(aScore, bScore) * (turn * 3);
  }

  /** `part_a(lines)`. */
  method PartA(lines: seq<string>) returns (r: Result<int>)
    requires PlayableStart(lines)
    ensures r == match StartPositions(lines)
                 case Err(e) => Err(e)
                 case Ok((a, b)) => Ok(ScoreA(a, b))
  {
    var start := StartPositions(lines);
    if start.Err? {
      return Err(start.msg);
    }
    var answer := PlayDeterministic(start.value.0, start.value.1);
    return Ok(answer);
  }

  // ---------------------------------------------------------------------------
  // part_b: the Dirac die
  // ---------------------------------------------------------------------------

  /** `itertools.product((1, 2, 3), repeat=3)`, in its order: the last roll varies fastest. */
  function Rolls(): (rs: seq<(int, int, int)>)
    ensures |rs| == 27
    ensures forall k :: 0 <= k < 27 ==> rs[k] == (k / 9 + 1, k / 3 % 3 + 1, k % 3 + 1)
  {
    seq(27, k => (k / 9 + 1, k / 3 % 3 + 1, k % 3 + 1))
  }

  /** The total of the k-th triple. */
  function RollSum(k: nat): (n: int)
    requires k < 27
    ensures 3 <= n <= 9
  {
    k / 9 + k / 3 % 3 + k % 3 + 3
  }

  /** RollSum(k) is the total of the k-th triple of `product((1, 2, 3), repeat=3)`. */
  lemma RollSumIsTotal(k: nat)
    requires k < 27
    ensures RollSum(k) == Rolls()[k].0 + Rolls()[k].1 + Rolls()[k].2
  {
  }

  /** How far both scores are from 21. */
  function Slack21(thisScore: int, otherScore: int): nat
  {
    (if thisScore < 21 then 21 - thisScore else 0) + (if otherScore < 21 then 21 - otherScore else 0)
  }

  function Add(a: (nat, nat), b: (nat, nat)): (nat, nat)
  {
    (a.0 + b.0, a.1 + b.1)
  }

  /**
   * `better_count_wins(this_pos, other_pos, this_score, other_score)`: the wins of the player
   * about to move and of the other player, over every universe.
   */
  function Wins(thisPos: int, otherPos: int, thisScore: int, otherScore: int): (r: (nat, nat))
    requires thisPos >= 1 && otherPos >= 1
    decreases Slack21(thisScore, otherScore), 1
  {
    WinsOver(thisPos, otherPos, thisScore, otherScore, 27)
  }

  /** The wins summed over the first k roll triples. */
  function WinsOver(thisPos: int, otherPos: int, thisScore: int, otherScore: int, k: nat): (r: (nat, nat))
    requires thisPos >= 1 && otherPos >= 1 && k <= 27
    decreases Slack21(thisScore, otherScore), 0, k
  {
    if k == 0 then (0, 0)
    else Add(WinsOver(thisPos, otherPos, thisScore, otherScore, k - 1),
             Outcome(thisPos, otherPos, thisScore, otherScore, RollSum(k - 1)))
  }

  /** What one roll total contributes: a win for the mover, or the swapped wins of the universe it opens. */
  function Outcome(thisPos: int, otherPos: int, thisScore: int, otherScore: int, n: int): (r: (nat, nat))
    requires thisPos >= 1 && otherPos >= 1 && n >= 0
    decreases Slack21(thisScore, otherScore), 0, 0
  {
    var newPos := Advance(thisPos, n);
    var newScore := thisScore + newPos;
    if newScore >= 21 then (1, 0)
    else
      var (moreOther, moreThis) := Wins(otherPos, newPos, otherScore, newScore);
      (moreThis, moreOther)
  }

  /** How many of the 27 triples have each total: 1, 3, 6, 7, 6, 3, 1 for totals 3..9. */
  function Frequency(n: int): nat
  {
    if n == 3 || n == 9 then 1
    else if n == 4 || n == 8 then 3
    else if n == 5 || n == 7 then 6
    else if n == 6 then 7
    else 0
  }

  function Scale(m: nat, a: (nat, nat)): (nat, nat)
  {
    (m * a.0, m * a.1)
  }

  /** What each roll total 0..9 contributes from this state. */
  function Table(thisPos: int, otherPos: int, thisScore: int, otherScore: int): (g: seq<(nat, nat)>)
    requires thisPos >= 1 && otherPos >= 1
    ensures |g| == 10
  {
    seq(10, n requires 0 <= n < 10 => Outcome(thisPos, otherPos, thisScore, otherScore, n))
  }

  /** A table of contributions summed over the first k triples. */
  function SumTriples(g: seq<(nat, nat)>, k: nat): (nat, nat)
    requires |g| == 10 && k <= 27
  {
    if k == 0 then (0, 0) else Add(SumTriples(g, k - 1), g[RollSum(k - 1)])
  }

  /** A table of contributions for the totals 3..n, each weighted by how many triples give it. */
  function ByTotal(g: seq<(nat, nat)>, n: int): (nat, nat)
    requires |g| == 10 && 2 <= n <= 9
    decreases n
  {
    if n == 2 then (0, 0) else Add(ByTotal(g, n - 1), Scale(Frequency(n), g[n]))
  }

  /** The 27 triples, grouped by their totals. */
  lemma GroupTotals(g: seq<(nat, nat)>)
    requires |g| == 10
    ensures SumTriples(g, 27) == ByTotal(g, 9)
  {
    TriplesBlock0(g);
    TriplesBlock1(g);
    TriplesBlock2(g);
    ByTotalWeights(g);
    assert SumTriples(g, 27).0 == ByTotal(g, 9).0;
    assert SumTriples(g, 27).1 == ByTotal(g, 9).1;
  }

  /** The first nine triples have first roll 1: totals 3..7, reached 1, 2, 3, 2, 1 ways. */
  lemma TriplesBlock0(g: seq<(nat, nat)>)
    requires |g| == 10
    ensures SumTriples(g, 9).0 == SumTriples(g, 0).0 + g[3].0 + 2 * g[4].0 + 3 * g[5].0 + 2 * g[6].0 + g[7].0
    ensures SumTriples(g, 9).1 == SumTriples(g, 0).1 + g[3].1 + 2 * g[4].1 + 3 * g[5].1 + 2 * g[6].1 + g[7].1
  {
    RollSumValues0();
    SumStep(g, 0, 3);
    SumStep(g, 1, 4);
    SumStep(g, 2, 5);
    SumStep(g, 3, 4);
    SumStep(g, 4, 5);
    SumStep(g, 5, 6);
    SumStep(g, 6, 5);
    SumStep(g, 7, 6);
    SumStep(g, 8, 7);
  }

  /** The second nine triples have first roll 2: totals 4..8, reached 1, 2, 3, 2, 1 ways. */
  lemma TriplesBlock1(g: seq<(nat, nat)>)
    requires |g| == 10
    ensures SumTriples(g, 18).0 == SumTriples(g, 9).0 + g[4].0 + 2 * g[5].0 + 3 * g[6].0 + 2 * g[7].0 + g[8].0
    ensures SumTriples(g, 18).1 == SumTriples(g, 9).1 + g[4].1 + 2 * g[5].1 + 3 * g[6].1 + 2 * g[7].1 + g[8].1
  {
    RollSumValues1();
    SumStep(g, 9, 4);
    SumStep(g, 10, 5);
    SumStep(g, 11, 6);
    SumStep(g, 12, 5);
    SumStep(g, 13, 6);
    SumStep(g, 14, 7);
    SumStep(g, 15, 6);
    SumStep(g, 16, 7);
    SumStep(g, 17, 8);
  }

  /** The third nine triples have first roll 3: totals 5..9, reached 1, 2, 3, 2, 1 ways. */
  lemma TriplesBlock2(g: seq<(nat, nat)>)
    requires |g| == 10
    ensures SumTriples(g, 27).0 == SumTriples(g, 18).0 + g[5].0 + 2 * g[6].0 + 3 * g[7].0 + 2 * g[8].0 + g[9].0
    ensures SumTriples(g, 27).1 == SumTriples(g, 18).1 + g[5].1 + 2 * g[6].1 + 3 * g[7].1 + 2 * g[8].1 + g[9].1
  {
    RollSumValues2();
    SumStep(g, 18, 5);
    SumStep(g, 19, 6);
    SumStep(g, 20, 7);
    SumStep(g, 21, 6);
    SumStep(g, 22, 7);
    SumStep(g, 23, 8);
    SumStep(g, 24, 7);
    SumStep(g, 25, 8);
    SumStep(g, 26, 9);
  }

  /** The totals of the first nine triples, whose first roll is 1. */
  lemma RollSumValues0()
    ensures RollSum(0) == 3 && RollSum(1) == 4 && RollSum(2) == 5 && RollSum(3) == 4 && RollSum(4) == 5 && RollSum(5) == 6 && RollSum(6) == 5 && RollSum(7) == 6 && RollSum(8) == 7
  {
  }

  /** The totals of the second nine triples, whose first roll is 2. */
  lemma RollSumValues1()
    ensures RollSum(9) == 4 && RollSum(10) == 5 && RollSum(11) == 6 && RollSum(12) == 5 && RollSum(13) == 6 && RollSum(14) == 7 && RollSum(15) == 6 && RollSum(16) == 7 && RollSum(17) == 8
  {
  }

  /** The totals of the third nine triples, whose first roll is 3. */
  lemma RollSumValues2()
    ensures RollSum(18) == 5 && RollSum(19) == 6 && RollSum(20) == 7 && RollSum(21) == 6 && RollSum(22) == 7 && RollSum(23) == 8 && RollSum(24) == 7 && RollSum(25) == 8 && RollSum(26) == 9
  {
  }

  /** Adding the (k+1)-th triple, whose total is t. */
  lemma SumStep(g: seq<(nat, nat)>, k: nat, t: nat)
    requires |g| == 10 && k < 27 && RollSum(k) == t
    ensures SumTriples(g, k + 1).0 == SumTriples(g, k).0 + g[t].0
    ensures SumTriples(g, k + 1).1 == SumTriples(g, k).1 + g[t].1
  {
  }

  /** The frequency-weighted sum over the totals 3..9. */
  lemma ByTotalWeights(g: seq<(nat, nat)>)
    requires |g| == 10
    ensures var b := ByTotal(g, 9);
      && b.0 == g[3].0 + 3 * g[4].0 + 6 * g[5].0 + 7 * g[6].0 + 6 * g[7].0 + 3 * g[8].0 + g[9].0
      && b.1 == g[3].1 + 3 * g[4].1 + 6 * g[5].1 + 7 * g[6].1 + 6 * g[7].1 + 3 * g[8].1 + g[9].1
  {
    assert ByTotal(g, 3) == Add((0, 0), Scale(1, g[3]));
    assert ByTotal(g, 4) == Add(ByTotal(g, 3), Scale(3, g[4]));
    assert ByTotal(g, 5) == Add(ByTotal(g, 4), Scale(6, g[5]));
    assert ByTotal(g, 6) == Add(ByTotal(g, 5), Scale(7, g[6]));
    assert ByTotal(g, 7) == Add(ByTotal(g, 6), Scale(6, g[7]));
    assert ByTotal(g, 8) == Add(ByTotal(g, 7), Scale(3, g[8]));
  }

  /** The recursion's enumeration is the table summed over the triples. */
  lemma {:induction false} WinsOverTable(thisPos: int, otherPos: int, thisScore: int, otherScore: int, k: nat)
    requires thisPos >= 1 && otherPos >= 1 && k <= 27
    ensures WinsOver(thisPos, otherPos, thisScore, otherScore, k) == SumTriples(Table(thisPos, otherPos, thisScore, otherScore), k)
  {
    if k > 0 {
      WinsOverTable(thisPos, otherPos, thisScore, otherScore, k - 1);
    }
  }

  /** The reference count: the roll totals 3..9, each weighted by how many triples give it. */
  function WinsByTotal(thisPos: int, otherPos: int, thisScore: int, otherScore: int): (nat, nat)
    requires thisPos >= 1 && otherPos >= 1
  {
    ByTotal(Table(thisPos, otherPos, thisScore, otherScore), 9)
  }

  /**
   * Enumerating the 27 triples one by one, as `better_count_wins` does, gives the same wins
   * as weighting the seven totals by their frequency.
   */
  lemma WinsGrouped(thisPos: int, otherPos: int, thisScore: int, otherScore: int)
    requires thisPos >= 1 && otherPos >= 1
    ensures Wins(thisPos, otherPos, thisScore, otherScore) == WinsByTotal(thisPos, otherPos, thisScore, otherScore)
  {
    WinsOverTable(thisPos, otherPos, thisScore, otherScore, 27);
    GroupTotals(Table(thisPos, otherPos, thisScore, otherScore));
  }

  /** A mover within one point of 21 wins in all 27 universes of this turn. */
  lemma ImmediateWin(thisPos: int, otherPos: int, thisScore: int, otherScore: int)
    requires thisPos >= 1 && otherPos >= 1 && thisScore >= 20
    ensures Wins(thisPos, otherPos, thisScore, otherScore) == (27, 0)
  {
    WinsGrouped(thisPos, otherPos, thisScore, otherScore);
  }

  /** One more triple adds its outcome to the running wins. */
  lemma WinsOverStep(thisPos: int, otherPos: int, thisScore: int, otherScore: int, k: nat, n: int)
    requires thisPos >= 1 && otherPos >= 1 && k < 27 && n == Rolls()[k].0 + Rolls()[k].1 + Rolls()[k].2
    ensures WinsOver(thisPos, otherPos, thisScore, otherScore, k + 1)
            == Add(WinsOver(thisPos, otherPos, thisScore, otherScore, k), Outcome(thisPos, otherPos, thisScore, otherScore, n))
  {
    RollSumIsTotal(k);
  }

  /** A roll that reaches 21 is a win for the mover; any other hands the turn over with the scores swapped. */
  lemma OutcomeCases(thisPos: int, otherPos: int, thisScore: int, otherScore: int, n: int, newPos: int)
    requires thisPos >= 1 && otherPos >= 1 && n >= 0
    requires newPos == if thisPos + n > 10 then thisPos + n - 10 else thisPos + n
    ensures newPos >= 1
    ensures thisScore + newPos >= 21 ==> Outcome(thisPos, otherPos, thisScore, otherScore, n) == (1, 0)
    ensures thisScore + newPos < 21 ==>
      var w := Wins(otherPos, newPos, otherScore, thisScore + newPos);
      Outcome(thisPos, otherPos, thisScore, otherScore, n) == (w.1, w.0)
  {
  }

  /** `better_count_wins`, with its loop over the 27 roll triples and its recursive calls. */
  method BetterCountWins(thisPos: int, otherPos: int, thisScore: int, otherScore: int) returns (thisWins: nat, otherWins: nat)
    requires thisPos >= 1 && otherPos >= 1
    ensures thisWins == Wins(thisPos, otherPos, thisScore, otherScore).0
    ensures otherWins == Wins(thisPos, otherPos, thisScore, otherScore).1
    decreases Slack21(thisScore, otherScore)
  {
    thisWins, otherWins := 0, 0;
    var rolls := Rolls();
    for k := 0 to 27
      invariant thisWins == WinsOver(thisPos, otherPos, thisScore, otherScore, k).0
      invariant otherWins == WinsOver(thisPos, otherPos, thisScore, otherScore, k).1
    {
      var roll := rolls[k];
      var n := roll.0 + roll.1 + roll.2;
      var newThisPos := thisPos + n;
      if newThisPos > 10 {
        newThisPos := newThisPos - 10;
      }
      var newThisScore := thisScore + newThisPos;
      WinsOverStep(thisPos, otherPos, thisScore, otherScore, k, n);
      OutcomeCases(thisPos, otherPos, thisScore, otherScore, n, newThisPos);
      if newThisScore >= 21 {
        thisWins := thisWins + 1;
      } else {
        var moreOther, moreThis := BetterCountWins(otherPos, newThisPos, otherScore, newThisScore);
        thisWins := thisWins + moreThis;
        otherWins := otherWins + moreOther;
      }
    }
  }

  /** `part_b(lines)`: the larger win count from the starting positions. */
  method PartB(lines: seq<string>) returns (r: Result<nat>)
    requires PlayableStart(lines)
    ensures r == match StartPositions(lines)
                 case Err(e) => Err(e)
                 case Ok((a, b)) =>
                   var w := Wins(a, b, 0, 0);
                   Ok(if w.0 >= w.1 then w.0 else w.1)
  {
    var start := StartPositions(lines);
    if start.Err? {
      return Err(start.msg);
    }
    var a, b := BetterCountWins(start.value.0, start.value.1, 0, 0);
    return Ok(if a >= b then a else b);
  }
}
