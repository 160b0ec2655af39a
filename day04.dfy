/**
 * Day 4, bingo: numbers are drawn one at a time and marked on every 5x5 board that holds
 * them; a board wins with a fully marked row or column, and its score is the draw times
 * the sum of its unmarked numbers. Part A scores the first winner, part B the last.
 */
module Day04 {
  import opened Util

  const BoardSize: nat := 5
  const Cells: nat := BoardSize * BoardSize

  // ---------------------------------------------------------------------------
  // Reading the input
  // ---------------------------------------------------------------------------

  /** `[int(s) for s in lines[0].split(',')]`. */
  function Picks(lines: seq<string>): (r: Result<seq<int>>)
    ensures |lines| == 0 ==> r == Err("IndexError: list index out of range")
    ensures |lines| > 0 && r.Ok? ==> |r.value| == Count(lines[0], ',') + 1
  {
    if |lines| == 0 then Err("IndexError: list index out of range")
    else ParseInts(Split(lines[0], ','))
  }

  /** The numbers of the board whose first line is `lines[i]`: the next five lines, joined and split. */
  function BoardAt(lines: seq<string>, i: nat): Result<seq<int>>
    requires i < |lines|
  {
    var end := if i + BoardSize <= |lines| then i + BoardSize else |lines|;
    ParseInts(Words(Join(lines[i..end], ' ')))
  }

  /** The boards from line `i` on, one every six lines, after the boards `found` already read. */
  function BoardsFrom(lines: seq<string>, i: nat, found: seq<seq<int>>): Result<seq<seq<int>>>
    decreases |lines| - i
  {
    if i >= |lines| then Ok(found)
    else
      match BoardAt(lines, i)
      case Err(e) => Err(e)
      case Ok(b) => BoardsFrom(lines, i + BoardSize + 1, found + [b])
  }

  /** One step of reading: a board that does not parse ends it, one that does is appended. */
  lemma BoardsFromStep(lines: seq<string>, i: nat, found: seq<seq<int>>, b: Result<seq<int>>)
    requires i < |lines| && b == BoardAt(lines, i)
    ensures b.Err? ==> BoardsFrom(lines, i, found) == Err(b.msg)
    ensures b.Ok? ==> BoardsFrom(lines, i, found) == BoardsFrom(lines, i + BoardSize + 1, found + [b.value])
  {
  }

  /** Past the last line there is nothing more to read. */
  lemma BoardsFromEnd(lines: seq<string>, i: nat, found: seq<seq<int>>)
    requires i >= |lines|
    ensures BoardsFrom(lines, i, found) == Ok(found)
  {
  }

  /** Reading goes on to the end: one board per started block of six lines, after those already found. */
  lemma {:induction false} BoardsFromCount(lines: seq<string>, i: nat, found: seq<seq<int>>)
    requires BoardsFrom(lines, i, found).Ok?
    ensures var r := BoardsFrom(lines, i, found).value;
      |r| == |found| + (if i < |lines| then (|lines| - i + BoardSize) / (BoardSize + 1) else 0) &&
      r[..|found|] == found
    decreases |lines| - i
  {
    if i < |lines| {
      var b := BoardAt(lines, i).value;
      BoardsFromCount(lines, i + BoardSize + 1, found + [b]);
      assert (found + [b])[..|found|] == found;
    }
  }

  /** The boards of `build_boards_and_results`: the first starts at line 2. */
  function Boards(lines: seq<string>): Result<seq<seq<int>>>
  {
    BoardsFrom(lines, 2, [])
  }

  /** Reading the board that starts at line i: an error ends the reading, a board is appended. */
  method ReadBoard(lines: seq<string>, i: nat, ghost found: seq<seq<int>>) returns (b: Result<seq<int>>)
    requires i < |lines|
    ensures b.Err? ==> BoardsFrom(lines, i, found) == Err(b.msg)
    ensures b.Ok? ==> BoardsFrom(lines, i, found) == BoardsFrom(lines, i + BoardSize + 1, found + [b.value])
  {
    b := BoardAt(lines, i);
    BoardsFromStep(lines, i, found, b);
  }

  /** The board-reading loop: one board every six lines from line 2 on. */
  method ReadBoards(lines: seq<string>) returns (boards: Result<seq<seq<int>>>)
    ensures boards == Boards(lines)
  {
    ghost var want := Boards(lines);
    var lineI := 2;
    var found: seq<seq<int>> := [];
    while lineI < |lines|
      invariant lineI >= 2
      invariant BoardsFrom(lines, lineI, found) == want
      decreases |lines| - lineI
    {
      var thisBoard := ReadBoard(lines, lineI, found);
      if thisBoard.Err? {
        return Err(thisBoard.msg);
      }
      found := found + [thisBoard.value];
      lineI := lineI + BoardSize + 1;
    }
    BoardsFromEnd(lines, lineI, found);
    boards := Ok(found);
  }

  /** One fresh all-unmarked flag array per board, no two of them shared. */
  method FreshResults(boards: seq<seq<int>>) returns (results: seq<array<bool>>)
    ensures |results| == |boards|
    ensures forall k :: 0 <= k < |results| ==>
              fresh(results[k]) && results[k][..] == seq(|boards[k]|, _ => false)
    ensures forall k, l :: 0 <= k < l < |results| ==> results[k] != results[l]
  {
    results := [];
    for k := 0 to |boards|
      invariant |results| == k
      invariant forall j :: 0 <= j < k ==> fresh(results[j]) && results[j][..] == seq(|boards[j]|, _ => false)
      invariant forall j, l :: 0 <= j < l < k ==> results[j] != results[l]
    {
      var flags := new bool[|boards[k]|](_ => false);
      results := results + [flags];
    }
  }

  /** `build_boards_and_results`: the boards, and for each a fresh list of unmarked flags. */
  method BuildBoardsAndResults(lines: seq<string>) returns (boards: Result<seq<seq<int>>>, results: seq<array<bool>>)
    ensures boards == Boards(lines)
    ensures boards.Ok? ==> |results| == |boards.value|
    ensures boards.Ok? ==> forall k :: 0 <= k < |results| ==>
              fresh(results[k]) && results[k][..] == seq(|boards.value[k]|, _ => false)
    ensures forall k, l :: 0 <= k < l < |results| ==> results[k] != results[l]
  {
    boards := ReadBoards(lines);
    results := [];
    if boards.Ok? {
      results := FreshResults(boards.value);
    }
  }

  // ---------------------------------------------------------------------------
  // apply_pick
  // ---------------------------------------------------------------------------

  /** The flags after a pick: every cell holding the pick becomes marked. */
  function Marked(marks: seq<bool>, board: seq<int>, pick: int): (m: seq<bool>)
    requires |marks| == |board|
    ensures |m| == |board|
  {
    seq(|board|, k requires 0 <= k < |board| => marks[k] || board[k] == pick)
  }

  /** Marking never clears a flag, marks exactly the cells holding the pick, and leaves the rest. */
  lemma MarkedExactly(marks: seq<bool>, board: seq<int>, pick: int)
    requires |marks| == |board|
    ensures forall k :: 0 <= k < |board| && marks[k] ==> Marked(marks, board, pick)[k]
    ensures forall k :: 0 <= k < |board| && board[k] == pick ==> Marked(marks, board, pick)[k]
    ensures forall k :: 0 <= k < |board| && board[k] != pick ==> Marked(marks, board, pick)[k] == marks[k]
    ensures pick !in board ==> Marked(marks, board, pick) == marks
  {
  }

  /** Drawing the same number twice marks nothing more. */
  lemma MarkedIdempotent(marks: seq<bool>, board: seq<int>, pick: int)
    requires |marks| == |board|
    ensures Marked(Marked(marks, board, pick), board, pick) == Marked(marks, board, pick)
  {
  }

  /** `apply_pick(pick, board, board_results)`: marks in place; true iff the board holds the pick. */
  method ApplyPick(pick: int, board: seq<int>, boardResults: array<bool>) returns (foundPick: bool)
    requires boardResults.Length == |board|
    modifies boardResults
    ensures boardResults[..] == Marked(old(boardResults[..]), board, pick)
    ensures foundPick <==> pick in board
  {
    foundPick := false;
    for numI := 0 to |board|
      invariant forall k :: 0 <= k < numI ==> boardResults[k] == (old(boardResults[k]) || board[k] == pick)
      invariant forall k :: numI <= k < |board| ==> boardResults[k] == old(boardResults[k])
      invariant foundPick <==> pick in board[..numI]
    {
      assert board[..numI + 1] == board[..numI] + [board[numI]];
      if board[numI] == pick {
        boardResults[numI] := true;
        foundPick := true;
      }
    }
    assert board[..|board|] == board;
  }

  // ---------------------------------------------------------------------------
  // check_board
  // ---------------------------------------------------------------------------

  /** `all(board_results[i:i+5])`: a slice past the end is cut short. */
  predicate RowMarked(marks: seq<bool>, i: nat)
  {
    forall k :: i <= k < i + BoardSize && k < |marks| ==> marks[k]
  }

  /** Whether one of the rows starting at 0, 5, ..., below `end` is fully marked. */
  predicate SomeRowMarked(marks: seq<bool>, end: nat)
  {
    exists r :: 0 <= r < end && r % BoardSize == 0 && RowMarked(marks, r)
  }

  /** `all([board_results[j] for j in range(i, 25, 5)])`. */
  predicate ColumnMarked(marks: seq<bool>, i: nat)
  {
    forall k :: 0 <= k < Cells && k < |marks| && k % BoardSize == i ==> marks[k]
  }

  /** The column check from column `i` on: the list of a column's flags raises when it runs past the end. */
  function ColumnsFrom(marks: seq<bool>, i: nat): (r: Result<bool>)
    requires i <= BoardSize
    decreases BoardSize - i
  {
    if i == BoardSize then Ok(false)
    else if i + BoardSize * (BoardSize - 1) >= |marks| then Err("IndexError: list index out of range")
    else if ColumnMarked(marks, i) then Ok(true)
    else ColumnsFrom(marks, i + 1)
  }

  /**
   * Which rows `check_board` scans: as written, `range(0, 20, 5)` stops before the last row
   * (cells 20..24); the corrected check scans all five.
   */
  datatype RowScan = AsWritten | AllRows

  /** The bound of the row loop: 20 as written, 25 corrected. */
  function RowsEnd(scan: RowScan): (end: nat)
    ensures end % BoardSize == 0 && end <= Cells
  {
    match scan
    case AsWritten => BoardSize * (BoardSize - 1)
    case AllRows => Cells
  }

  /** `check_board`: the rows the scan covers, then the five columns. */
  function CheckBoardBy(scan: RowScan, marks: seq<bool>): Result<bool>
  {
    if SomeRowMarked(marks, RowsEnd(scan)) then Ok(true) else ColumnsFrom(marks, 0)
  }

  /** The flag in row r, column c. */
  function Cell(marks: seq<bool>, r: nat, c: nat): bool
    requires r < BoardSize && c < BoardSize && |marks| == Cells
  {
    marks[BoardSize * r + c]
  }

  /** Row r of a 5x5 board is fully marked. */
  predicate FullRow(marks: seq<bool>, r: nat)
    requires |marks| == Cells && r < BoardSize
  {
    forall c :: 0 <= c < BoardSize ==> Cell(marks, r, c)
  }

  /** Column c of a 5x5 board is fully marked. */
  predicate FullColumn(marks: seq<bool>, c: nat)
    requires |marks| == Cells && c < BoardSize
  {
    forall r :: 0 <= r < BoardSize ==> Cell(marks, r, c)
  }

  /** The bingo rule: some row or some column fully marked. */
  predicate Bingo(marks: seq<bool>)
    requires |marks| == Cells
  {
    (exists r :: 0 <= r < BoardSize && FullRow(marks, r)) || (exists c :: 0 <= c < BoardSize && FullColumn(marks, c))
  }

  lemma {:induction false} ColumnsFromMeans(marks: seq<bool>, i: nat)
    requires |marks| == Cells && i <= BoardSize
    ensures ColumnsFrom(marks, i) == Ok(exists c :: i <= c < BoardSize && FullColumn(marks, c))
    decreases BoardSize - i
  {
    if i < BoardSize {
      ColumnsFromMeans(marks, i + 1);
      ColumnMarkedMeans(marks, i);
    }
  }

  lemma ColumnMarkedMeans(marks: seq<bool>, c: nat)
    requires |marks| == Cells && c < BoardSize
    ensures ColumnMarked(marks, c) <==> FullColumn(marks, c)
  {
    if FullColumn(marks, c) {
      forall k | 0 <= k < Cells && k % BoardSize == c
        ensures marks[k]
      {
        assert k == BoardSize * (k / BoardSize) + c;
        assert Cell(marks, k / BoardSize, c);
      }
    }
    if ColumnMarked(marks, c) {
      forall r | 0 <= r < BoardSize
        ensures Cell(marks, r, c)
      {
        var k := BoardSize * r + c;
        assert k % BoardSize == c;
      }
    }
  }

  lemma RowMarkedMeans(marks: seq<bool>, r: nat)
    requires |marks| == Cells && r < BoardSize
    ensures RowMarked(marks, BoardSize * r) <==> FullRow(marks, r)
  {
    if FullRow(marks, r) {
      forall k | BoardSize * r <= k < BoardSize * r + BoardSize
        ensures marks[k]
      {
        assert Cell(marks, r, k - BoardSize * r);
      }
    }
    if RowMarked(marks, BoardSize * r) {
      forall c | 0 <= c < BoardSize
        ensures Cell(marks, r, c)
      {
        assert marks[BoardSize * r + c];
      }
    }
  }

  lemma SomeRowMarkedMeans(marks: seq<bool>, rows: nat)
    requires |marks| == Cells && rows <= BoardSize
    ensures SomeRowMarked(marks, BoardSize * rows) <==> exists r :: 0 <= r < rows && FullRow(marks, r)
  {
    if SomeRowMarked(marks, BoardSize * rows) {
      var s :| 0 <= s < BoardSize * rows && s % BoardSize == 0 && RowMarked(marks, s);
      RowMarkedMeans(marks, s / BoardSize);
      assert FullRow(marks, s / BoardSize);
    }
    if exists r :: 0 <= r < rows && FullRow(marks, r) {
      var r :| 0 <= r < rows && FullRow(marks, r);
      RowMarkedMeans(marks, r);
      assert RowMarked(marks, BoardSize * r);
    }
  }

  /** On a 5x5 board the corrected check is exactly the bingo rule. */
  lemma CheckBoardMeans(marks: seq<bool>)
    requires |marks| == Cells
    ensures CheckBoardBy(AllRows, marks) == Ok(Bingo(marks))
  {
    SomeRowMarkedMeans(marks, BoardSize);
    ColumnsFromMeans(marks, 0);
  }

  /** On a 5x5 board the check as written finds a full column or one of the first four full rows. */
  lemma CheckBoardAsWrittenMeans(marks: seq<bool>)
    requires |marks| == Cells
    ensures CheckBoardBy(AsWritten, marks) ==
            Ok((exists r :: 0 <= r < BoardSize - 1 && FullRow(marks, r)) || (exists c :: 0 <= c < BoardSize && FullColumn(marks, c)))
  {
    SomeRowMarkedMeans(marks, BoardSize - 1);
    ColumnsFromMeans(marks, 0);
  }

  /** Every board the check as written calls a winner is one, and it misses only bottom-row wins. */
  lemma AsWrittenMissesOnlyLastRow(marks: seq<bool>)
    requires |marks| == Cells
    ensures CheckBoardBy(AsWritten, marks) == Ok(true) ==> Bingo(marks)
    ensures Bingo(marks) && CheckBoardBy(AsWritten, marks) == Ok(false) ==>
            FullRow(marks, BoardSize - 1) && forall c :: 0 <= c < BoardSize ==> !FullColumn(marks, c)
  {
    CheckBoardMeans(marks);
    CheckBoardAsWrittenMeans(marks);
  }

  /** As written, a board whose only marked cells are its last row is not a winner. */
  lemma LastRowCounterexample()
    ensures var marks := seq(Cells, k => k >= 20);
            CheckBoardBy(AsWritten, marks) == Ok(false) && CheckBoardBy(AllRows, marks) == Ok(true)
  {
    var marks := seq(Cells, k => k >= 20);
    forall r | 0 <= r < BoardSize - 1
      ensures !FullRow(marks, r)
    {
      assert !Cell(marks, r, 0);
    }
    forall c | 0 <= c < BoardSize
      ensures !FullColumn(marks, c)
    {
      assert !Cell(marks, 0, c);
    }
    assert FullRow(marks, 4);
    SomeRowMarkedMeans(marks, BoardSize - 1);
    SomeRowMarkedMeans(marks, BoardSize);
    ColumnsFromMeans(marks, 0);
  }

  /** One row of the board: whether the five cells from `i` on are all marked. */
  method RowFull(boardResults: array<bool>, i: nat) returns (all: bool)
    ensures all <==> RowMarked(boardResults[..], i)
  {
    all := true;
    for k := i to i + BoardSize
      invariant all <==> forall j :: i <= j < k && j < boardResults.Length ==> boardResults[j]
    {
      if k < boardResults.Length && !boardResults[k] {
        all := false;
      }
    }
  }

  /** One column of the board: whether cells c, c+5, ..., c+20 are all marked. */
  method ColumnFull(boardResults: array<bool>, c: nat) returns (all: bool)
    requires c < BoardSize && c + BoardSize * (BoardSize - 1) < boardResults.Length
    ensures all <==> ColumnMarked(boardResults[..], c)
  {
    all := true;
    for j := 0 to BoardSize
      invariant all <==> forall k :: 0 <= k < c + BoardSize * j && k < boardResults.Length && k % BoardSize == c ==> boardResults[k]
    {
      if !boardResults[c + BoardSize * j] {
        all := false;
      }
    }
  }

  /** `check_board(board_results)`, its row loop ending where `scan` says. */
  method CheckBoard(scan: RowScan, boardResults: array<bool>) returns (r: Result<bool>)
    ensures r == CheckBoardBy(scan, boardResults[..])
  {
    var marks := boardResults[..];
    var i := 0;
    while i < RowsEnd(scan)
      invariant 0 <= i <= RowsEnd(scan) && i % BoardSize == 0
      invariant !SomeRowMarked(marks, i)
      decreases Cells - i
    {
      var all := RowFull(boardResults, i);
      if all {
        return Ok(true);
      }
      i := i + BoardSize;
    }
    for c := 0 to BoardSize
      invariant ColumnsFrom(marks, 0) == ColumnsFrom(marks, c)
    {
      if c + BoardSize * (BoardSize - 1) >= boardResults.Length {
        return Err("IndexError: list index out of range");
      }
      var all := ColumnFull(boardResults, c);
      if all {
        return Ok(true);
      }
    }
    return Ok(false);
  }

  /** A board whose first twenty cells are unmarked: as written it never wins, corrected it wins by its bottom row. */
  lemma OnlyBottomMarked(marks: seq<bool>)
    requires |marks| == Cells && forall k :: 0 <= k < BoardSize * (BoardSize - 1) ==> !marks[k]
    ensures CheckBoardBy(AsWritten, marks) == Ok(false)
    ensures CheckBoardBy(AllRows, marks) == Ok(FullRow(marks, BoardSize - 1))
  {
    forall r | 0 <= r < BoardSize - 1
      ensures !FullRow(marks, r)
    {
      assert !Cell(marks, r, 0);
    }
    forall c | 0 <= c < BoardSize
      ensures !FullColumn(marks, c)
    {
      assert !Cell(marks, 0, c);
    }
    CheckBoardMeans(marks);
    CheckBoardAsWrittenMeans(marks);
  }

  /** The board numbered 0..24 with the cells 20 .. 20+n-1 marked. */
  function BottomMarks(n: nat): seq<bool>
  {
    seq(Cells, k => BoardSize * (BoardSize - 1) <= k < BoardSize * (BoardSize - 1) + n)
  }

  /** The unmarked sum of the board numbered 0..n-1 whose marks are the cells from 20 on. */
  lemma {:induction false} SumBelowBottomRow(n: nat)
    requires n <= Cells
    ensures SumUnmarked(seq(n, k => k), seq(n, k => k >= 20)) == if n <= 20 then n * (n - 1) / 2 else 190
  {
    if n > 0 {
      assert seq(n, k => k)[..n - 1] == seq(n - 1, k => k);
      assert seq(n, k => k >= 20)[..n - 1] == seq(n - 1, k => k >= 20);
      SumBelowBottomRow(n - 1);
    }
  }

  /** The game on the board numbered 0..24 with draws 20..24, from draw `n` on. */
  lemma {:induction false} BottomRowFrom(scan: RowScan, n: nat)
    requires n <= BoardSize
    ensures GameFrom(scan, [seq(Cells, k => k)], [20, 21, 22, 23, 24], false, [BottomMarks(n)], {}, n, 0)
            == if scan == AllRows && n < BoardSize then Ok(4560) else Err("Exception: No winner found")
    decreases BoardSize - n
  {
    if n < BoardSize {
      var board := seq(Cells, k => k);
      var picks := [20, 21, 22, 23, 24];
      assert picks[n] == 20 + n && board[20 + n] == picks[n];
      var m := Marked(BottomMarks(n), board, picks[n]);
      assert m == BottomMarks(n + 1);
      OnlyBottomMarked(m);
      OneBoardDraw(scan, board, picks, BottomMarks(n), n);
      BottomRowFrom(scan, n + 1);
      if n + 1 == BoardSize {
        assert m == seq(Cells, k => k >= 20);
        SumBelowBottomRow(Cells);
        assert FullRow(m, BoardSize - 1);
      } else {
        assert !Cell(m, BoardSize - 1, BoardSize - 1);
      }
    }
  }

  /** One draw of a first-winner game on a single board that holds the draw. */
  lemma OneBoardDraw(scan: RowScan, board: seq<int>, picks: seq<int>, marks: seq<bool>, n: nat)
    requires n < |picks| && |marks| == |board| && picks[n] in board
    ensures var m := Marked(marks, board, picks[n]);
            GameFrom(scan, [board], picks, false, [marks], {}, n, 0) ==
            match CheckBoardBy(scan, m)
            case Err(e) => Err(e)
            case Ok(false) => GameFrom(scan, [board], picks, false, [m], {}, n + 1, 0)
            case Ok(true) => Ok(picks[n] * SumUnmarked(board, m))
  {
    var m := Marked(marks, board, picks[n]);
    assert [marks][0 := m] == [m];
  }

  /**
   * The game as written and corrected on one board numbered 0..24 and the draws 20..24:
   * as written nobody wins, corrected the board wins on its bottom row, scoring 24 * 190.
   */
  lemma BottomRowGame()
    ensures Game(AsWritten, [seq(Cells, k => k)], [20, 21, 22, 23, 24], false) == Err("Exception: No winner found")
    ensures Game(AllRows, [seq(Cells, k => k)], [20, 21, 22, 23, 24], false) == Ok(4560)
  {
    var board := seq(Cells, k => k);
    assert BottomMarks(0) == seq(Cells, _ => false);
    assert seq(1, k requires 0 <= k < 1 => seq(|[board][k]|, _ => false)) == [BottomMarks(0)];
    BottomRowFrom(AsWritten, 0);
    BottomRowFrom(AllRows, 0);
  }

  // ---------------------------------------------------------------------------
  // score_board
  // ---------------------------------------------------------------------------

  /** The sum of the numbers whose flag is clear. */
  function SumUnmarked(board: seq<int>, marks: seq<bool>): int
    requires |marks| == |board|
  {
    if |board| == 0 then 0
    else SumUnmarked(board[..|board| - 1], marks[..|board| - 1]) + (if marks[|board| - 1] then 0 else board[|board| - 1])
  }

  /** Before any draw, the unmarked sum is the sum of the board. */
  lemma {:induction false} SumUnmarkedNone(board: seq<int>)
    ensures SumUnmarked(board, seq(|board|, _ => false)) == Sum(board)
    decreases |board|
  {
    if |board| > 0 {
      var n := |board|;
      assert seq(n, _ => false)[..n - 1] == seq(n - 1, _ => false);
      SumUnmarkedNone(board[..n - 1]);
    }
  }

  /** With non-negative numbers, marking more cells never raises the unmarked sum. */
  lemma {:induction false} SumUnmarkedShrinks(board: seq<int>, marks: seq<bool>, more: seq<bool>)
    requires |marks| == |board| && |more| == |board|
    requires forall k :: 0 <= k < |board| ==> board[k] >= 0 && (marks[k] ==> more[k])
    ensures 0 <= SumUnmarked(board, more) <= SumUnmarked(board, marks)
    decreases |board|
  {
    if |board| > 0 {
      var n := |board|;
      SumUnmarkedShrinks(board[..n - 1], marks[..n - 1], more[..n - 1]);
    }
  }

  /** `score_board(pick, board, board_results)`: the pick times the unmarked sum. */
  method ScoreBoard(pick: int, board: seq<int>, boardResults: array<bool>) returns (score: int)
    requires boardResults.Length == |board|
    ensures score == pick * SumUnmarked(board, boardResults[..])
  {
    var sum := 0;
    for i := 0 to |board|
      invariant sum == SumUnmarked(board[..i], boardResults[..i])
    {
      assert board[..i + 1][..i] == board[..i];
      assert boardResults[..i + 1][..i] == boardResults[..i];
      if !boardResults[i] {
        sum := sum + board[i];
      }
    }
    assert board[..|board|] == board;
    assert boardResults[..|board|] == boardResults[..];
    score := pick * sum;
  }

  // ---------------------------------------------------------------------------
  // The game
  // ---------------------------------------------------------------------------

  /** The flags match the boards in shape. */
  predicate Shaped(boards: seq<seq<int>>, marks: seq<seq<bool>>)
  {
    |marks| == |boards| && forall k :: 0 <= k < |boards| ==> |marks[k]| == |boards[k]|
  }

  /**
   * The game from draw `pi` and board `bi` on, with the flags and winners so far: the score
   * the loops return, or the exception they raise.
   */
  function GameFrom(scan: RowScan, boards: seq<seq<int>>, picks: seq<int>, findLastWinner: bool,
                    marks: seq<seq<bool>>, winners: set<int>, pi: nat, bi: nat): Result<int>
    requires Shaped(boards, marks) && pi <= |picks| && bi <= |boards|
    decreases |picks| - pi, |boards| - bi
  {
    if pi == |picks| then Err("Exception: No winner found")
    else if bi == |boards| then GameFrom(scan, boards, picks, findLastWinner, marks, winners, pi + 1, 0)
    else if bi in winners then GameFrom(scan, boards, picks, findLastWinner, marks, winners, pi, bi + 1)
    else
      var pick := picks[pi];
      var m := Marked(marks[bi], boards[bi], pick);
      var marks' := marks[bi := m];
      if pick !in boards[bi] then GameFrom(scan, boards, picks, findLastWinner, marks', winners, pi, bi + 1)
      else
        match CheckBoardBy(scan, m)
        case Err(e) => Err(e)
        case Ok(false) => GameFrom(scan, boards, picks, findLastWinner, marks', winners, pi, bi + 1)
        case Ok(true) =>
          if !findLastWinner then Ok(pick * SumUnmarked(boards[bi], m))
          else if |winners + {bi}| == |boards| then Ok(pick * SumUnmarked(boards[bi], m))
          else GameFrom(scan, boards, picks, findLastWinner, marks', winners + {bi}, pi, bi + 1)
  }

  /** The whole game from fresh flags. */
  function Game(scan: RowScan, boards: seq<seq<int>>, picks: seq<int>, findLastWinner: bool): Result<int>
  {
    GameFrom(scan, boards, picks, findLastWinner, seq(|boards|, k requires 0 <= k < |boards| => seq(|boards[k]|, _ => false)), {}, 0, 0)
  }

  /** With no draws, or no boards, nobody wins. */
  lemma {:induction false} NoBoardsNoWinner(scan: RowScan, picks: seq<int>, findLastWinner: bool, pi: nat)
    requires pi <= |picks|
    ensures GameFrom(scan, [], picks, findLastWinner, [], {}, pi, 0) == Err("Exception: No winner found")
    decreases |picks| - pi
  {
    if pi < |picks| {
      NoBoardsNoWinner(scan, picks, findLastWinner, pi + 1);
    }
  }

  /** The body of `part_a(lines, find_last_winner)`, with the boards checked as `scan` says. */
  method Play(lines: seq<string>, findLastWinner: bool, scan: RowScan) returns (r: Result<int>)
    ensures r == match Picks(lines)
                 case Err(e) => Err(e)
                 case Ok(picks) =>
                   match Boards(lines)
                   case Err(e) => Err(e)
                   case Ok(boards) => Game(scan, boards, picks, findLastWinner)
  {
    var parsed := Picks(lines);
    if parsed.Err? {
      return Err(parsed.msg);
    }
    var picks := parsed.value;
    var built, results := BuildBoardsAndResults(lines);
    if built.Err? {
      return Err(built.msg);
    }
    r := PlayGame(scan, built.value, picks, findLastWinner, results);
  }

  /** The flag arrays hold the flags, one distinct array per board. */
  ghost predicate Mirrors(boards: seq<seq<int>>, results: seq<array<bool>>, marks: seq<seq<bool>>)
    reads set k | 0 <= k < |results| :: results[k]
  {
    Shaped(boards, marks) && |results| == |boards|
    && (forall k :: 0 <= k < |results| ==> results[k][..] == marks[k])
    && (forall k, l :: 0 <= k < l < |results| ==> results[k] != results[l])
  }

  /** One board's turn at a draw: its flags marked in place, every other board untouched. */
  method MarkBoard(pick: int, boards: seq<seq<int>>, bi: nat, results: seq<array<bool>>, ghost marks: seq<seq<bool>>)
    returns (foundPick: bool, ghost marks': seq<seq<bool>>)
    requires bi < |boards| && Mirrors(boards, results, marks)
    modifies results[bi]
    ensures Mirrors(boards, results, marks')
    ensures marks' == marks[bi := Marked(marks[bi], boards[bi], pick)]
    ensures foundPick <==> pick in boards[bi]
  {
    foundPick := ApplyPick(pick, boards[bi], results[bi]);
    marks' := marks[bi := results[bi][..]];
    forall k | 0 <= k < |results| && k != bi
      ensures results[k][..] == marks'[k]
    {
      assert results[k] != results[bi];
    }
  }

  /**
   * One draw of `part_a`'s outer loop: the pick played on every board not yet a winner.
   * `done` says the loop returned or raised, with `r` its outcome.
   */
  method PlayDraw(scan: RowScan, boards: seq<seq<int>>, picks: seq<int>, pi: nat, findLastWinner: bool, results: seq<array<bool>>,
                  ghost marks: seq<seq<bool>>, winners: set<int>)
    returns (done: bool, r: Result<int>, ghost marks': seq<seq<bool>>, winners': set<int>)
    requires pi < |picks| && Mirrors(boards, results, marks)
    modifies set k | 0 <= k < |results| :: results[k]
    ensures Mirrors(boards, results, marks')
    ensures GameFrom(scan, boards, picks, findLastWinner, marks, winners, pi, 0)
            == if done then r else GameFrom(scan, boards, picks, findLastWinner, marks', winners', pi + 1, 0)
  {
    marks', winners' := marks, winners;
    for bi := 0 to |boards|
      invariant Mirrors(boards, results, marks')
      invariant GameFrom(scan, boards, picks, findLastWinner, marks', winners', pi, bi)
                == GameFrom(scan, boards, picks, findLastWinner, marks, winners, pi, 0)
    {
      if bi in winners' {
        continue;
      }
      var foundPick;
      foundPick, marks' := MarkBoard(picks[pi], boards, bi, results, marks');
      if foundPick {
        var won := CheckBoard(scan, results[bi]);
        if won.Err? {
          return true, Err(won.msg), marks', winners';
        }
        if won.value {
          if findLastWinner {
            winners' := winners' + {bi};
            if |winners'| == |boards| {
              var score := ScoreBoard(picks[pi], boards[bi], results[bi]);
              return true, Ok(score), marks', winners';
            }
          } else {
            var score := ScoreBoard(picks[pi], boards[bi], results[bi]);
            return true, Ok(score), marks', winners';
          }
        }
      }
    }
    done, r := false, Err("Exception: No winner found");
  }

  /** The game loops of `part_a`: every draw on every board not yet a winner, flags marked in place. */
  method PlayGame(scan: RowScan, boards: seq<seq<int>>, picks: seq<int>, findLastWinner: bool, results: seq<array<bool>>) returns (r: Result<int>)
    requires |results| == |boards|
    requires forall k :: 0 <= k < |results| ==> results[k][..] == seq(|boards[k]|, _ => false)
    requires forall k, l :: 0 <= k < l < |results| ==> results[k] != results[l]
    modifies set k | 0 <= k < |results| :: results[k]
    ensures r == Game(scan, boards, picks, findLastWinner)
  {
    ghost var marks := seq(|boards|, k requires 0 <= k < |boards| => seq(|boards[k]|, _ => false));
    var winners: set<int> := {};
    for pi := 0 to |picks|
      invariant Mirrors(boards, results, marks)
      invariant GameFrom(scan, boards, picks, findLastWinner, marks, winners, pi, 0) == Game(scan, boards, picks, findLastWinner)
    {
      var done;
      done, r, marks, winners := PlayDraw(scan, boards, picks, pi, findLastWinner, results, marks, winners);
      if done {
        return;
      }
    }
    return Err("Exception: No winner found");
  }

  /** `part_a(lines, find_last_winner)`: the game played with `check_board` as written. */
  method PartA(lines: seq<string>, findLastWinner: bool) returns (r: Result<int>)
    ensures r == match Picks(lines)
                 case Err(e) => Err(e)
                 case Ok(picks) =>
                   match Boards(lines)
                   case Err(e) => Err(e)
                   case Ok(boards) => Game(AsWritten, boards, picks, findLastWinner)
  {
    r := Play(lines, findLastWinner, AsWritten);
  }

  /** `part_b(lines)`: the score of the last board to win, with `check_board` as written. */
  method PartB(lines: seq<string>) returns (r: Result<int>)
    ensures r == match Picks(lines)
                 case Err(e) => Err(e)
                 case Ok(picks) =>
                   match Boards(lines)
                   case Err(e) => Err(e)
                   case Ok(boards) => Game(AsWritten, boards, picks, true)
  {
    r := PartA(lines, true);
  }

  /** `part_a` with the corrected check, under which a full bottom row wins too. */
  method PartACorrected(lines: seq<string>, findLastWinner: bool) returns (r: Result<int>)
    ensures r == match Picks(lines)
                 case Err(e) => Err(e)
                 case Ok(picks) =>
                   match Boards(lines)
                   case Err(e) => Err(e)
                   case Ok(boards) => Game(AllRows, boards, picks, findLastWinner)
  {
    r := Play(lines, findLastWinner, AllRows);
  }

  /** `part_b` with the corrected check. */
  method PartBCorrected(lines: seq<string>) returns (r: Result<int>)
    ensures r == match Picks(lines)
                 case Err(e) => Err(e)
                 case Ok(picks) =>
                   match Boards(lines)
                   case Err(e) => Err(e)
                   case Ok(boards) => Game(AllRows, boards, picks, true)
  {
    r := PartACorrected(lines, true);
  }
}
