/**
 * Day 10, syntax scoring: a bracket matcher over the four bracket kinds `()`, `[]`, `{}`, `<>`.
 * A line is corrupt at the first closer that does not match the most recent unmatched opener;
 * otherwise it is incomplete and what remains is the stack of unmatched openers.
 */
module Day10 {
  import opened Util
  import Sorting

  predicate IsOpener(c: char)
  {
    c == '(' || c == '[' || c == '{' || c == '<'
  }

  predicate IsCloser(c: char)
  {
    c == ')' || c == ']' || c == '}' || c == '>'
  }

  predicate AllOpeners(s: seq<char>)
  {
    forall k :: 0 <= k < |s| ==> IsOpener(s[k])
  }

  /** The `pairs` table: the closer that matches each opener. */
  function CloserOf(o: char): (c: char)
    requires IsOpener(o)
    ensures IsCloser(c)
  {
    match o
    case '(' => ')'
    case '[' => ']'
    case '{' => '}'
    case '<' => '>'
  }

  /** The `completion_scoring` table, keyed by the opener still waiting for its closer. */
  function OpenerPoints(o: char): (p: nat)
    requires IsOpener(o)
    ensures 1 <= p <= 4
  {
    match o
    case '(' => 1
    case '[' => 2
    case '{' => 3
    case '<' => 4
  }

  /** The points of an illegal closer; any other character scores nothing. */
  function IllegalPoints(c: char): nat
  {
    match c
    case ')' => 3
    case ']' => 57
    case '}' => 1197
    case '>' => 25137
    case _ => 0
  }

  // ---------------------------------------------------------------------------
  // assess_line
  // ---------------------------------------------------------------------------

  /** `(False, c)` or `(True, stack)`. */
  datatype Assessment = Corrupt(illegal: char) | Incomplete(stack: seq<char>)

  /**
   * The rest of the scan of a line once `stack` holds the unmatched openers seen so far:
   * an opener is pushed, a closer pops (which fails on an empty stack) and must match
   * what it popped, and any other character raises.
   */
  function Scan(line: string, stack: seq<char>): (r: Result<Assessment>)
    requires AllOpeners(stack)
    ensures r.Ok? && r.value.Incomplete? ==> AllOpeners(r.value.stack)
    ensures r.Ok? && r.value.Corrupt? ==> IsCloser(r.value.illegal) && r.value.illegal in line
    decreases |line|
  {
    if |line| == 0 then Ok(Incomplete(stack))
    else
      var c := line[0];
      if IsOpener(c) then Scan(line[1..], stack + [c])
      else if IsCloser(c) then
        if |stack| == 0 then Err("IndexError: pop from empty list")
        else if CloserOf(stack[|stack| - 1]) != c then Ok(Corrupt(c))
        else Scan(line[1..], stack[..|stack| - 1])
      else Err("Exception: Unknown character")
  }

  /** `assess_line(line)`: the loop pushes and pops a local stack. */
  method AssessLine(line: string) returns (r: Result<Assessment>)
    ensures r == Scan(line, [])
  {
    var stack: seq<char> := [];
    for i := 0 to |line|
      invariant AllOpeners(stack)
      invariant Scan(line, []) == Scan(line[i..], stack)
    {
      var c := line[i];
      assert line[i..][1..] == line[i + 1..];
      if IsOpener(c) {
        stack := stack + [c];
      } else if IsCloser(c) {
        if |stack| == 0 {
          return Err("IndexError: pop from empty list");
        }
        var opening := stack[|stack| - 1];
        stack := stack[..|stack| - 1];
        if CloserOf(opening) != c {
          return Ok(Corrupt(c));
        }
      } else {
        return Err("Exception: Unknown character");
      }
    }
    assert line[|line|..] == [];
    return Ok(Incomplete(stack));
  }

  /** Scanning a concatenation scans the first part, then goes on from the stack it left. */
  lemma {:induction false} ScanAppend(x: string, y: string, stack: seq<char>)
    requires AllOpeners(stack)
    ensures Scan(x + y, stack) == match Scan(x, stack)
                                  case Ok(Incomplete(s)) => Scan(y, s)
                                  case other => other
    decreases |x|
  {
    if |x| > 0 {
      assert (x + y)[0] == x[0];
      assert (x + y)[1..] == x[1..] + y;
      var c := x[0];
      if IsOpener(c) {
        ScanAppend(x[1..], y, stack + [c]);
      } else if IsCloser(c) && |stack| > 0 && CloserOf(stack[|stack| - 1]) == c {
        ScanAppend(x[1..], y, stack[..|stack| - 1]);
      }
    } else {
      assert x + y == y;
    }
  }

  /**
   * A corrupt line's illegal character is the first closer that does not match: the prefix
   * before it scans cleanly to a non-empty stack whose top it fails to close.
   */
  lemma {:induction false} CorruptHasWitness(line: string, stack: seq<char>) returns (i: nat, st: seq<char>)
    requires AllOpeners(stack)
    requires Scan(line, stack).Ok? && Scan(line, stack).value.Corrupt?
    ensures i < |line| && line[i] == Scan(line, stack).value.illegal
    ensures Scan(line[..i], stack) == Ok(Incomplete(st))
    ensures |st| > 0 && IsCloser(line[i]) && CloserOf(st[|st| - 1]) != line[i]
    decreases |line|
  {
    var c := line[0];
    if IsOpener(c) || (IsCloser(c) && CloserOf(stack[|stack| - 1]) == c) {
      var stack' := if IsOpener(c) then stack + [c] else stack[..|stack| - 1];
      var rest := line[1..];
      assert Scan(line, stack) == Scan(rest, stack');
      var i', st' := CorruptHasWitness(rest, stack');
      i, st := i' + 1, st';
      var pre := line[..i];
      assert pre[0] == c;
      assert pre[1..] == rest[..i'];
      assert Scan(pre, stack) == Scan(pre[1..], stack');
    } else {
      i, st := 0, stack;
      assert line[..0] == [];
    }
  }

  /** Conversely, the first closer that fails to match the top of the stack makes the line corrupt. */
  lemma MismatchMakesCorrupt(line: string, i: nat, st: seq<char>)
    requires i < |line| && Scan(line[..i], []) == Ok(Incomplete(st))
    requires |st| > 0 && IsCloser(line[i]) && CloserOf(st[|st| - 1]) != line[i]
    ensures Scan(line, []) == Ok(Corrupt(line[i]))
  {
    assert line == line[..i] + line[i..];
    ScanAppend(line[..i], line[i..], []);
  }

  // ---------------------------------------------------------------------------
  // Completing a line
  // ---------------------------------------------------------------------------

  /** The closers that complete a stack of unmatched openers, the top one first. */
  function Completion(stack: seq<char>): (cs: string)
    requires AllOpeners(stack)
    ensures |cs| == |stack|
  {
    if |stack| == 0 then [] else Completion(stack[1..]) + [CloserOf(stack[0])]
  }

  /** Appending the completion of a stack pops exactly that stack off whatever lies below it. */
  lemma {:induction false} CompletionCloses(below: seq<char>, stack: seq<char>)
    requires AllOpeners(below) && AllOpeners(stack)
    ensures Scan(Completion(stack), below + stack) == Ok(Incomplete(below))
    decreases |stack|
  {
    if |stack| == 0 {
      assert below + stack == below;
    } else {
      var a := stack[0];
      assert below + stack == (below + [a]) + stack[1..];
      CompletionCloses(below + [a], stack[1..]);
      ScanAppend(Completion(stack[1..]), [CloserOf(a)], below + stack);
      assert [CloserOf(a)][1..] == [];
      assert (below + [a])[..|below + [a]| - 1] == below;
    }
  }

  /** An incomplete line followed by the completion of its stack leaves no opener unmatched. */
  lemma CompletedLineIsBalanced(line: string, stack: seq<char>)
    requires Scan(line, []) == Ok(Incomplete(stack))
    ensures Scan(line + Completion(stack), []) == Ok(Incomplete([]))
  {
    ScanAppend(line, Completion(stack), []);
    CompletionCloses([], stack);
    assert [] + stack == stack;
  }

  // ---------------------------------------------------------------------------
  // score_illegals
  // ---------------------------------------------------------------------------

  /** `score_illegals(illegals)`: each closer's count times its points. */
  function ScoreIllegals(illegals: seq<char>): nat
  {
    Count(illegals, ')') * 3 + Count(illegals, ']') * 57 + Count(illegals, '}') * 1197 + Count(illegals, '>') * 25137
  }

  /** The points of the characters one by one. */
  function PointsOneByOne(illegals: seq<char>): nat
  {
    if |illegals| == 0 then 0 else PointsOneByOne(illegals[..|illegals| - 1]) + IllegalPoints(illegals[|illegals| - 1])
  }

  /** Counting per closer kind scores every illegal character by its own points. */
  lemma {:induction false} ScoreIllegalsOneByOne(illegals: seq<char>)
    ensures ScoreIllegals(illegals) == PointsOneByOne(illegals)
    decreases |illegals|
  {
    if |illegals| > 0 {
      var init, c := illegals[..|illegals| - 1], illegals[|illegals| - 1];
      assert illegals == init + [c];
      ScoreIllegalsOneByOne(init);
      CountAppend(init, [c], ')');
      CountAppend(init, [c], ']');
      CountAppend(init, [c], '}');
      CountAppend(init, [c], '>');
      assert [c][..0] == [];
    }
  }

  // ---------------------------------------------------------------------------
  // score_completion
  // ---------------------------------------------------------------------------

  /**
   * The completion score of a stack: the top opener is the most significant base-5 digit,
   * the bottom one the least.
   */
  function CompletionScore(stack: seq<char>): nat
    requires AllOpeners(stack)
  {
    if |stack| == 0 then 0 else CompletionScore(stack[1..]) * 5 + OpenerPoints(stack[0])
  }

  /** The list `score_completion` pops from; the caller's list is emptied. */
  class OpenerStack {
    var items: seq<char>

    constructor (items: seq<char>)
      ensures this.items == items
    {
      this.items := items;
    }

    /** `score_completion(stack)`: pops every opener, multiplying by 5 before adding each. */
    method ScoreCompletion() returns (score: nat)
      requires AllOpeners(items)
      modifies this
      ensures items == []
      ensures score == CompletionScore(old(items))
    {
      ghost var original := items;
      score := 0;
      while |items| > 0
        invariant items == original[..|items|]
        invariant AllOpeners(original)
        invariant score == CompletionScore(original[|items|..])
        decreases |items|
      {
        score := score * 5;
        var c := items[|items| - 1];
        items := items[..|items| - 1];
        assert original[|items|..][1..] == original[|items| + 1..];
        score := score + OpenerPoints(c);
      }
      assert original[0..] == original;
    }
  }

  /** The score the puzzle states, folding over the closers of the completion in order. */
  function ClosingScore(closers: string): nat
  {
    if |closers| == 0 then 0
    else ClosingScore(closers[..|closers| - 1]) * 5 + ClosingPoints(closers[|closers| - 1])
  }

  /** 1 to 4 for `)`, `]`, `}`, `>`. */
  function ClosingPoints(c: char): nat
  {
    match c
    case ')' => 1
    case ']' => 2
    case '}' => 3
    case '>' => 4
    case _ => 0
  }

  /** Scoring the openers left on the stack is scoring the closers that complete the line. */
  lemma {:induction false} CompletionScoreIsClosingScore(stack: seq<char>)
    requires AllOpeners(stack)
    ensures CompletionScore(stack) == ClosingScore(Completion(stack))
    decreases |stack|
  {
    if |stack| > 0 {
      CompletionScoreIsClosingScore(stack[1..]);
      var cs := Completion(stack);
      assert cs[..|cs| - 1] == Completion(stack[1..]);
    }
  }

  /** The score is 0 exactly for an empty stack. */
  lemma CompletionScoreZero(stack: seq<char>)
    requires AllOpeners(stack)
    ensures CompletionScore(stack) == 0 <==> |stack| == 0
  {
  }

  /** Different stacks never share a score: the openers are base-5 digits 1 to 4. */
  lemma {:induction false} CompletionScoreInjective(s: seq<char>, t: seq<char>)
    requires AllOpeners(s) && AllOpeners(t)
    requires CompletionScore(s) == CompletionScore(t)
    ensures s == t
    decreases |s|
  {
    if |s| == 0 || |t| == 0 {
      CompletionScoreZero(s);
      CompletionScoreZero(t);
    } else {
      var a, b := CompletionScore(s[1..]), CompletionScore(t[1..]);
      var p, q := OpenerPoints(s[0]), OpenerPoints(t[0]);
      assert a * 5 + p == b * 5 + q;
      assert p == q && a == b;
      CompletionScoreInjective(s[1..], t[1..]);
      assert s == [s[0]] + s[1..] && t == [t[0]] + t[1..];
    }
  }

  // ---------------------------------------------------------------------------
  // part_a and part_b
  // ---------------------------------------------------------------------------

  /** The illegal characters of the corrupt lines, in order; the first line that raises raises. */
  function Illegals(lines: seq<string>): (r: Result<seq<char>>)
    ensures r.Ok? ==> forall k :: 0 <= k < |r.value| ==> IsCloser(r.value[k])
  {
    if |lines| == 0 then Ok([])
    else
      match Illegals(lines[..|lines| - 1])
      case Err(e) => Err(e)
      case Ok(init) =>
        match Scan(lines[|lines| - 1], [])
        case Err(e) => Err(e)
        case Ok(Corrupt(c)) => Ok(init + [c])
        case Ok(Incomplete(_)) => Ok(init)
  }

  /** Once a line raises, `part_a` raises with it whatever lines follow. */
  lemma {:induction false} IllegalsErrSticks(lines: seq<string>, i: nat)
    requires i <= |lines| && Illegals(lines[..i]).Err?
    ensures Illegals(lines) == Illegals(lines[..i])
    decreases |lines| - i
  {
    if i < |lines| {
      assert lines[..i + 1][..i] == lines[..i];
      IllegalsErrSticks(lines, i + 1);
    } else {
      assert lines[..i] == lines;
    }
  }

  /** `part_a(lines)`. */
  method PartA(lines: seq<string>) returns (r: Result<nat>)
    ensures r == match Illegals(lines)
                 case Ok(cs) => Ok(ScoreIllegals(cs))
                 case Err(e) => Err(e)
  {
    var illegals: seq<char> := [];
    for i := 0 to |lines|
      invariant Illegals(lines[..i]) == Ok(illegals)
    {
      assert lines[..i + 1][..i] == lines[..i];
      var assessed := AssessLine(lines[i]);
      match assessed {
        case Err(e) =>
          IllegalsErrSticks(lines, i + 1);
          return Err(e);
        case Ok(Corrupt(c)) =>
          illegals := illegals + [c];
        case Ok(Incomplete(_)) =>
      }
    }
    assert lines[..|lines|] == lines;
    return Ok(ScoreIllegals(illegals));
  }

  /** The completion scores of the incomplete lines, in order. */
  function CompletionScores(lines: seq<string>): (r: Result<seq<int>>)
    ensures r.Ok? ==> forall k :: 0 <= k < |r.value| ==> r.value[k] >= 0
  {
    if |lines| == 0 then Ok([])
    else
      match CompletionScores(lines[..|lines| - 1])
      case Err(e) => Err(e)
      case Ok(init) =>
        match Scan(lines[|lines| - 1], [])
        case Err(e) => Err(e)
        case Ok(Corrupt(_)) => Ok(init)
        case Ok(Incomplete(stack)) => Ok(init + [CompletionScore(stack)])
  }

  /** Once a line raises, `part_b` raises with it whatever lines follow. */
  lemma {:induction false} CompletionScoresErrSticks(lines: seq<string>, i: nat)
    requires i <= |lines| && CompletionScores(lines[..i]).Err?
    ensures CompletionScores(lines) == CompletionScores(lines[..i])
    decreases |lines| - i
  {
    if i < |lines| {
      assert lines[..i + 1][..i] == lines[..i];
      CompletionScoresErrSticks(lines, i + 1);
    } else {
      assert lines[..i] == lines;
    }
  }

  /**
   * `part_b(lines)`: the element at index `len // 2` of the sorted completion scores, which
   * raises when no line is incomplete.
   */
  method PartB(lines: seq<string>) returns (r: Result<int>)
    ensures r.Ok? ==> CompletionScores(lines).Ok? && |CompletionScores(lines).value| > 0
    ensures r.Ok? ==> var sorted := Sorting.Sort(CompletionScores(lines).value);
                      r.value == sorted[|sorted| / 2]
    ensures r.Err? ==> CompletionScores(lines).Err? || CompletionScores(lines) == Ok([])
  {
    var scores: seq<int> := [];
    for i := 0 to |lines|
      invariant CompletionScores(lines[..i]) == Ok(scores)
    {
      assert lines[..i + 1][..i] == lines[..i];
      var assessed := AssessLine(lines[i]);
      match assessed {
        case Err(e) =>
          CompletionScoresErrSticks(lines, i + 1);
          return Err(e);
        case Ok(Corrupt(_)) =>
        case Ok(Incomplete(stack)) =>
          var st := new OpenerStack(stack);
          var score := st.ScoreCompletion();
          scores := scores + [score];
      }
    }
    assert lines[..|lines|] == lines;
    var sorted := Sorting.Sort(scores);
    if |sorted| == 0 {
      return Err("IndexError: list index out of range");
    }
    return Ok(sorted[|sorted| / 2]);
  }
}
