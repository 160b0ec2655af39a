/**
 * Day 8, seven-segment search: each display's ten patterns and four output words use
 * scrambled segment letters. The first part counts output words whose length alone
 * names the digit; the second narrows, per line, the candidate segments of every wire
 * until one remains, then decodes the outputs and sums the four-digit numbers.
 */
module Day08 {
  import opened Util

  /** The seven wires (and segments) in the order the solver visits them. */
  const Letters: string := "abcdefg"
  const AllLetters: set<char> := {'a', 'b', 'c', 'd', 'e', 'f', 'g'}

  /** `wires_per_digit`: the wires lit for each digit, in alphabetical order. */
  const WiresPerDigit: map<char, string> := map[
    '0' := "abcefg", '1' := "cf", '2' := "acdeg", '3' := "acdfg", '4' := "bcdf",
    '5' := "abdfg", '6' := "abdefg", '7' := "acf", '8' := "abcdefg", '9' := "abcdfg"]

  /** `digit_for_wires`: the inverse table. */
  const DigitForWires: map<string, char> := map[
    "abcefg" := '0', "cf" := '1', "acdeg" := '2', "acdfg" := '3', "bcdf" := '4',
    "abdfg" := '5', "abdefg" := '6', "acf" := '7', "abcdefg" := '8', "abcdfg" := '9']

  /** `digits_by_length`: the digits whose number of segments is unique. */
  const DigitsByLength: map<nat, nat> := map[2 := 1, 3 := 7, 4 := 4, 7 := 8]

  // ---------------------------------------------------------------------------
  // The tables
  // ---------------------------------------------------------------------------

  /** The two tables are inverse to each other, so no two digits share their wires. */
  lemma TablesInverse()
    ensures forall d :: d in WiresPerDigit ==> WiresPerDigit[d] in DigitForWires && DigitForWires[WiresPerDigit[d]] == d
    ensures forall w :: w in DigitForWires ==> DigitForWires[w] in WiresPerDigit && WiresPerDigit[DigitForWires[w]] == w
  {
  }

  /** A wire count is in `digits_by_length` exactly for the digits 1, 4, 7 and 8, and then names that digit. */
  lemma LengthsAgree()
    ensures forall d :: d in WiresPerDigit ==>
              (|WiresPerDigit[d]| in DigitsByLength <==> d in {'1', '4', '7', '8'})
    ensures forall d :: d in WiresPerDigit && |WiresPerDigit[d]| in DigitsByLength ==>
              DigitChar(DigitsByLength[|WiresPerDigit[d]|]) == d
  {
  }

  // ---------------------------------------------------------------------------
  // Sorting letters, and patterns by length
  // ---------------------------------------------------------------------------

  predicate SortedChars(s: string)
  {
    forall i, j :: 0 <= i < j < |s| ==> s[i] <= s[j]
  }

  /** Whatever holds the letters of `s` and `c`, all at most `last`, is itself bounded by `last`. */
  lemma CharsBelow(r: string, s: string, c: char, last: char)
    requires multiset(r) == multiset(s) + multiset{c}
    requires c <= last && forall k :: 0 <= k < |s| ==> s[k] <= last
    ensures forall k :: 0 <= k < |r| ==> r[k] <= last
  {
    forall k | 0 <= k < |r|
      ensures r[k] <= last
    {
      assert r[k] in multiset(r);
      if r[k] != c {
        assert r[k] in multiset(s);
      }
    }
  }

  function InsertChar(c: char, s: string): (r: string)
    requires SortedChars(s)
    ensures SortedChars(r) && multiset(r) == multiset(s) + multiset{c}
  {
    if |s| == 0 then [c]
    else if s[|s| - 1] <= c then s + [c]
    else
      var init, last := s[..|s| - 1], s[|s| - 1];
      assert s == init + [last];
      var r := InsertChar(c, init);
      CharsBelow(r, init, c, last);
      r + [last]
  }

  /** `sorted(...)` on letters: the same letters in ascending order. */
  function SortChars(s: string): (r: string)
    ensures SortedChars(r) && multiset(r) == multiset(s)
  {
    if |s| == 0 then []
    else
      var init := s[..|s| - 1];
      assert s == init + [s[|s| - 1]];
      InsertChar(s[|s| - 1], SortChars(init))
  }

  /** The first letter of an ascending string is its least. */
  lemma HeadIsLeast(a: string, x: char)
    requires SortedChars(a) && x in multiset(a)
    ensures a[0] <= x
  {
    var i :| 0 <= i < |a| && a[i] == x;
  }

  /** Taking the first letter off an ascending string leaves an ascending string with one letter fewer. */
  lemma SplitHead(a: string)
    requires |a| > 0 && SortedChars(a)
    ensures multiset(a[1..]) == multiset(a) - multiset{a[0]}
    ensures SortedChars(a[1..])
  {
    assert a == [a[0]] + a[1..];
    assert multiset(a) == multiset{a[0]} + multiset(a[1..]);
  }

  /** Two non-empty ascending strings holding the same letters start with the same letter. */
  lemma SameHead(a: string, b: string)
    requires |a| > 0 && SortedChars(a) && SortedChars(b) && multiset(a) == multiset(b)
    ensures |b| > 0 && a[0] == b[0]
  {
    assert |b| == |multiset(b)| == |a|;
    assert a[0] in multiset(a) && b[0] in multiset(b);
    HeadIsLeast(a, b[0]);
    HeadIsLeast(b, a[0]);
  }

  /** Two ascending strings holding the same letters are equal. */
  lemma {:induction false} SortedUnique(a: string, b: string)
    requires SortedChars(a) && SortedChars(b) && multiset(a) == multiset(b)
    ensures a == b
  {
    if |a| == 0 {
      assert |b| == |multiset(b)| == 0;
    } else {
      SameHead(a, b);
      SplitHead(a);
      SplitHead(b);
      SortedUnique(a[1..], b[1..]);
      assert a == [a[0]] + a[1..] && b == [b[0]] + b[1..];
    }
  }

  predicate ByLength(ps: seq<string>)
  {
    forall i, j :: 0 <= i < j < |ps| ==> |ps[i]| <= |ps[j]|
  }

  /** Whatever holds the patterns of `ps` and `p`, none longer than `last`, has none longer than `last`. */
  lemma LengthsBelow(r: seq<string>, ps: seq<string>, p: string, last: nat)
    requires multiset(r) == multiset(ps) + multiset{p}
    requires |p| <= last && forall k :: 0 <= k < |ps| ==> |ps[k]| <= last
    ensures forall k :: 0 <= k < |r| ==> |r[k]| <= last
  {
    forall k | 0 <= k < |r|
      ensures |r[k]| <= last
    {
      assert r[k] in multiset(r);
      if r[k] != p {
        assert r[k] in multiset(ps);
      }
    }
  }

  /** Inserts `p` after every pattern no longer than it, so equal lengths keep their order. */
  function InsertByLength(p: string, ps: seq<string>): (r: seq<string>)
    requires ByLength(ps)
    ensures ByLength(r) && multiset(r) == multiset(ps) + multiset{p}
  {
    if |ps| == 0 then [p]
    else if |ps[|ps| - 1]| <= |p| then ps + [p]
    else
      var init, last := ps[..|ps| - 1], ps[|ps| - 1];
      assert ps == init + [last];
      var r := InsertByLength(p, init);
      LengthsBelow(r, init, p, |last|);
      r + [last]
  }

  /** `patterns.sort(key=len)`: a stable sort by length. */
  function SortByLength(ps: seq<string>): (r: seq<string>)
    ensures ByLength(r) && multiset(r) == multiset(ps)
  {
    if |ps| == 0 then []
    else
      var init := ps[..|ps| - 1];
      assert ps == init + [ps[|ps| - 1]];
      InsertByLength(ps[|ps| - 1], SortByLength(init))
  }

  // ---------------------------------------------------------------------------
  // part_a
  // ---------------------------------------------------------------------------

  /** `p1, p2 = line.split('|')`: exactly two halves, or a ValueError. */
  function Halves(line: string): (r: Result<(string, string)>)
    ensures r.Ok? <==> Count(line, '|') == 1
    ensures r.Ok? ==> line == r.value.0 + "|" + r.value.1
  {
    var parts := Split(line, '|');
    if |parts| != 2 then Err("ValueError: wrong number of values to unpack")
    else
      JoinSplit(line, '|');
      Ok((parts[0], parts[1]))
  }

  /** The number of output words whose length names a digit on its own. */
  function KnownCount(outputs: seq<string>): nat
  {
    if |outputs| == 0 then 0
    else KnownCount(outputs[..|outputs| - 1]) + if |outputs[|outputs| - 1]| in DigitsByLength then 1 else 0
  }

  /** The count is the number of output positions holding a word of 2, 3, 4 or 7 letters. */
  lemma {:induction false} KnownCountCounts(outputs: seq<string>)
    ensures KnownCount(outputs) == |set i | 0 <= i < |outputs| && |outputs[i]| in {2, 3, 4, 7}|
  {
    if |outputs| > 0 {
      var init := outputs[..|outputs| - 1];
      KnownCountCounts(init);
      var before := set i | 0 <= i < |init| && |init[i]| in {2, 3, 4, 7};
      var after := set i | 0 <= i < |outputs| && |outputs[i]| in {2, 3, 4, 7};
      if |outputs[|outputs| - 1]| in {2, 3, 4, 7} {
        assert after == before + {|init|};
      } else {
        assert after == before;
      }
    }
  }

  /** The first part's total over the lines from `i` on, after `acc` words already counted, or the first line's unpacking error. */
  function KnownFrom(lines: seq<string>, i: nat, acc: nat): Result<nat>
    requires i <= |lines|
    decreases |lines| - i
  {
    if i == |lines| then Ok(acc)
    else
      match Halves(lines[i])
      case Err(e) => Err(e)
      case Ok(h) => KnownFrom(lines, i + 1, acc + KnownCount(Words(h.1)))
  }

  function KnownTotal(lines: seq<string>): Result<nat>
  {
    KnownFrom(lines, 0, 0)
  }

  /** `part_a`: the known-length output words over all lines. */
  method PartA(lines: seq<string>) returns (r: Result<nat>)
    ensures r == KnownTotal(lines)
  {
    var knownCount: nat := 0;
    for i := 0 to |lines|
      invariant KnownFrom(lines, i, knownCount) == KnownTotal(lines)
    {
      var halves := Halves(lines[i]);
      if halves.Err? {
        return Err(halves.msg);
      }
      knownCount := knownCount + KnownCount(Words(halves.value.1));
    }
    r := Ok(knownCount);
  }

  // ---------------------------------------------------------------------------
  // Narrowing the candidate segments of each wire
  // ---------------------------------------------------------------------------

  /** Every wire still has its entry. */
  predicate Complete(opts: map<char, set<char>>)
  {
    opts.Keys == AllLetters
  }

  /** Each wire's candidates are among the old ones. */
  predicate Narrower(opts': map<char, set<char>>, opts: map<char, set<char>>)
  {
    opts'.Keys == opts.Keys && forall w :: w in opts ==> opts'[w] <= opts[w]
  }

  /** `{c: set('abcdefg') for c in 'abcdefg'}`. */
  function Initial(): (opts: map<char, set<char>>)
    ensures Complete(opts)
  {
    map w | w in AllLetters :: AllLetters
  }

  /** The segments a pattern lights. */
  function CharSet(pattern: string): (r: set<char>)
    ensures forall c :: c in r <==> c in pattern
  {
    set c | c in pattern
  }

  /** One wire's candidates after learning that `pattern` shows the digit lit by `digitWires`. */
  function KnownWire(cands: set<char>, wire: char, pattern: string, digitWires: string): set<char>
  {
    if wire in digitWires then cands * CharSet(pattern) else cands - CharSet(pattern)
  }

  /** The position of a wire letter in `Letters`. */
  function Rank(w: char): int
  {
    w as int - 'a' as int
  }

  lemma LetterRank(i: nat)
    requires i < |Letters|
    ensures Rank(Letters[i]) == i && Letters[i] in AllLetters
  {
  }

  lemma WireRank(w: char)
    requires w in AllLetters
    ensures 0 <= Rank(w) < |Letters| && Letters[Rank(w)] == w
  {
  }

  /** The candidates after the first `i` wires have been narrowed against a known pattern. */
  function KnownPatternUpTo(opts: map<char, set<char>>, pattern: string, digitWires: string, i: nat): (opts': map<char, set<char>>)
    requires i <= |Letters|
    ensures opts'.Keys == opts.Keys
  {
    if i == 0 then opts
    else
      var prev := KnownPatternUpTo(opts, pattern, digitWires, i - 1);
      var wire := Letters[i - 1];
      if wire in prev then prev[wire := KnownWire(prev[wire], wire, pattern, digitWires)] else prev
  }

  /** After `i` wires, exactly the wires ranked below `i` have been narrowed, each once. */
  lemma {:induction false} KnownPatternUpToMeaning(opts: map<char, set<char>>, pattern: string, digitWires: string, i: nat)
    requires i <= |Letters|
    ensures forall w :: w in opts ==>
      KnownPatternUpTo(opts, pattern, digitWires, i)[w] ==
        if 0 <= Rank(w) < i then KnownWire(opts[w], w, pattern, digitWires) else opts[w]
  {
    if i > 0 {
      KnownPatternUpToMeaning(opts, pattern, digitWires, i - 1);
      LetterRank(i - 1);
    }
  }

  /** The candidates after `process_known_pattern`. */
  function KnownPattern(opts: map<char, set<char>>, pattern: string, digitWires: string): map<char, set<char>>
  {
    KnownPatternUpTo(opts, pattern, digitWires, |Letters|)
  }

  /**
   * After a known pattern, a wire of the digit can only drive a segment of the pattern, a
   * wire outside the digit none of them; candidates only shrink.
   */
  lemma KnownPatternMeaning(opts: map<char, set<char>>, pattern: string, digitWires: string)
    requires Complete(opts)
    ensures var opts' := KnownPattern(opts, pattern, digitWires);
      Narrower(opts', opts) &&
      (forall w, s :: w in opts' && s in opts'[w] && w in digitWires ==> s in pattern) &&
      (forall w, s :: w in opts' && s in opts'[w] && w !in digitWires ==> s !in pattern)
  {
    KnownPatternUpToMeaning(opts, pattern, digitWires, |Letters|);
    forall w | w in opts
      ensures 0 <= Rank(w) < |Letters|
    {
      WireRank(w);
    }
  }

  /** `wires_to_segments[wire] &= segments`. */
  function Restrict(opts: map<char, set<char>>, wire: char, segments: set<char>): (opts': map<char, set<char>>)
    requires wire in opts
    ensures Narrower(opts', opts) && opts'[wire] == opts[wire] * segments
    ensures forall w :: w in opts && w != wire ==> opts'[w] == opts[w]
  {
    opts[wire := opts[wire] * segments]
  }

  /** Every wire but `wire` loses the segments `segments`. */
  function RemoveSegments(opts: map<char, set<char>>, wire: char, segments: set<char>): map<char, set<char>>
  {
    map v | v in opts :: if v != wire then opts[v] - segments else opts[v]
  }

  /** One pass step: if `wire` has a single candidate, no other wire may keep it. */
  function EliminateStep(opts: map<char, set<char>>, wire: char): map<char, set<char>>
    requires wire in opts
  {
    if |opts[wire]| == 1 then RemoveSegments(opts, wire, opts[wire]) else opts
  }

  /** The singleton pass over the first `i` wires. */
  function Eliminate(opts: map<char, set<char>>, i: nat): (opts': map<char, set<char>>)
    requires Complete(opts) && i <= |Letters|
    ensures Complete(opts')
  {
    if i == 0 then opts
    else
      var prev := Eliminate(opts, i - 1);
      EliminateStep(prev, Letters[i - 1])
  }

  /**
   * A singleton step keeps the wire's own candidate and takes it away from every other
   * wire; a step on a wire with several candidates changes nothing. Either way nothing grows.
   */
  lemma EliminateStepMeaning(opts: map<char, set<char>>, wire: char)
    requires wire in opts
    ensures var opts' := EliminateStep(opts, wire);
      Narrower(opts', opts) && opts'[wire] == opts[wire] &&
      (|opts[wire]| == 1 ==> forall v :: v in opts && v != wire ==> opts'[v] * opts[wire] == {}) &&
      (|opts[wire]| != 1 ==> opts' == opts)
  {
  }

  /** The whole pass never adds a candidate. */
  lemma {:induction false} EliminateNarrows(opts: map<char, set<char>>, i: nat)
    requires Complete(opts) && i <= |Letters|
    ensures Narrower(Eliminate(opts, i), opts)
  {
    if i > 0 {
      EliminateNarrows(opts, i - 1);
      EliminateStepMeaning(Eliminate(opts, i - 1), Letters[i - 1]);
    }
  }

  /** Every wire is down to one candidate. */
  predicate AllSingle(opts: map<char, set<char>>)
  {
    forall w :: w in opts ==> |opts[w]| == 1
  }

  /** `segments_to_wires` over the first `i` wires: each wire's segment maps back to it, a later wire winning a clash. */
  function Reverse(opts: map<char, set<char>>, i: nat): (m: map<char, char>)
    requires Complete(opts) && AllSingle(opts) && i <= |Letters|
    ensures forall k :: 0 <= k < i ==> TheOne(opts[Letters[k]]) in m
  {
    if i == 0 then map[]
    else Reverse(opts, i - 1)[TheOne(opts[Letters[i - 1]]) := Letters[i - 1]]
  }

  // ---------------------------------------------------------------------------
  // The Wiring state of one line
  // ---------------------------------------------------------------------------

  /** `wires_to_segments`, narrowed in place as the line's patterns are examined. */
  class Wiring {
    var options: map<char, set<char>>

    predicate Valid()
      reads this
    {
      Complete(options)
    }

    constructor()
      ensures Valid() && options == Initial()
    {
      options := Initial();
    }

    /** `process_known_pattern`: narrows every wire against a pattern known to show `digit`. */
    method ProcessKnownPattern(pattern: string, digit: char)
      requires Valid() && digit in WiresPerDigit
      modifies this
      ensures Valid() && options == KnownPattern(old(options), pattern, WiresPerDigit[digit])
    {
      NarrowAgainst(pattern, WiresPerDigit[digit]);
    }

    /** The loop of `process_known_pattern`, for the wires `digitWires` of the known digit. */
    method NarrowAgainst(pattern: string, digitWires: string)
      requires Valid()
      modifies this
      ensures Valid() && options == KnownPattern(old(options), pattern, digitWires)
    {
      var patternSet := CharSet(pattern);
      var opts := options;
      ghost var start := opts;
      for i := 0 to |Letters|
        invariant opts == KnownPatternUpTo(start, pattern, digitWires, i)
        invariant opts.Keys == AllLetters
      {
        var wire := Letters[i];
        LetterRank(i);
        if wire in digitWires {
          opts := opts[wire := opts[wire] * patternSet];
        } else {
          opts := opts[wire := opts[wire] - patternSet];
        }
      }
      options := opts;
    }

    /** `wires_to_segments[wire] &= segments`. */
    method RestrictWire(wire: char, segments: set<char>)
      requires Valid() && wire in AllLetters
      modifies this
      ensures Valid() && options == Restrict(old(options), wire, segments)
    {
      options := options[wire := options[wire] * segments];
    }

    /** Takes `segments` away from the candidates of every wire but `wire`. */
    method RemoveFromOthers(wire: char, segments: set<char>)
      requires Valid()
      modifies this
      ensures Valid() && options == RemoveSegments(old(options), wire, segments)
    {
      var opts := options;
      ghost var before := opts;
      for j := 0 to |Letters|
        invariant opts.Keys == AllLetters
        invariant forall v :: v in opts ==>
                    opts[v] == if Rank(v) < j && v != wire then before[v] - segments else before[v]
      {
        var otherWire := Letters[j];
        LetterRank(j);
        ghost var prev := opts;
        if otherWire != wire {
          opts := opts[otherWire := opts[otherWire] - segments];
        }
        forall v | v in opts
          ensures opts[v] == if Rank(v) < j + 1 && v != wire then before[v] - segments else before[v]
        {
          if v != otherWire {
            assert Rank(v) != j;
            assert opts[v] == prev[v];
          }
        }
      }
      forall v | v in opts
        ensures Rank(v) < |Letters|
      {
        WireRank(v);
      }
      options := opts;
    }

    /** The singleton pass: each wire with one candidate takes it away from all the others. */
    method EliminateSingletons()
      requires Valid()
      modifies this
      ensures Valid() && options == Eliminate(old(options), |Letters|)
    {
      ghost var start := options;
      for i := 0 to |Letters|
        invariant Valid() && options == Eliminate(start, i)
      {
        var wire := Letters[i];
        var segments := options[wire];
        if |segments| == 1 {
          ghost var before := options;
          RemoveFromOthers(wire, segments);
        }
      }
    }
  }

  // ---------------------------------------------------------------------------
  // part_b
  // ---------------------------------------------------------------------------

  /** The segments that occur exactly `n` times in `s`, as `collections.Counter` tallies them. */
  function CharsWithCount(s: string, n: nat): set<char>
  {
    set c | c in s && Count(s, c) == n
  }

  /** The patterns of length `n`, in order. */
  function WithLength(ps: seq<string>, n: nat): seq<string>
  {
    if |ps| == 0 then []
    else WithLength(ps[..|ps| - 1], n) + if |ps[|ps| - 1]| == n then [ps[|ps| - 1]] else []
  }

  /** All letters of the patterns, one after the other (`itertools.chain`). */
  function Flatten(ps: seq<string>): string
  {
    if |ps| == 0 then [] else Flatten(ps[..|ps| - 1]) + ps[|ps| - 1]
  }

  /** The candidates once every step of the deduction has run, from the length-sorted patterns. */
  function Deduce(patterns: seq<string>): (opts: map<char, set<char>>)
    requires |patterns| >= 10
    ensures Complete(opts)
  {
    var o1 := KnownPattern(Initial(), patterns[0], WiresPerDigit['1']);
    var o2 := KnownPattern(o1, patterns[1], WiresPerDigit['7']);
    var o3 := KnownPattern(o2, patterns[2], WiresPerDigit['4']);
    var o4 := KnownPattern(o3, patterns[9], WiresPerDigit['8']);
    assert Complete(o4);
    var once5 := CharsWithCount(Flatten(WithLength(patterns, 5)), 1);
    var o5 := Restrict(Restrict(o4, 'b', once5), 'e', once5);
    var six := Flatten(WithLength(patterns, 6));
    var o6 := Restrict(Restrict(o5, 'c', CharsWithCount(six, 2)), 'f', CharsWithCount(six, 3));
    Eliminate(o6, |Letters|)
  }

  /** The wires behind the segments of one output word, or a KeyError for an unmapped segment. */
  function WiresOf(segmentsToWires: map<char, char>, o: string): (r: Option<string>)
    ensures r.Some? ==> |r.value| == |o| && forall k :: 0 <= k < |o| ==> o[k] in segmentsToWires && r.value[k] == segmentsToWires[o[k]]
    ensures r.None? ==> exists k :: 0 <= k < |o| && o[k] !in segmentsToWires
  {
    if |o| == 0 then Some([])
    else
      match WiresOf(segmentsToWires, o[..|o| - 1])
      case None => None
      case Some(ws) =>
        var s := o[|o| - 1];
        if s in segmentsToWires then Some(ws + [segmentsToWires[s]]) else None
  }

  /** One output word's digit: its wires, sorted, looked up in `digit_for_wires`. */
  function DecodeWord(segmentsToWires: map<char, char>, o: string): Result<char>
  {
    match WiresOf(segmentsToWires, o)
    case None => Err("KeyError")
    case Some(ws) =>
      var key := SortChars(ws);
      if key in DigitForWires then Ok(DigitForWires[key]) else Err("KeyError")
  }

  /** Each neighbouring pair of letters from position `i` on is in order. */
  predicate AscendingFrom(s: string, i: nat)
    decreases |s| - i
  {
    i + 1 >= |s| || (s[i] <= s[i + 1] && AscendingFrom(s, i + 1))
  }

  lemma {:induction false} AscendingFromSorted(s: string, i: nat)
    requires AscendingFrom(s, i)
    ensures forall a, b :: i <= a < b < |s| ==> s[a] <= s[b]
    decreases |s| - i
  {
    if i + 1 < |s| {
      AscendingFromSorted(s, i + 1);
    }
  }

  /** Every entry of `wires_per_digit` is written in alphabetical order, so it is its own lookup key. */
  lemma TableSorted(d: char)
    requires d in WiresPerDigit
    ensures SortedChars(WiresPerDigit[d])
  {
    var w := WiresPerDigit[d];
    assert AscendingFrom(w, 0);
    AscendingFromSorted(w, 0);
  }

  /** The order of the segments in an output word does not matter: any arrangement of a digit's wires decodes to that digit. */
  lemma DecodeWordPermutation(segmentsToWires: map<char, char>, o: string, d: char)
    requires d in WiresPerDigit
    requires WiresOf(segmentsToWires, o).Some? && multiset(WiresOf(segmentsToWires, o).value) == multiset(WiresPerDigit[d])
    ensures DecodeWord(segmentsToWires, o) == Ok(d)
  {
    var ws := WiresOf(segmentsToWires, o).value;
    var w := WiresPerDigit[d];
    TableSorted(d);
    TablesInverse();
    SortedUnique(SortChars(ws), w);
  }

  /** The digits of the output words from `i` on, after the digits `acc`, or the first lookup error. */
  function DecodeFrom(segmentsToWires: map<char, char>, outputs: seq<string>, i: nat, acc: string): Result<string>
    requires i <= |outputs|
    decreases |outputs| - i
  {
    if i == |outputs| then Ok(acc)
    else
      match DecodeWord(segmentsToWires, outputs[i])
      case Err(e) => Err(e)
      case Ok(d) => DecodeFrom(segmentsToWires, outputs, i + 1, acc + [d])
  }

  lemma DecodeFromStep(segmentsToWires: map<char, char>, outputs: seq<string>, i: nat, acc: string)
    requires i < |outputs|
    ensures var r := DecodeWord(segmentsToWires, outputs[i]);
      DecodeFrom(segmentsToWires, outputs, i, acc) ==
        if r.Err? then Err(r.msg) else DecodeFrom(segmentsToWires, outputs, i + 1, acc + [r.value])
  {
  }

  /** The digits of the output words, or the first lookup error. */
  function DecodeWords(segmentsToWires: map<char, char>, outputs: seq<string>): Result<string>
  {
    DecodeFrom(segmentsToWires, outputs, 0, [])
  }

  /** `int(''.join(o_digits))`: no digits at all is a ValueError. */
  function NumberOf(digits: string): (r: Result<nat>)
    requires forall k :: 0 <= k < |digits| ==> IsDigit(digits[k])
    ensures r.Ok? <==> |digits| > 0
  {
    match ParseNat(digits)
    case None => Err("ValueError: invalid literal for int()")
    case Some(n) => Ok(n)
  }

  /** The digits of the table are all decimal digits. */
  lemma TableDigits()
    ensures forall w :: w in DigitForWires ==> IsDigit(DigitForWires[w])
  {
  }

  /** A word that decodes at all decodes to a decimal digit. */
  lemma DecodeWordDigit(segmentsToWires: map<char, char>, o: string)
    requires DecodeWord(segmentsToWires, o).Ok?
    ensures IsDigit(DecodeWord(segmentsToWires, o).value)
  {
    TableDigits();
  }

  /** Decoding yields one decimal digit per output word. */
  lemma {:induction false} DecodedAreDigits(segmentsToWires: map<char, char>, outputs: seq<string>, i: nat, acc: string)
    requires i <= |outputs| && DecodeFrom(segmentsToWires, outputs, i, acc).Ok?
    requires forall k :: 0 <= k < |acc| ==> IsDigit(acc[k])
    ensures var ds := DecodeFrom(segmentsToWires, outputs, i, acc).value;
      |ds| == |acc| + |outputs| - i && forall k :: 0 <= k < |ds| ==> IsDigit(ds[k])
    decreases |outputs| - i
  {
    if i < |outputs| {
      var r := DecodeWord(segmentsToWires, outputs[i]);
      DecodeFromStep(segmentsToWires, outputs, i, acc);
      DecodeWordDigit(segmentsToWires, outputs[i]);
      var acc' := acc + [r.value];
      assert forall k :: 0 <= k < |acc'| ==> IsDigit(acc'[k]);
      DecodedAreDigits(segmentsToWires, outputs, i + 1, acc');
    }
  }

  /** The number shown on one display line, or the error the line raises. */
  function LineValue(line: string): Result<nat>
  {
    match Halves(line)
    case Err(e) => Err(e)
    case Ok(h) =>
      var patterns := SortByLength(Words(h.0));
      if |patterns| < 10 then Err("IndexError: list index out of range")
      else
        var opts := Deduce(patterns);
        if !AllSingle(opts) then Err("Exception: Did not determine unique mapping for wires_to_segments")
        else
          match DecodeWords(Reverse(opts, |Letters|), Words(h.1))
          case Err(e) => Err(e)
          case Ok(ds) =>
            DecodedAreDigits(Reverse(opts, |Letters|), Words(h.1), 0, []);
            NumberOf(ds)
  }

  /** A line decodes only once the deduction has left every wire exactly one segment. */
  lemma LineValueNeedsUniqueMapping(line: string)
    requires LineValue(line).Ok?
    ensures var h := Halves(line).value;
      var patterns := SortByLength(Words(h.0));
      |patterns| >= 10 && AllSingle(Deduce(patterns)) && Narrower(Deduce(patterns), Initial())
  {
    var h := Halves(line).value;
    var patterns := SortByLength(Words(h.0));
    var o1 := KnownPattern(Initial(), patterns[0], WiresPerDigit['1']);
    var o2 := KnownPattern(o1, patterns[1], WiresPerDigit['7']);
    var o3 := KnownPattern(o2, patterns[2], WiresPerDigit['4']);
    var o4 := KnownPattern(o3, patterns[9], WiresPerDigit['8']);
    KnownPatternMeaning(Initial(), patterns[0], WiresPerDigit['1']);
    KnownPatternMeaning(o1, patterns[1], WiresPerDigit['7']);
    KnownPatternMeaning(o2, patterns[2], WiresPerDigit['4']);
    KnownPatternMeaning(o3, patterns[9], WiresPerDigit['8']);
    var once5 := CharsWithCount(Flatten(WithLength(patterns, 5)), 1);
    var o5 := Restrict(Restrict(o4, 'b', once5), 'e', once5);
    var six := Flatten(WithLength(patterns, 6));
    var o6 := Restrict(Restrict(o5, 'c', CharsWithCount(six, 2)), 'f', CharsWithCount(six, 3));
    EliminateNarrows(o6, |Letters|);
  }

  /** The output loop of `part_b`: one digit per output word. */
  method DecodeOutputs(segmentsToWires: map<char, char>, outputs: seq<string>) returns (r: Result<string>)
    ensures r == DecodeWords(segmentsToWires, outputs)
  {
    var oDigits := [];
    for i := 0 to |outputs|
      invariant DecodeFrom(segmentsToWires, outputs, i, oDigits) == DecodeWords(segmentsToWires, outputs)
    {
      var d := DecodeWord(segmentsToWires, outputs[i]);
      if d.Err? {
        assert DecodeFrom(segmentsToWires, outputs, i, oDigits) == Err(d.msg);
        return Err(d.msg);
      }
      assert DecodeFrom(segmentsToWires, outputs, i, oDigits) == DecodeFrom(segmentsToWires, outputs, i + 1, oDigits + [d.value]);
      oDigits := oDigits + [d.value];
    }
    r := Ok(oDigits);
  }

  /** The body of `part_b`'s loop for one line. */
  method DecodeLine(line: string) returns (r: Result<nat>)
    ensures r == LineValue(line)
  {
    var halves := Halves(line);
    if halves.Err? {
      return Err(halves.msg);
    }
    var patterns := SortByLength(Words(halves.value.0));
    var outputs := Words(halves.value.1);
    if |patterns| < 10 {
      return Err("IndexError: list index out of range");
    }
    var wiring := new Wiring();
    wiring.ProcessKnownPattern(patterns[0], '1');
    wiring.ProcessKnownPattern(patterns[1], '7');
    wiring.ProcessKnownPattern(patterns[2], '4');
    wiring.ProcessKnownPattern(patterns[9], '8');
    var once5 := CharsWithCount(Flatten(WithLength(patterns, 5)), 1);
    wiring.RestrictWire('b', once5);
    wiring.RestrictWire('e', once5);
    var six := Flatten(WithLength(patterns, 6));
    wiring.RestrictWire('c', CharsWithCount(six, 2));
    wiring.RestrictWire('f', CharsWithCount(six, 3));
    wiring.EliminateSingletons();
    assert wiring.options == Deduce(patterns);
    if !AllSingle(wiring.options) {
      return Err("Exception: Did not determine unique mapping for wires_to_segments");
    }
    var segmentsToWires := Reverse(wiring.options, |Letters|);
    var digits := DecodeOutputs(segmentsToWires, outputs);
    if digits.Err? {
      return Err(digits.msg);
    }
    DecodedAreDigits(segmentsToWires, outputs, 0, []);
    r := NumberOf(digits.value);
  }

  /** The value of every line, in order. */
  function LineValues(lines: seq<string>): (vs: seq<Result<nat>>)
    ensures |vs| == |lines|
  {
    seq(|lines|, k requires 0 <= k < |lines| => LineValue(lines[k]))
  }

  /** `vs` holds the value of every line of `lines`, in order. */
  predicate ValuesOfLines(lines: seq<string>, vs: seq<Result<nat>>)
  {
    |vs| == |lines| && forall k {:trigger LineValue(lines[k])} :: 0 <= k < |lines| ==> vs[k] == LineValue(lines[k])
  }

  lemma ValuesExist(lines: seq<string>) returns (vs: seq<Result<nat>>)
    ensures ValuesOfLines(lines, vs)
  {
    vs := LineValues(lines);
  }

  /** The sum of the values from `i` on, after `acc`, or the first error among them. */
  function SumFrom(vs: seq<Result<nat>>, i: nat, acc: nat): Result<nat>
    requires i <= |vs|
    decreases |vs| - i
  {
    if i == |vs| then Ok(acc)
    else
      match vs[i]
      case Err(e) => Err(e)
      case Ok(v) => SumFrom(vs, i + 1, acc + v)
  }

  lemma SumFromStep(vs: seq<Result<nat>>, i: nat, acc: nat)
    requires i < |vs|
    ensures vs[i].Err? ==> SumFrom(vs, i, acc) == Err(vs[i].msg)
    ensures vs[i].Ok? ==> SumFrom(vs, i, acc) == SumFrom(vs, i + 1, acc + vs[i].value)
  {
  }

  /** The total `part_b` reports: the sum of all line values, or the first line's error. */
  function OutputTotal(lines: seq<string>): Result<nat>
  {
    SumFrom(LineValues(lines), 0, 0)
  }

  /** Any sequence of the lines' values sums to the total. */
  lemma OutputTotalOf(lines: seq<string>, vs: seq<Result<nat>>)
    requires ValuesOfLines(lines, vs)
    ensures OutputTotal(lines) == SumFrom(vs, 0, 0)
  {
    assert vs == LineValues(lines);
  }

  /** The body of `part_b`'s loop, for line `i`, whose value `vs` records. */
  method DecodeLineAt(lines: seq<string>, i: nat, ghost vs: seq<Result<nat>>) returns (r: Result<nat>)
    requires i < |lines| && ValuesOfLines(lines, vs)
    ensures r == vs[i]
  {
    r := DecodeLine(lines[i]);
  }

  /** `part_b`: the sum of all decoded displays. */
  method PartB(lines: seq<string>) returns (r: Result<nat>)
    ensures r == OutputTotal(lines)
  {
    ghost var vs := ValuesExist(lines);
    OutputTotalOf(lines, vs);
    var sum: nat := 0;
    for i := 0 to |lines|
      invariant SumFrom(vs, i, sum) == SumFrom(vs, 0, 0)
    {
      var num := DecodeLineAt(lines, i, vs);
      SumFromStep(vs, i, sum);
      if num.Err? {
        return Err(num.msg);
      }
      sum := sum + num.value;
    }
    r := Ok(sum);
  }
}
