/**
 * Day 3, binary diagnostic: every line is a string of bits. The first part builds gamma from
 * the more common bit of each column and epsilon from its complement. The second narrows the
 * set of lines one bit position at a time, once keeping the more common bit (the oxygen
 * rating) and once the less common one (the carbon dioxide rating), until one line is left.
 */
module Day03 {
  import opened Util

  // ---------------------------------------------------------------------------
  // Part A: gamma and epsilon
  // ---------------------------------------------------------------------------

  /** Every line has at least n characters, so every column below n can be read. */
  predicate Wide(lines: seq<string>, n: nat)
  {
    forall k :: 0 <= k < |lines| ==> n <= |lines[k]|
  }

  /** `[line[i] for line in lines]`. */
  function Column(lines: seq<string>, i: nat): (col: seq<char>)
    requires Wide(lines, i + 1)
    ensures |col| == |lines|
  {
    seq(|lines|, k requires 0 <= k < |lines| => lines[k][i])
  }

  /** `'1' if bits[i].count('1') > (num_lines / 2) else '0'`, with the halving done exactly. */
  function GammaBit(lines: seq<string>, i: nat): char
    requires Wide(lines, i + 1)
  {
    if 2 * Count(Column(lines, i), '1') > |lines| then '1' else '0'
  }

  /** The gamma bits of the first n columns. */
  function Gamma(lines: seq<string>, n: nat): (g: string)
    requires Wide(lines, n)
    ensures |g| == n && IsBinary(g)
  {
    if n == 0 then [] else Gamma(lines, n - 1) + [GammaBit(lines, n - 1)]
  }

  /** `'0' if bit == '1' else '1'`. */
  function Flip(c: char): char
  {
    if c == '1' then '0' else '1'
  }

  /** Epsilon: every bit of gamma flipped. */
  function Complement(g: string): (e: string)
    ensures |e| == |g| && IsBinary(e)
  {
    if |g| == 0 then [] else Complement(g[..|g| - 1]) + [Flip(g[|g| - 1])]
  }

  /** Bit i of gamma is the bit of column i as the code decides it. */
  lemma {:induction false} GammaAt(lines: seq<string>, n: nat, i: nat)
    requires Wide(lines, n) && i < n
    ensures Gamma(lines, n)[i] == GammaBit(lines, i)
  {
    if i < n - 1 {
      GammaAt(lines, n - 1, i);
    }
  }

  /** Gamma bit i is '1' exactly when column i holds more '1's than other characters. */
  lemma GammaMajority(lines: seq<string>, n: nat, i: nat)
    requires Wide(lines, n) && i < n
    ensures var ones := Count(Column(lines, i), '1');
      Gamma(lines, n)[i] == '1' <==> ones > |lines| - ones
  {
    GammaAt(lines, n, i);
  }

  /** Bit i of epsilon is bit i of gamma flipped. */
  lemma {:induction false} ComplementAt(g: string, i: nat)
    requires i < |g|
    ensures Complement(g)[i] == Flip(g[i])
  {
    if i < |g| - 1 {
      ComplementAt(g[..|g| - 1], i);
    }
  }

  /** Flipping twice gives a binary string back. */
  lemma {:induction false} ComplementTwice(g: string)
    requires IsBinary(g)
    ensures Complement(Complement(g)) == g
  {
    if |g| > 0 {
      var init := g[..|g| - 1];
      ComplementTwice(init);
      var e := Complement(g);
      assert e[..|e| - 1] == Complement(init);
      assert g == init + [g[|g| - 1]];
    }
  }

  /** Gamma plus epsilon is all ones: n bits of value 2^n - 1. */
  lemma {:induction false} ComplementSum(g: string)
    requires IsBinary(g)
    ensures BinaryValue(g) + BinaryValue(Complement(g)) == Pow2(|g|) - 1
  {
    if |g| > 0 {
      var init := g[..|g| - 1];
      ComplementSum(init);
      var e := Complement(g);
      assert e[..|e| - 1] == Complement(init);
    }
  }

  /**
   * `part_a`: gamma times epsilon. An empty input or a line shorter than the first raises
   * IndexError, and an empty first line leaves `int('', 2)` to raise.
   */
  function PartA(lines: seq<string>): (r: Result<nat>)
    ensures r.Ok? <==> |lines| > 0 && |lines[0]| > 0 && Wide(lines, |lines[0]|)
    ensures r.Ok? ==> var g := BinaryValue(Gamma(lines, |lines[0]|));
      r.value == g * (Pow2(|lines[0]|) - 1 - g)
  {
    if |lines| == 0 then Err("IndexError: list index out of range")
    else if !Wide(lines, |lines[0]|) then Err("IndexError: string index out of range")
    else
      var gamma := Gamma(lines, |lines[0]|);
      match ParseIntBase2(gamma)
      case Err(e) => Err(e)
      case Ok(_) => Ok(PowerConsumption(gamma))
  }

  /**
   * `g * e` for a binary gamma: `int(epsilon, 2)` cannot fail once gamma parsed, since the
   * complement is binary and just as long, and it is what gamma lacks of all ones.
   */
  function PowerConsumption(gamma: string): (p: nat)
    requires IsBinary(gamma)
    ensures var g := BinaryValue(gamma); p == g * (Pow2(|gamma|) - 1 - g)
  {
    var epsilon := Complement(gamma);
    ComplementSum(gamma);
    BinaryValue(gamma) * BinaryValue(epsilon)
  }

  // ---------------------------------------------------------------------------
  // Part B: bit criteria
  // ---------------------------------------------------------------------------

  /** `operator.ge` keeps the more common bit (ties to '1'); `operator.lt` the less common one (ties to '0'). */
  datatype Criterion = MostCommon | LeastCommon

  /** `'1' if op(count, len(element) / 2) else '0'`, with the halving done exactly. */
  function Chosen(crit: Criterion, ones: nat, size: nat): char
  {
    match crit
    case MostCommon => if 2 * ones >= size then '1' else '0'
    case LeastCommon => if 2 * ones < size then '1' else '0'
  }

  /** Bit i can be read from every element. */
  predicate Reaches(s: set<string>, i: nat)
  {
    forall e :: e in s ==> i < |e|
  }

  /** Bit i of every element is '0' or '1'. */
  predicate BinaryColumn(s: set<string>, i: nat)
  {
    forall e :: e in s ==> i < |e| && (e[i] == '0' || e[i] == '1')
  }

  /** `set([e for e in element if e[i] == chosen])`. */
  function Keep(s: set<string>, i: nat, c: char): (t: set<string>)
    requires Reaches(s, i)
    ensures t <= s
  {
    set e | e in s && e[i] == c
  }

  /** `[e[i] for e in element].count('1')`: the elements whose bit i is '1'. */
  function OnesIn(s: set<string>, i: nat): nat
    requires Reaches(s, i)
  {
    |Keep(s, i, '1')|
  }

  /** The elements with a '0' and those with a '1' at a binary column split the set in two. */
  lemma KeepPartition(s: set<string>, i: nat)
    requires BinaryColumn(s, i)
    ensures Keep(s, i, '0') + Keep(s, i, '1') == s && Keep(s, i, '0') * Keep(s, i, '1') == {}
    ensures |Keep(s, i, '0')| + |Keep(s, i, '1')| == |s|
  {
    var zeros, ones := Keep(s, i, '0'), Keep(s, i, '1');
    assert zeros + ones == s;
    assert zeros * ones == {};
    assert |zeros + ones| == |zeros| + |ones|;
  }

  /** The oxygen criterion keeps at least half of the set, so it never empties a non-empty one. */
  lemma MostCommonKeepsHalf(s: set<string>, i: nat)
    requires BinaryColumn(s, i)
    ensures 2 * |Keep(s, i, Chosen(MostCommon, OnesIn(s, i), |s|))| >= |s|
  {
    KeepPartition(s, i);
  }

  /** The carbon dioxide criterion keeps at most half of the set. */
  lemma LeastCommonKeepsHalf(s: set<string>, i: nat)
    requires BinaryColumn(s, i)
    ensures 2 * |Keep(s, i, Chosen(LeastCommon, OnesIn(s, i), |s|))| <= |s|
  {
    KeepPartition(s, i);
  }

  /** The carbon dioxide criterion keeps something when both bits occur in the column. */
  lemma LeastCommonKeepsSome(s: set<string>, i: nat, x: string, y: string)
    requires BinaryColumn(s, i)
    requires x in s && y in s && x[i] == '0' && y[i] == '1'
    ensures Keep(s, i, Chosen(LeastCommon, OnesIn(s, i), |s|)) != {}
  {
    KeepPartition(s, i);
    assert x in Keep(s, i, '0') && y in Keep(s, i, '1');
  }

  /**
   * The loop of `part_b` for one criterion, from bit i on: filter on bit i, stop as soon as
   * one element is left, and raise once the n bits are used up. Reading a bit past the end of
   * an element raises IndexError.
   */
  function Narrow(s: set<string>, i: nat, n: nat, crit: Criterion): (r: Result<set<string>>)
    ensures r.Ok? ==> |r.value| == 1 && r.value <= s
    decreases n - i
  {
    if i >= n then Err("Exception: We got through the set of elements without finding a unique match")
    else if !Reaches(s, i) then Err("IndexError: string index out of range")
    else
      var t := Keep(s, i, Chosen(crit, OnesIn(s, i), |s|));
      if |t| == 1 then Ok(t) else Narrow(t, i + 1, n, crit)
  }

  /** An emptied set never recovers: the search runs out of bits and raises. */
  lemma {:induction false} NarrowEmpty(i: nat, n: nat, crit: Criterion)
    ensures Narrow({}, i, n, crit) == Err("Exception: We got through the set of elements without finding a unique match")
    decreases n - i
  {
    if i < n {
      assert Keep({}, i, Chosen(crit, OnesIn({}, i), 0)) == {};
      NarrowEmpty(i + 1, n, crit);
    }
  }

  /** The carbon dioxide criterion empties a set whose elements all share their first bit, and the search then raises. */
  lemma LeastCommonCanEmpty()
    ensures Narrow({"00", "01"}, 0, 2, LeastCommon).Err?
  {
    var s: set<string> := {"00", "01"};
    assert "00"[0] == '0' && "01"[0] == '0';
    assert Keep(s, 0, '1') == {};
    assert Keep(s, 0, Chosen(LeastCommon, OnesIn(s, 0), |s|)) == {};
    NarrowEmpty(1, 2, LeastCommon);
  }

  /** All elements are binary strings of length n. */
  predicate Uniform(s: set<string>, n: nat)
  {
    forall e :: e in s ==> |e| == n && IsBinary(e)
  }

  /** All elements agree on their first i bits. */
  predicate Agree(s: set<string>, i: nat)
  {
    forall x, y, k :: x in s && y in s && 0 <= k < i && k < |x| && k < |y| ==> x[k] == y[k]
  }

  /** Binary strings of one length that agree on every bit are one string. */
  lemma AgreeSingleton(s: set<string>, n: nat)
    requires s != {} && Uniform(s, n) && Agree(s, n)
    ensures |s| == 1
  {
    var x :| x in s;
    forall y | y in s
      ensures y == x
    {
      assert forall k :: 0 <= k < n ==> y[k] == x[k];
    }
    assert s == {x};
  }

  /** One oxygen round keeps a non-empty set of uniform strings that now agree on one more bit. */
  lemma MostCommonRound(s: set<string>, i: nat, n: nat)
    requires i < n && s != {} && Uniform(s, n) && Agree(s, i)
    ensures var t := Keep(s, i, Chosen(MostCommon, OnesIn(s, i), |s|));
      t != {} && Uniform(t, n) && Agree(t, i + 1)
  {
    MostCommonKeepsHalf(s, i);
  }

  /** From bit i on, a non-empty set of distinct n-bit strings that agree on the first i bits always yields an oxygen rating. */
  lemma {:induction false} OxygenFrom(s: set<string>, i: nat, n: nat)
    requires i < n && s != {} && Uniform(s, n) && Agree(s, i)
    ensures Narrow(s, i, n, MostCommon).Ok?
    decreases n - i
  {
    MostCommonRound(s, i, n);
    var t := Keep(s, i, Chosen(MostCommon, OnesIn(s, i), |s|));
    if |t| != 1 {
      if i + 1 < n {
        OxygenFrom(t, i + 1, n);
      } else {
        AgreeSingleton(t, n);
      }
    }
  }

  /** The set of the input lines. */
  function Lines(lines: seq<string>): (s: set<string>)
    ensures forall e :: e in s <==> e in lines
  {
    set l | l in lines
  }

  /** One rating: the line the criterion singles out, read by `int(line, 2)`. */
  function Rating(lines: seq<string>, crit: Criterion): (r: Result<int>)
    requires |lines| > 0
    ensures r.Ok? ==> exists k :: 0 <= k < |lines| && ParseIntBase2(lines[k]) == Ok(r.value)
  {
    match Narrow(Lines(lines), 0, |lines[0]|, crit)
    case Err(e) => Err(e)
    case Ok(t) =>
      var line := TheOne(t);
      assert line in lines;
      ParseIntBase2(line)
  }

  /** The search on the lines `1_1` and `000`: each criterion singles out one of them at the first bit. */
  lemma UnderscoreLineNarrow()
    ensures Narrow(Lines(["1_1", "000"]), 0, 3, MostCommon) == Ok({"1_1"})
    ensures Narrow(Lines(["1_1", "000"]), 0, 3, LeastCommon) == Ok({"000"})
  {
    var s := Lines(["1_1", "000"]);
    assert s == {"1_1", "000"};
    assert "1_1"[0] == '1' && "000"[0] == '0';
    assert Keep(s, 0, '1') == {"1_1"};
    assert Keep(s, 0, '0') == {"000"};
    assert OnesIn(s, 0) == 1;
  }

  /**
   * A surviving line is read by `int(line, 2)`, underscores and all: on the lines `1_1` and
   * `000` the oxygen rating is 3, the carbon dioxide rating 0, and part B gives 0.
   */
  lemma UnderscoreLineExample()
    ensures Rating(["1_1", "000"], MostCommon) == Ok(3)
    ensures Rating(["1_1", "000"], LeastCommon) == Ok(0)
    ensures LifeSupport(Rating(["1_1", "000"], MostCommon), Rating(["1_1", "000"], LeastCommon)) == Ok(0)
  {
    assert Rating(["1_1", "000"], MostCommon) == ParseIntBase2("1_1") by {
      UnderscoreLineNarrow();
      assert TheOne({"1_1"}) == "1_1";
    }
    assert Rating(["1_1", "000"], LeastCommon) == ParseIntBase2("000") by {
      UnderscoreLineNarrow();
      assert TheOne({"000"}) == "000";
    }
    ParseBase2Examples();
  }

  /** When every line is a binary string as long as the first one, and that is not empty, the oxygen rating exists. */
  lemma OxygenExists(lines: seq<string>)
    requires |lines| > 0 && |lines[0]| > 0
    requires forall k :: 0 <= k < |lines| ==> |lines[k]| == |lines[0]| && IsBinary(lines[k])
    ensures Rating(lines, MostCommon).Ok?
  {
    var n := |lines[0]|;
    var s := Lines(lines);
    assert lines[0] in s;
    assert Uniform(s, n);
    OxygenFrom(s, 0, n);
  }

  /** One round of the search, unfolded. */
  lemma NarrowStep(s: set<string>, i: nat, n: nat, crit: Criterion)
    requires i < n && Reaches(s, i)
    ensures var t := Keep(s, i, Chosen(crit, OnesIn(s, i), |s|));
      Narrow(s, i, n, crit) == if |t| == 1 then Ok(t) else Narrow(t, i + 1, n, crit)
  {
  }

  /** The filtering loop of `part_b` for one criterion. */
  method Filter(lines: seq<string>, crit: Criterion) returns (r: Result<set<string>>)
    requires |lines| > 0
    ensures r == Narrow(Lines(lines), 0, |lines[0]|, crit)
  {
    var n := |lines[0]|;
    var element := Lines(lines);
    ghost var start := element;
    var i := 0;
    while i < n
      invariant i <= n
      invariant Narrow(start, 0, n, crit) == Narrow(element, i, n, crit)
      decreases n - i
    {
      if !Reaches(element, i) {
        return Err("IndexError: string index out of range");
      }
      NarrowStep(element, i, n, crit);
      var chosen := Chosen(crit, OnesIn(element, i), |element|);
      element := Keep(element, i, chosen);
      if |element| == 1 {
        return Ok(element);
      }
      i := i + 1;
    }
    return Err("Exception: We got through the set of elements without finding a unique match");
  }

  /** One pass of the outer loop: the filtered set's sole line, `int(element.pop(), 2)`. */
  method RatingOf(lines: seq<string>, crit: Criterion) returns (r: Result<int>)
    requires |lines| > 0
    ensures r == Rating(lines, crit)
  {
    var element := Filter(lines, crit);
    if element.Err? {
      return Err(element.msg);
    }
    r := ParseIntBase2(TheOne(element.value));
  }

  /** The product of the two ratings, or the first rating's error. */
  function LifeSupport(oxygen: Result<int>, carbon: Result<int>): (r: Result<int>)
    ensures oxygen.Err? ==> r == Err(oxygen.msg)
    ensures oxygen.Ok? && carbon.Err? ==> r == Err(carbon.msg)
    ensures oxygen.Ok? && carbon.Ok? ==> r == Ok(oxygen.value * carbon.value)
  {
    match oxygen
    case Err(e) => Err(e)
    case Ok(o) =>
      match carbon
      case Err(e) => Err(e)
      case Ok(c) => Ok(o * c)
  }

  /** `part_b`: the oxygen rating times the carbon dioxide rating, failing with the first error. */
  method PartB(lines: seq<string>) returns (r: Result<int>)
    ensures |lines| == 0 ==> r.Err?
    ensures |lines| > 0 ==> r == LifeSupport(Rating(lines, MostCommon), Rating(lines, LeastCommon))
  {
    if |lines| == 0 {
      return Err("IndexError: list index out of range");
    }
    var oxygen := RatingOf(lines, MostCommon);
    if oxygen.Err? {
      return Err(oxygen.msg);
    }
    var carbon := RatingOf(lines, LeastCommon);
    r := LifeSupport(oxygen, carbon);
  }
}
