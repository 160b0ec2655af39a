/**
 * Day 14, extended polymerization. One growth step inserts, between every two adjacent
 * elements, the element the rule for that pair names. Part A grows the polymer itself;
 * part B only tracks how many times each adjacent pair occurs (a `Counter`, here a
 * multiset of pairs), which is enough to recover the element counts at the end.
 */
module Day14 {
  import opened Util

  /** Two adjacent elements. */
  type Pair = (char, char)

  /** The insertion rules, keyed by the two-character string of the pair. */
  type Rules = map<string, char>

  function Key(pr: Pair): string
  {
    [pr.0, pr.1]
  }

  // ---------------------------------------------------------------------------
  // read_polymer_and_replacements
  // ---------------------------------------------------------------------------

  datatype Input = Input(polymer: seq<char>, rules: Rules)

  /** `pair, _, to_insert = line.split()`. */
  function ParseRule(line: string): Result<(string, char)>
  {
    var ws := Words(line);
    if |ws| != 3 then Err("ValueError: wrong number of values to unpack")
    else if |ws[2]| != 1 then Err("ValueError: the inserted element is not a single character")
    else Ok((ws[0], ws[2][0]))
  }

  /** The rule lines parsed in order, or the error of the first that does not parse. */
  function ParseRules(ruleLines: seq<string>): (r: Result<seq<(string, char)>>)
    ensures r.Ok? <==> forall k :: 0 <= k < |ruleLines| ==> ParseRule(ruleLines[k]).Ok?
    ensures r.Ok? ==> |r.value| == |ruleLines|
  {
    if |ruleLines| == 0 then Ok([])
    else
      match ParseRules(ruleLines[..|ruleLines| - 1])
      case Err(e) => Err(e)
      case Ok(init) =>
        match ParseRule(ruleLines[|ruleLines| - 1])
        case Err(e) => Err(e)
        case Ok(rule) => Ok(init + [rule])
  }

  /** The dictionary the rules fill in order: a later rule for the same pair overwrites. */
  function RuleMap(rs: seq<(string, char)>): Rules
  {
    if |rs| == 0 then map[] else RuleMap(rs[..|rs| - 1])[rs[|rs| - 1].0 := rs[|rs| - 1].1]
  }

  /** Every rule's pair is a key of the dictionary. */
  lemma {:induction false} RuleMapKeys(rs: seq<(string, char)>)
    ensures forall k :: 0 <= k < |rs| ==> rs[k].0 in RuleMap(rs)
    decreases |rs|
  {
    if |rs| > 0 {
      var init := rs[..|rs| - 1];
      RuleMapKeys(init);
      assert forall k :: 0 <= k < |init| ==> rs[k] == init[k];
    }
  }

  /** Each key maps to the insert of the last rule for its pair. */
  lemma {:induction false} RuleMapLastWins(rs: seq<(string, char)>)
    ensures forall key :: key in RuleMap(rs) ==>
              exists k :: (0 <= k < |rs| && rs[k] == (key, RuleMap(rs)[key])
                           && forall j :: k < j < |rs| ==> rs[j].0 != key)
    decreases |rs|
  {
    if |rs| > 0 {
      var init, last := rs[..|rs| - 1], rs[|rs| - 1];
      RuleMapLastWins(init);
      var m := RuleMap(rs);
      forall key | key in m
        ensures exists k :: (0 <= k < |rs| && rs[k] == (key, m[key])
                             && forall j :: k < j < |rs| ==> rs[j].0 != key)
      {
        if key == last.0 {
          assert rs[|rs| - 1] == (key, m[key]);
        } else {
          var k :| 0 <= k < |init| && init[k] == (key, RuleMap(init)[key])
                && forall j :: k < j < |init| ==> init[j].0 != key;
          assert m[key] == RuleMap(init)[key];
          assert rs[k] == init[k];
          forall j | k < j < |rs|
            ensures rs[j].0 != key
          {
            if j < |init| {
              assert rs[j] == init[j];
            }
          }
        }
      }
    }
  }

  /** The first line is the polymer; the rules start at the third line. */
  function ReadInput(lines: seq<string>): Result<Input>
  {
    if |lines| == 0 then Err("IndexError: list index out of range")
    else
      match ParseRules(if |lines| < 2 then [] else lines[2..])
      case Err(e) => Err(e)
      case Ok(rs) => Ok(Input(lines[0], RuleMap(rs)))
  }

  /** Parsing one more rule line. */
  lemma ParseRulesStep(ruleLines: seq<string>, i: nat, rs: seq<(string, char)>)
    requires i < |ruleLines| && ParseRules(ruleLines[..i]) == Ok(rs)
    ensures ParseRules(ruleLines[..i + 1]) ==
              match ParseRule(ruleLines[i])
              case Err(e) => Err(e)
              case Ok(rule) => Ok(rs + [rule])
  {
    assert ruleLines[..i + 1][..i] == ruleLines[..i];
  }

  /** Filling in one more rule. */
  lemma RuleMapSnoc(rs: seq<(string, char)>, rule: (string, char))
    ensures RuleMap(rs + [rule]) == RuleMap(rs)[rule.0 := rule.1]
  {
    assert (rs + [rule])[..|rs|] == rs;
  }

  /** `read_polymer_and_replacements(lines)`: fills the rule dictionary line by line. */
  method ReadPolymerAndReplacements(lines: seq<string>) returns (r: Result<Input>)
    ensures r == ReadInput(lines)
  {
    if |lines| == 0 {
      return Err("IndexError: list index out of range");
    }
    var ruleLines := if |lines| < 2 then [] else lines[2..];
    var rules: Rules := map[];
    ghost var rs: seq<(string, char)> := [];
    for i := 0 to |ruleLines|
      invariant ParseRules(ruleLines[..i]) == Ok(rs)
      invariant rules == RuleMap(rs)
    {
      var rule := ParseRule(ruleLines[i]);
      ParseRulesStep(ruleLines, i, rs);
      if rule.Err? {
        ParseRulesErrSticks(ruleLines, i + 1);
        return Err(rule.msg);
      }
      RuleMapSnoc(rs, rule.value);
      rules := rules[rule.value.0 := rule.value.1];
      rs := rs + [rule.value];
    }
    assert ruleLines[..|ruleLines|] == ruleLines;
    return Ok(Input(lines[0], rules));
  }

  lemma {:induction false} ParseRulesErrSticks(ruleLines: seq<string>, i: nat)
    requires i <= |ruleLines| && ParseRules(ruleLines[..i]).Err?
    ensures ParseRules(ruleLines) == ParseRules(ruleLines[..i])
    decreases |ruleLines| - i
  {
    if i < |ruleLines| {
      assert ruleLines[..i + 1][..i] == ruleLines[..i];
      ParseRulesErrSticks(ruleLines, i + 1);
    } else {
      assert ruleLines[..i] == ruleLines;
    }
  }

  // ---------------------------------------------------------------------------
  // do_insertion
  // ---------------------------------------------------------------------------

  /** Every adjacent pair of the polymer has a rule. */
  predicate HasRules(p: seq<char>, rules: Rules)
  {
    forall i :: 0 <= i < |p| - 1 ==> [p[i], p[i + 1]] in rules
  }

  /** The polymer after one growth step. */
  function Inserted(p: seq<char>, rules: Rules): (q: seq<char>)
    requires |p| > 0 && HasRules(p, rules)
    ensures |q| == 2 * |p| - 1 && q[|q| - 1] == p[|p| - 1]
  {
    if |p| == 1 then p
    else
      var n := |p|;
      Inserted(p[..n - 1], rules) + [rules[[p[n - 2], p[n - 1]]], p[n - 1]]
  }

  /** Originals sit at the even indices in order, the inserted elements at the odd ones. */
  lemma {:induction false} InsertedIndices(p: seq<char>, rules: Rules)
    requires |p| > 0 && HasRules(p, rules)
    ensures forall i :: 0 <= i < |p| ==> Inserted(p, rules)[2 * i] == p[i]
    ensures forall i :: 0 <= i < |p| - 1 ==> Inserted(p, rules)[2 * i + 1] == rules[[p[i], p[i + 1]]]
    ensures Inserted(p, rules)[0] == p[0]
    decreases |p|
  {
    if |p| > 1 {
      var n := |p|;
      var p' := p[..n - 1];
      InsertedIndices(p', rules);
      var q, q' := Inserted(p, rules), Inserted(p', rules);
      assert q == q' + [rules[[p[n - 2], p[n - 1]]], p[n - 1]];
      forall i | 0 <= i < |p|
        ensures q[2 * i] == p[i]
      {
        if i < n - 1 {
          assert q[2 * i] == q'[2 * i] == p'[i];
        }
      }
      forall i | 0 <= i < |p| - 1
        ensures q[2 * i + 1] == rules[[p[i], p[i + 1]]]
      {
        if i < n - 2 {
          assert q[2 * i + 1] == q'[2 * i + 1];
        }
      }
    }
  }

  /** `do_insertion(polymer, replacements)`, or the exception it raises. */
  function InsertionOf(p: seq<char>, rules: Rules): Result<seq<char>>
  {
    if |p| == 0 then Err("IndexError: list index out of range")
    else if !HasRules(p, rules) then Err("KeyError")
    else Ok(Inserted(p, rules))
  }

  /** One round of `do_insertion`'s loop: one more pair of the polymer is covered. */
  lemma InsertedStep(p: seq<char>, i: nat, rules: Rules, q: seq<char>)
    requires i + 1 < |p| && HasRules(p[..i + 1], rules) && [p[i], p[i + 1]] in rules
    requires q + [p[i]] == Inserted(p[..i + 1], rules)
    ensures HasRules(p[..i + 2], rules)
    ensures q + [p[i], rules[[p[i], p[i + 1]]]] + [p[i + 1]] == Inserted(p[..i + 2], rules)
  {
    var p' := p[..i + 2];
    HasRulesExtend(p, i, rules);
    assert p'[..i + 1] == p[..i + 1];
    var x := rules[[p[i], p[i + 1]]];
    assert Inserted(p', rules) == Inserted(p[..i + 1], rules) + [x, p[i + 1]];
    Regroup3(q, p[i], x, p[i + 1]);
  }

  /** The rules cover one more pair of the polymer. */
  lemma HasRulesExtend(p: seq<char>, i: nat, rules: Rules)
    requires i + 1 < |p| && HasRules(p[..i + 1], rules) && [p[i], p[i + 1]] in rules
    ensures HasRules(p[..i + 2], rules)
  {
    var p' := p[..i + 2];
    forall j | 0 <= j < |p'| - 1
      ensures [p'[j], p'[j + 1]] in rules
    {
      if j < i {
        assert [p'[j], p'[j + 1]] == [p[..i + 1][j], p[..i + 1][j + 1]];
      }
    }
  }

  /** `do_insertion`: extends the new polymer by each left element and its insert, then appends the last. */
  method DoInsertion(p: seq<char>, rules: Rules) returns (r: Result<seq<char>>)
    ensures r == InsertionOf(p, rules)
  {
    if |p| == 0 {
      return Err("IndexError: list index out of range");
    }
    var q: seq<char> := [];
    for i := 0 to |p| - 1
      invariant HasRules(p[..i + 1], rules)
      invariant q + [p[i]] == Inserted(p[..i + 1], rules)
    {
      var key := [p[i], p[i + 1]];
      if key !in rules {
        return Err("KeyError");
      }
      InsertedStep(p, i, rules, q);
      q := q + [p[i], rules[key]];
    }
    assert p[..|p|] == p;
    return Ok(q + [p[|p| - 1]]);
  }

  // ---------------------------------------------------------------------------
  // Adjacent pairs
  // ---------------------------------------------------------------------------

  /** The adjacent pairs of a polymer, left to right (`itertools.pairwise`). */
  function PairSeq(p: seq<char>): (ps: seq<Pair>)
    ensures |ps| == if |p| == 0 then 0 else |p| - 1
  {
    if |p| < 2 then [] else PairSeq(p[..|p| - 1]) + [(p[|p| - 2], p[|p| - 1])]
  }

  /** The i-th pair is made of the i-th element and the one after it. */
  lemma {:induction false} PairSeqAt(p: seq<char>)
    ensures forall i :: 0 <= i < |PairSeq(p)| ==> PairSeq(p)[i] == (p[i], p[i + 1])
    decreases |p|
  {
    if |p| >= 2 {
      var p' := p[..|p| - 1];
      PairSeqAt(p');
      assert PairSeq(p) == PairSeq(p') + [(p[|p| - 2], p[|p| - 1])];
    }
  }

  /** The two pairs a pair turns into. */
  function Produced(pr: Pair, rules: Rules): seq<Pair>
    requires Key(pr) in rules
  {
    var x := rules[Key(pr)];
    [(pr.0, x), (x, pr.1)]
  }

  /** Replacing every pair by the two pairs it produces, in order. */
  function StepSeq(ps: seq<Pair>, rules: Rules): (qs: seq<Pair>)
    requires forall i :: 0 <= i < |ps| ==> Key(ps[i]) in rules
    ensures |qs| == 2 * |ps|
  {
    if |ps| == 0 then [] else StepSeq(ps[..|ps| - 1], rules) + Produced(ps[|ps| - 1], rules)
  }

  /** Every pair in the counter has a rule. */
  predicate AllRuled(pairs: multiset<Pair>, rules: Rules)
  {
    forall pr :: pr in pairs ==> Key(pr) in rules
  }

  /** The polymer has a rule for every pair exactly when each of its adjacent pairs has one. */
  lemma HasRulesPairs(p: seq<char>, rules: Rules)
    ensures HasRules(p, rules) <==> AllRuled(multiset(PairSeq(p)), rules)
  {
    var ps := PairSeq(p);
    PairSeqAt(p);
    if HasRules(p, rules) {
      forall pr | pr in multiset(ps)
        ensures Key(pr) in rules
      {
        var i :| 0 <= i < |ps| && ps[i] == pr;
        assert Key(pr) == [p[i], p[i + 1]];
      }
    } else {
      var i :| 0 <= i < |p| - 1 && [p[i], p[i + 1]] !in rules;
      assert ps[i] in multiset(ps);
      assert Key(ps[i]) == [p[i], p[i + 1]];
    }
  }

  /** Appending two elements appends the two pairs they close. */
  lemma PairSeqSnoc(s: seq<char>, c: char)
    requires |s| > 0
    ensures PairSeq(s + [c]) == PairSeq(s) + [(s[|s| - 1], c)]
  {
    assert (s + [c])[..|s|] == s;
  }

  /** Appending two elements appends the two pairs they close. */
  lemma PairSeqSnocTwo(s: seq<char>, x: char, c: char)
    requires |s| > 0
    ensures PairSeq(s + [x, c]) == PairSeq(s) + [(s[|s| - 1], x), (x, c)]
  {
    var t := s + [x];
    PairSeqSnoc(s, x);
    PairSeqSnoc(t, c);
    assert t[|t| - 1] == x;
    SnocTwo(s, x, c);
    SnocTwo(PairSeq(s), (s[|s| - 1], x), (x, c));
  }

  /** The pairs of the grown polymer are the pairs each old pair produces, in order. */
  lemma {:induction false} PairsOfInserted(p: seq<char>, rules: Rules)
    requires |p| > 0 && HasRules(p, rules)
    ensures forall i :: 0 <= i < |PairSeq(p)| ==> Key(PairSeq(p)[i]) in rules
    ensures PairSeq(Inserted(p, rules)) == StepSeq(PairSeq(p), rules)
    decreases |p|
  {
    var ps := PairSeq(p);
    PairSeqAt(p);
    forall i | 0 <= i < |ps|
      ensures Key(ps[i]) in rules
    {
      assert Key(ps[i]) == [p[i], p[i + 1]];
    }
    if |p| > 1 {
      var n := |p|;
      var p' := p[..n - 1];
      assert HasRules(p', rules) by {
        assert forall i :: 0 <= i < |p'| ==> p'[i] == p[i];
      }
      PairsOfInserted(p', rules);
      var q' := Inserted(p', rules);
      var x := rules[[p[n - 2], p[n - 1]]];
      assert Inserted(p, rules) == q' + [x, p[n - 1]];
      PairSeqSnocTwo(q', x, p[n - 1]);
      assert ps == PairSeq(p') + [(p[n - 2], p[n - 1])];
      assert ps[..|ps| - 1] == PairSeq(p');
      assert Produced(ps[|ps| - 1], rules) == [(p[n - 2], x), (x, p[n - 1])];
    }
  }

  // ---------------------------------------------------------------------------
  // Counters as multisets, and folds over them
  // ---------------------------------------------------------------------------

  /** The union of `f(x)` over every element x of m, counted with multiplicity. */
  ghost function FlatMapBag<A, B>(m: multiset<A>, f: A -> multiset<B>): multiset<B>
    decreases |m|
  {
    if m == multiset{} then multiset{}
    else
      var x :| x in m;
      f(x) + FlatMapBag(m - multiset{x}, f)
  }

  /** Taking out two different elements in either order. */
  lemma RemoveSwap<A>(m: multiset<A>, x: A, y: A)
    requires x in m && y in m && x != y
    ensures y in m - multiset{x} && x in m - multiset{y}
    ensures (m - multiset{x}) - multiset{y} == (m - multiset{y}) - multiset{x}
  {
  }

  /** The fold does not depend on which element it picks first. */
  lemma {:induction false} FlatMapBagAny<A, B>(m: multiset<A>, f: A -> multiset<B>, y: A)
    requires y in m
    ensures FlatMapBag(m, f) == f(y) + FlatMapBag(m - multiset{y}, f)
    decreases |m|
  {
    var x :| x in m && FlatMapBag(m, f) == f(x) + FlatMapBag(m - multiset{x}, f);
    if x != y {
      var mx, my := m - multiset{x}, m - multiset{y};
      RemoveSwap(m, x, y);
      FlatMapBagAny(mx, f, y);
      FlatMapBagAny(my, f, x);
      var rest := mx - multiset{y};
      calc {
        FlatMapBag(m, f);
        f(x) + FlatMapBag(mx, f);
        f(x) + (f(y) + FlatMapBag(rest, f));
        f(y) + (f(x) + FlatMapBag(rest, f));
        f(y) + FlatMapBag(my, f);
      }
    }
  }

  lemma FlatMapBagAdd<A, B>(m: multiset<A>, f: A -> multiset<B>, y: A)
    ensures FlatMapBag(m + multiset{y}, f) == FlatMapBag(m, f) + f(y)
  {
    FlatMapBagAny(m + multiset{y}, f, y);
    assert m + multiset{y} - multiset{y} == m;
  }

  /** `n` copies of a bag. */
  function Times<B>(b: multiset<B>, n: nat): multiset<B>
  {
    if n == 0 then multiset{} else b + Times(b, n - 1)
  }

  /** Folding over all copies of y at once. */
  lemma {:induction false} FlatMapBagAll<A, B>(m: multiset<A>, f: A -> multiset<B>, y: A)
    ensures FlatMapBag(m, f) == Times(f(y), m[y]) + FlatMapBag(m[y := 0], f)
    decreases m[y]
  {
    if m[y] == 0 {
      assert m[y := 0] == m;
    } else {
      var m' := m - multiset{y};
      FlatMapBagAny(m, f, y);
      assert m'[y] == m[y] - 1;
      assert m'[y := 0] == m[y := 0];
      FlatMapBagAll(m', f, y);
      var rest, fy := FlatMapBag(m[y := 0], f), f(y);
      calc {
        FlatMapBag(m, f);
        fy + FlatMapBag(m', f);
        fy + (Times(fy, m[y] - 1) + rest);
        (fy + Times(fy, m[y] - 1)) + rest;
        Times(fy, m[y]) + rest;
      }
    }
  }

  /** The pairs a pair produces, or nothing when it has no rule. */
  function ProducedBag(rules: Rules): Pair -> multiset<Pair>
  {
    pr => if Key(pr) in rules then multiset(Produced(pr, rules)) else multiset{}
  }

  /** The left element of a pair. */
  function LeftOf(pr: Pair): multiset<char>
  {
    multiset{pr.0}
  }

  /** Growing the pair counter of a pair sequence is counting the pairs of its growth. */
  lemma {:induction false} StepSeqBag(ps: seq<Pair>, rules: Rules)
    requires forall i :: 0 <= i < |ps| ==> Key(ps[i]) in rules
    ensures multiset(StepSeq(ps, rules)) == FlatMapBag(multiset(ps), ProducedBag(rules))
    decreases |ps|
  {
    if |ps| > 0 {
      var init, last := ps[..|ps| - 1], ps[|ps| - 1];
      assert ps == init + [last];
      StepSeqBag(init, rules);
      FlatMapBagAdd(multiset(init), ProducedBag(rules), last);
    }
  }

  /** Every element is the left element of the pair it starts, except the last one. */
  lemma {:induction false} LeftElements(p: seq<char>)
    requires |p| > 0
    ensures FlatMapBag(multiset(PairSeq(p)), LeftOf) + multiset{p[|p| - 1]} == multiset(p)
    decreases |p|
  {
    if |p| > 1 {
      var p' := p[..|p| - 1];
      LeftElements(p');
      LeftElementsSnoc(p', p[|p| - 1]);
      SnocLast(p);
    }
  }

  /** The step of `LeftElements`: one more element adds one more pair. */
  lemma LeftElementsSnoc(s: seq<char>, c: char)
    requires |s| > 0
    requires FlatMapBag(multiset(PairSeq(s)), LeftOf) + multiset{s[|s| - 1]} == multiset(s)
    ensures FlatMapBag(multiset(PairSeq(s + [c])), LeftOf) + multiset{c} == multiset(s + [c])
  {
    var pr := (s[|s| - 1], c);
    PairSeqSnoc(s, c);
    assert multiset(PairSeq(s + [c])) == multiset(PairSeq(s)) + multiset{pr};
    FlatMapBagAdd(multiset(PairSeq(s)), LeftOf, pr);
    assert multiset(s + [c]) == multiset(s) + multiset{c};
  }

  // ---------------------------------------------------------------------------
  // The pair-count step of part_b and get_counts_from_pairs
  // ---------------------------------------------------------------------------

  /**
   * One iteration of the `part_b` loop: every pair's count goes to the two pairs it
   * produces; a pair without a rule raises a `KeyError`.
   */
  method GrowPairs(pairs: multiset<Pair>, rules: Rules) returns (r: Result<multiset<Pair>>)
    ensures r.Ok? <==> AllRuled(pairs, rules)
    ensures r.Ok? ==> r.value == FlatMapBag(pairs, ProducedBag(rules))
  {
    var newPairs: multiset<Pair> := multiset{};
    var remaining := pairs;
    ghost var seen: set<Pair> := {};
    while remaining != multiset{}
      invariant newPairs + FlatMapBag(remaining, ProducedBag(rules)) == FlatMapBag(pairs, ProducedBag(rules))
      invariant remaining <= pairs
      invariant forall pr :: pr in seen ==> Key(pr) in rules
      invariant forall pr :: pr in pairs ==> pr in remaining || pr in seen
      decreases |remaining|
    {
      var pr :| pr in remaining;
      var count := remaining[pr];
      var key := [pr.0, pr.1];
      if key !in rules {
        return Err("KeyError");
      }
      var x := rules[key];
      ProducedStep(newPairs, remaining, FlatMapBag(pairs, ProducedBag(rules)), pr, x, count, rules);
      newPairs := AddTo(newPairs, (pr.0, x), count);
      newPairs := AddTo(newPairs, (x, pr.1), count);
      DropSub(remaining, pairs, pr);
      remaining := remaining[pr := 0];
      seen := seen + {pr};
    }
    return Ok(newPairs);
  }

  /** Dropping every copy of an element keeps a sub-multiset one. */
  lemma DropSub<B>(m: multiset<B>, n: multiset<B>, a: B)
    requires m <= n
    ensures m[a := 0] <= n && |m[a := 0]| < |m| + (if a in m then 0 else 1)
  {
  }

  /** n copies of `{a, b}` hold a and b n times each (2n times when they coincide). */
  lemma {:induction false} TimesPair<B>(a: B, b: B, n: nat)
    ensures Times(multiset{a, b}, n) == multiset{}[a := n] + multiset{}[b := n]
  {
    if n > 0 {
      TimesPair(a, b, n - 1);
    }
  }

  /** One iteration of the `part_b` loop body keeps the invariant of `GrowPairs`. */
  lemma ProducedStep(done: multiset<Pair>, remaining: multiset<Pair>, total: multiset<Pair>,
                     pr: Pair, x: char, n: nat, rules: Rules)
    requires pr in remaining && Key(pr) in rules && x == rules[Key(pr)] && n == remaining[pr]
    requires done + FlatMapBag(remaining, ProducedBag(rules)) == total
    ensures AddTo(AddTo(done, (pr.0, x), n), (x, pr.1), n) + FlatMapBag(remaining[pr := 0], ProducedBag(rules)) == total
  {
    var rest := FlatMapBag(remaining[pr := 0], ProducedBag(rules));
    FlatMapBagAll(remaining, ProducedBag(rules), pr);
    assert ProducedBag(rules)(pr) == multiset{(pr.0, x), (x, pr.1)};
    TimesPair((pr.0, x), (x, pr.1), n);
    var part := multiset{}[(pr.0, x) := n] + multiset{}[(x, pr.1) := n];
    assert FlatMapBag(remaining, ProducedBag(rules)) == part + rest;
    Regroup(done, part, rest, FlatMapBag(remaining, ProducedBag(rules)), total);
    var d := AddTo(done, (pr.0, x), n);
    AddToUnion(done, (pr.0, x), n);
    AddToUnion(d, (x, pr.1), n);
  }

  /** One iteration of the `get_counts_from_pairs` loop body keeps the invariant of `GetCountsFromPairs`. */
  lemma LeftStep(done: multiset<char>, remaining: multiset<Pair>, total: multiset<char>, pr: Pair, n: nat)
    requires pr in remaining && n == remaining[pr]
    requires done + FlatMapBag(remaining, LeftOf) == total
    ensures AddTo(done, pr.0, n) + FlatMapBag(remaining[pr := 0], LeftOf) == total
  {
    FlatMapBagAll(remaining, LeftOf, pr);
    TimesOne(pr.0, n);
    Regroup(done, Times(LeftOf(pr), n), FlatMapBag(remaining[pr := 0], LeftOf), FlatMapBag(remaining, LeftOf), total);
    AddToUnion(done, pr.0, n);
  }

  /** Moving a part of what is left over to what is done keeps the total. */
  lemma Regroup<B>(done: multiset<B>, part: multiset<B>, rest: multiset<B>, left: multiset<B>, total: multiset<B>)
    requires done + left == total && left == part + rest
    ensures (done + part) + rest == total
  {
  }

  /** `counter[a] += n`. */
  function AddTo<B>(m: multiset<B>, a: B, n: nat): multiset<B>
  {
    m[a := m[a] + n]
  }

  /** Raising one count by n is adding n copies of that element. */
  lemma AddToUnion<B>(m: multiset<B>, a: B, n: nat)
    ensures AddTo(m, a, n) == m + multiset{}[a := n]
  {
  }

  /**
   * `get_counts_from_pairs(pairs, polymer)`: each pair's count goes to its left element,
   * and the last element of `polymer` counts once more (raising on an empty polymer).
   */
  method GetCountsFromPairs(pairs: multiset<Pair>, polymer: seq<char>) returns (r: Result<multiset<char>>)
    ensures r.Ok? <==> |polymer| > 0
    ensures r.Ok? ==> r.value == FlatMapBag(pairs, LeftOf) + multiset{polymer[|polymer| - 1]}
  {
    var counts: multiset<char> := multiset{};
    var remaining := pairs;
    while remaining != multiset{}
      invariant counts + FlatMapBag(remaining, LeftOf) == FlatMapBag(pairs, LeftOf)
      decreases |remaining|
    {
      var pr :| pr in remaining;
      var count := remaining[pr];
      LeftStep(counts, remaining, FlatMapBag(pairs, LeftOf), pr, count);
      counts := AddTo(counts, pr.0, count);
      remaining := remaining[pr := 0];
    }
    if |polymer| == 0 {
      return Err("IndexError: list index out of range");
    }
    var last := polymer[|polymer| - 1];
    AddToUnion(counts, last, 1);
    assert multiset{}[last := 1] == multiset{last};
    counts := AddTo(counts, last, 1);
    return Ok(counts);
  }

  lemma {:induction false} TimesOne<B>(a: B, n: nat)
    ensures Times(multiset{a}, n) == multiset{}[a := n]
  {
    if n > 0 {
      TimesOne(a, n - 1);
    }
  }

  // ---------------------------------------------------------------------------
  // Growing for several steps, and the two parts
  // ---------------------------------------------------------------------------

  /** The polymer after `steps` insertions, or the exception the first failing one raises. */
  function Grow(p: seq<char>, rules: Rules, steps: nat): Result<seq<char>>
  {
    if steps == 0 then Ok(p)
    else
      match Grow(p, rules, steps - 1)
      case Err(e) => Err(e)
      case Ok(q) => InsertionOf(q, rules)
  }

  lemma {:induction false} GrowErrSticks(p: seq<char>, rules: Rules, i: nat, steps: nat)
    requires i <= steps && Grow(p, rules, i).Err?
    ensures Grow(p, rules, steps).Err?
    decreases steps - i
  {
    if i < steps {
      GrowErrSticks(p, rules, i + 1, steps);
    }
  }

  /** A grown polymer keeps its last element and length 2^steps·(n−1)+1. */
  lemma {:induction false} GrowKeepsLast(p: seq<char>, rules: Rules, steps: nat)
    requires Grow(p, rules, steps).Ok? && |p| > 0
    ensures var q := Grow(p, rules, steps).value;
            |q| > 0 && q[|q| - 1] == p[|p| - 1] && |q| - 1 == Pow2(steps) * (|p| - 1)
  {
    if steps > 0 {
      GrowKeepsLast(p, rules, steps - 1);
      var q' := Grow(p, rules, steps - 1).value;
      var q := Grow(p, rules, steps).value;
      assert q == Inserted(q', rules);
      var k, m := Pow2(steps - 1), |p| - 1;
      assert |q| - 1 == 2 * (|q'| - 1);
      DoubleProduct(k, m);
    }
  }

  lemma DoubleProduct(k: int, m: int)
    ensures 2 * (k * m) == (2 * k) * m
  {
  }

  /** `max(counts) - min(counts)` over the element counts, when there is at least one element. */
  ghost predicate IsSpread(counts: multiset<char>, v: int)
  {
    exists a, b :: a in counts && b in counts && v + counts[b] == counts[a]
      && forall c :: c in counts ==> counts[b] <= counts[c] <= counts[a]
  }

  lemma SpreadUnique(counts: multiset<char>, v: int, w: int)
    requires IsSpread(counts, v) && IsSpread(counts, w)
    ensures v == w
  {
    var a, b :| a in counts && b in counts && v + counts[b] == counts[a]
      && forall c :: c in counts ==> counts[b] <= counts[c] <= counts[a];
    var a', b' :| a' in counts && b' in counts && w + counts[b'] == counts[a']
      && forall c :: c in counts ==> counts[b'] <= counts[c] <= counts[a'];
    assert counts[a] == counts[a'] && counts[b] == counts[b'];
  }

  /**
   * The largest count minus the smallest: `most_common()[0][1] - most_common()[-1][1]` in
   * `part_a`, `max(counts.values()) - min(counts.values())` in `part_b`; both raise on no counts.
   */
  method Spread(counts: multiset<char>) returns (r: Result<int>)
    ensures r.Ok? <==> counts != multiset{}
    ensures r.Ok? ==> IsSpread(counts, r.value)
  {
    if counts == multiset{} {
      return Err("IndexError: list index out of range");
    }
    var a :| a in counts;
    var b := a;
    var keys := set c | c in counts;
    var seen := {};
    while keys != {}
      invariant a in counts && b in counts
      invariant forall c :: c in counts ==> c in keys || c in seen
      invariant forall c :: c in seen ==> counts[b] <= counts[c] <= counts[a]
      decreases keys
    {
      var c :| c in keys;
      if counts[c] > counts[a] {
        a := c;
      }
      if counts[c] < counts[b] {
        b := c;
      }
      keys := keys - {c};
      seen := seen + {c};
    }
    return Ok(counts[a] - counts[b]);
  }

  /** The difference between the most and least common element after `steps` insertions. */
  ghost predicate GrownSpread(lines: seq<string>, steps: nat, r: Result<int>)
  {
    match ReadInput(lines)
    case Err(_) => r.Err?
    case Ok(input) =>
      match Grow(input.polymer, input.rules, steps)
      case Err(_) => r.Err?
      case Ok(q) => if |q| == 0 then r.Err? else r.Ok? && IsSpread(multiset(q), r.value)
  }

  /** The loop of `part_a`: `steps` rounds of `do_insertion` on the polymer itself. */
  method GrowPolymer(polymer: seq<char>, rules: Rules, steps: nat) returns (r: Result<seq<char>>)
    ensures r.Ok? <==> Grow(polymer, rules, steps).Ok?
    ensures r.Ok? ==> r == Grow(polymer, rules, steps)
  {
    var q := polymer;
    for i := 0 to steps
      invariant Grow(polymer, rules, i) == Ok(q)
    {
      var next := DoInsertion(q, rules);
      if next.Err? {
        GrowErrSticks(polymer, rules, i + 1, steps);
        return Err(next.msg);
      }
      q := next.value;
    }
    r := Ok(q);
  }

  /** `part_a(lines)`: grows the polymer itself 10 times. */
  method PartA(lines: seq<string>) returns (r: Result<int>)
    ensures GrownSpread(lines, 10, r)
  {
    var input := ReadPolymerAndReplacements(lines);
    if input.Err? {
      return Err(input.msg);
    }
    var grown := GrowPolymer(input.value.polymer, input.value.rules, 10);
    if grown.Err? {
      return Err(grown.msg);
    }
    r := Spread(multiset(grown.value));
  }

  /** One round of `part_b`'s loop, on the polymer the pair counter stands for. */
  lemma PairCountsStep(polymer: seq<char>, rules: Rules, i: nat, grown: seq<char>)
    requires |polymer| > 0 && Grow(polymer, rules, i) == Ok(grown)
    ensures Grow(polymer, rules, i + 1).Ok? <==> AllRuled(multiset(PairSeq(grown)), rules)
    ensures Grow(polymer, rules, i + 1).Ok? ==>
              Grow(polymer, rules, i + 1) == Ok(Inserted(grown, rules)) &&
              multiset(PairSeq(Inserted(grown, rules))) == FlatMapBag(multiset(PairSeq(grown)), ProducedBag(rules))
  {
    GrowKeepsLast(polymer, rules, i);
    HasRulesPairs(grown, rules);
    if HasRules(grown, rules) {
      PairsOfInserted(grown, rules);
      StepSeqBag(PairSeq(grown), rules);
    }
  }

  /**
   * The loop of `part_b`: `steps` rounds of growing the pair counter, which stays the
   * multiset of adjacent pairs of the polymer grown that many times.
   */
  method GrowPairCounts(polymer: seq<char>, rules: Rules, steps: nat) returns (r: Result<multiset<Pair>>)
    ensures |polymer| == 0 ==> r == Ok(multiset{})
    ensures |polymer| > 0 ==> (r.Ok? <==> Grow(polymer, rules, steps).Ok?)
    ensures r.Ok? && |polymer| > 0 ==> r.value == multiset(PairSeq(Grow(polymer, rules, steps).value))
  {
    var pairs := multiset(PairSeq(polymer));
    ghost var grown := polymer;
    for i := 0 to steps
      invariant |polymer| > 0 ==> Grow(polymer, rules, i) == Ok(grown)
      invariant pairs == multiset(PairSeq(grown))
      invariant |polymer| == 0 ==> grown == []
    {
      var next := GrowPairs(pairs, rules);
      if |polymer| > 0 {
        PairCountsStep(polymer, rules, i, grown);
      }
      if next.Err? {
        GrowErrSticks(polymer, rules, i + 1, steps);
        return Err(next.msg);
      }
      if |polymer| > 0 {
        grown := Inserted(grown, rules);
      }
      pairs := next.value;
    }
    r := Ok(pairs);
  }

  /**
   * `part_b(lines)`: grows only the pair counter, 40 times, and reads the element counts off
   * it; the answer is the one growing the polymer itself would give.
   */
  method PartB(lines: seq<string>) returns (r: Result<int>)
    ensures GrownSpread(lines, 40, r)
  {
    var input := ReadPolymerAndReplacements(lines);
    if input.Err? {
      return Err(input.msg);
    }
    var polymer, rules := input.value.polymer, input.value.rules;
    var pairs := GrowPairCounts(polymer, rules, 40);
    if pairs.Err? {
      return Err(pairs.msg);
    }
    var counts := GetCountsFromPairs(pairs.value, polymer);
    if counts.Err? {
      GrowErrSticks(polymer, rules, 1, 40);
      return Err(counts.msg);
    }
    GrowKeepsLast(polymer, rules, 40);
    LeftElements(Grow(polymer, rules, 40).value);
    r := Spread(counts.value);
  }
}
