/**
 * Day 18, snailfish numbers: a snailfish number is either a regular number or a pair of
 * snailfish numbers, written `[left,right]`. Adding two numbers pairs them and reduces
 * the pair: while some pair is nested inside four pairs it explodes, else while some
 * regular number is 10 or more it splits. The magnitude weighs left parts by 3 and right
 * parts by 2.
 *
 * Explode and split are stated through the sequence of regular numbers read left to right
 * (`Leaves`): an explosion adds the pair's two numbers to its neighbours in that sequence
 * and puts a 0 in its place, a split replaces one number by its two halves.
 */
module Day18 {
  import opened Util

  /** A snailfish number: exactly one of a value or two children, by construction. */
  datatype Node = Regular(value: int) | Pair(left: Node, right: Node)

  /** The regular numbers of a tree in left-to-right order. */
  function Leaves(t: Node): (ls: seq<int>)
    ensures |ls| >= 1
  {
    match t
    case Regular(v) => [v]
    case Pair(l, r) => Leaves(l) + Leaves(r)
  }

  /** Number of nodes, regular and pair. */
  function Size(t: Node): nat
  {
    match t
    case Regular(_) => 1
    case Pair(l, r) => Size(l) + Size(r) + 1
  }

  // ---------------------------------------------------------------------------
  // __repr__ and the constructor's parse
  // ---------------------------------------------------------------------------

  /** Python's `str(v)` for an integer. */
  function ShowInt(v: int): (s: string)
    ensures s != [] && s[0] != '[' && s[0] != '+'
    ensures forall k :: 0 <= k < |s| ==> s[k] != '[' && s[k] != ']' && s[k] != ','
  {
    if v < 0 then "-" + ShowNat(-v) else ShowNat(v)
  }

  lemma ParseShowInt(v: int)
    ensures ParseInt(ShowInt(v)) == Some(v)
  {
    if v < 0 {
      ParseShowNat(-v);
      ParseNegative(ShowNat(-v), -v);
    } else {
      ParseShowNat(v);
    }
  }

  /** `__repr__`: a regular number prints as its value, a pair as `[left,right]`. */
  function Show(t: Node): (s: string)
    ensures s != []
    ensures t.Pair? <==> s[0] == '['
    ensures t.Pair? ==> s[|s| - 1] == ']'
  {
    match t
    case Regular(v) => ShowInt(v)
    case Pair(l, r) => "[" + Show(l) + "," + Show(r) + "]"
  }

  /**
   * The scan of `split_pair` from index i with `opens` unmatched '[' seen so far: the
   * first ',' met while no bracket is open, if any.
   */
  function FindComma(s: string, i: nat, opens: int): (r: Option<nat>)
    ensures r.Some? ==> i <= r.value < |s| && s[r.value] == ','
    decreases |s| - i
  {
    if i >= |s| then None
    else if s[i] == ',' && opens == 0 then Some(i)
    else FindComma(s, i + 1, if s[i] == '[' then opens + 1 else if s[i] == ']' then opens - 1 else opens)
  }

  /**
   * `split_pair(s)`: the text of the left and the right part of `[left,right]`, split at
   * the first comma outside any inner bracket. It asserts the outer brackets and raises
   * when no such comma exists.
   */
  function SplitPairSpec(s: string): (r: Result<(string, string)>)
    ensures r.Ok? <==> |s| > 0 && s[0] == '[' && s[|s| - 1] == ']' && FindComma(s, 1, 0).Some?
    ensures r.Ok? ==> s == "[" + r.value.0 + "," + r.value.1 + "]"
    ensures r.Ok? ==> FindComma(s, 1, 0) == Some(|r.value.0| + 1)
  {
    if |s| == 0 then Err("IndexError: string index out of range")
    else if s[0] != '[' || s[|s| - 1] != ']' then Err("AssertionError")
    else
      match FindComma(s, 1, 0)
      case None => Err("Exception: Did not find split")
      case Some(i) =>
        assert s == "[" + s[1..i] + "," + s[i + 1..|s| - 1] + "]";
        Ok((s[1..i], s[i + 1..|s| - 1]))
  }

  /** `split_pair` as the counting scan it is. */
  method SplitPair(s: string) returns (r: Result<(string, string)>)
    ensures r == SplitPairSpec(s)
    ensures r.Ok? ==> s == "[" + r.value.0 + "," + r.value.1 + "]"
  {
    if |s| == 0 {
      return Err("IndexError: string index out of range");
    }
    if s[0] != '[' || s[|s| - 1] != ']' {
      return Err("AssertionError");
    }
    var numOpens := 0;
    for i := 1 to |s|
      invariant FindComma(s, 1, 0) == FindComma(s, i, numOpens)
    {
      var c := s[i];
      if c == ',' && numOpens == 0 {
        return Ok((s[1..i], s[i + 1..|s| - 1]));
      } else if c == '[' {
        numOpens := numOpens + 1;
      } else if c == ']' {
        numOpens := numOpens - 1;
      }
    }
    return Err("Exception: Did not find split");
  }

  /** `Node(s)`: a string starting with '[' is split into two parts parsed recursively, anything else goes to `int`. */
  function Parse(s: string): (r: Result<Node>)
    decreases |s|
  {
    if |s| > 0 && s[0] == '[' then
      match SplitPairSpec(s)
      case Err(e) => Err(e)
      case Ok(parts) =>
        match Parse(parts.0)
        case Err(e) => Err(e)
        case Ok(l) =>
          match Parse(parts.1)
          case Err(e) => Err(e)
          case Ok(r) => Ok(Pair(l, r))
    else
      match ParseInt(s)
      case None => Err("ValueError: invalid literal for int()")
      case Some(v) => Ok(Regular(v))
  }

  /** Characters that are neither brackets nor commas leave the scan where it was. */
  lemma {:induction false} ScanPlain(s: string, i: nat, j: nat, opens: int)
    requires i <= j <= |s|
    requires forall k :: i <= k < j ==> s[k] != '[' && s[k] != ']' && s[k] != ','
    ensures FindComma(s, i, opens) == FindComma(s, j, opens)
    decreases j - i
  {
    if i < j {
      ScanPlain(s, i + 1, j, opens);
    }
  }

  /** Where the parts of a bracketed text `[sl,sr]` sit inside a string that contains it at index i. */
  lemma BracketedAt(s: string, i: nat, st: string, sl: string, sr: string)
    requires st == "[" + sl + "," + sr + "]"
    requires i + |st| <= |s| && s[i..i + |st|] == st
    ensures var nl, nr := |sl|, |sr|;
      && |st| == nl + nr + 3
      && s[i] == '[' && s[i + 1..i + 1 + nl] == sl && s[i + 1 + nl] == ','
      && s[i + 2 + nl..i + 2 + nl + nr] == sr && s[i + 2 + nl + nr] == ']'
  {
    var nl, nr := |sl|, |sr|;
    assert forall k :: 0 <= k < |st| ==> s[i + k] == st[k] by {
      forall k | 0 <= k < |st| ensures s[i + k] == st[k] {
        assert s[i..i + |st|][k] == s[i + k];
      }
    }
    assert s[i] == st[0] == '[';
    assert s[i + 1 + nl] == st[1 + nl] == ',';
    assert s[i + 2 + nl + nr] == st[2 + nl + nr] == ']';
    assert s[i + 1..i + 1 + nl] == sl by {
      forall k | 0 <= k < nl ensures s[i + 1..i + 1 + nl][k] == sl[k] {
        assert s[i + 1 + k] == st[1 + k];
      }
    }
    assert s[i + 2 + nl..i + 2 + nl + nr] == sr by {
      forall k | 0 <= k < nr ensures s[i + 2 + nl..i + 2 + nl + nr][k] == sr[k] {
        assert s[i + 2 + nl + k] == st[2 + nl + k];
      }
    }
  }

  /** Where the parts of a printed pair sit inside a string that contains it at index i. */
  lemma PairText(l: Node, r: Node, s: string, i: nat)
    requires i + |Show(Pair(l, r))| <= |s| && s[i..i + |Show(Pair(l, r))|] == Show(Pair(l, r))
    ensures var nl, nr := |Show(l)|, |Show(r)|;
      && |Show(Pair(l, r))| == nl + nr + 3
      && s[i] == '[' && s[i + 1..i + 1 + nl] == Show(l) && s[i + 1 + nl] == ','
      && s[i + 2 + nl..i + 2 + nl + nr] == Show(r) && s[i + 2 + nl + nr] == ']'
  {
    BracketedAt(s, i, Show(Pair(l, r)), Show(l), Show(r));
  }

  /** The scan passes over a printed number as a whole and comes out with the same bracket count. */
  lemma {:induction false} ScanThrough(t: Node, s: string, i: nat, opens: int, n: nat)
    requires n == |Show(t)|
    requires opens >= 0 && i + n <= |s| && s[i..i + n] == Show(t)
    ensures FindComma(s, i, opens) == FindComma(s, i + n, opens)
    decreases t
  {
    match t
    case Regular(v) =>
      assert Show(t) == ShowInt(v);
      ScanPlainText(Show(t), s, i, opens);
    case Pair(l, r) =>
      PairText(l, r, s, i);
      var nl, nr := |Show(l)|, |Show(r)|;
      ScanThrough(l, s, i + 1, opens + 1, nl);
      ScanThrough(r, s, i + 2 + nl, opens + 1, nr);
      ScanBrackets(s, i, nl, nr, opens, i + n);
  }

  /** The scan passes over a text without brackets and commas and comes out with the same count. */
  lemma ScanPlainText(st: string, s: string, i: nat, opens: int)
    requires i + |st| <= |s| && s[i..i + |st|] == st
    requires forall k :: 0 <= k < |st| ==> st[k] != '[' && st[k] != ']' && st[k] != ','
    ensures FindComma(s, i, opens) == FindComma(s, i + |st|, opens)
  {
    assert forall k :: i <= k < i + |st| ==> s[k] == st[k - i];
    ScanPlain(s, i, i + |st|, opens);
  }

  /** The brackets and the comma of a pair: the scan enters one level deeper and leaves at the same level. */
  lemma ScanBrackets(s: string, i: nat, nl: nat, nr: nat, opens: int, end: nat)
    requires opens >= 0 && end == i + 3 + nl + nr <= |s|
    requires s[i] == '[' && s[i + 1 + nl] == ',' && s[i + 2 + nl + nr] == ']'
    requires FindComma(s, i + 1, opens + 1) == FindComma(s, i + 1 + nl, opens + 1)
    requires FindComma(s, i + 2 + nl, opens + 1) == FindComma(s, i + 2 + nl + nr, opens + 1)
    ensures FindComma(s, i, opens) == FindComma(s, end, opens)
  {
    assert FindComma(s, i, opens) == FindComma(s, i + 1, opens + 1);
    assert FindComma(s, i + 1 + nl, opens + 1) == FindComma(s, i + 2 + nl, opens + 1);
    assert FindComma(s, i + 2 + nl + nr, opens + 1) == FindComma(s, i + 3 + nl + nr, opens);
  }

  /** Parsing what `__repr__` prints gives back the same number. */
  lemma {:induction false} ParseShow(t: Node)
    ensures Parse(Show(t)) == Ok(t)
    decreases t
  {
    match t
    case Regular(v) =>
      ParseShowInt(v);
    case Pair(l, r) =>
      var s := Show(t);
      var sl, sr := Show(l), Show(r);
      assert s == "[" + sl + "," + sr + "]";
      assert s[1..1 + |sl|] == sl;
      ScanThrough(l, s, 1, 0, |sl|);
      assert s[1 + |sl|] == ',';
      assert FindComma(s, 1, 0) == Some(1 + |sl|);
      assert s[1..1 + |sl|] == sl;
      assert s[1 + |sl| + 1..|s| - 1] == sr;
      ParseShow(l);
      ParseShow(r);
  }

  // ---------------------------------------------------------------------------
  // explode
  // ---------------------------------------------------------------------------

  /** Adds a to the last element, if any. */
  function AddToLast(ls: seq<int>, a: int): seq<int>
  {
    if |ls| == 0 then [] else ls[..|ls| - 1] + [ls[|ls| - 1] + a]
  }

  /** Adds b to the first element, if any. */
  function AddToFirst(ls: seq<int>, b: int): seq<int>
  {
    if |ls| == 0 then [] else [ls[0] + b] + ls[1..]
  }

  lemma AddToLastConcat(xs: seq<int>, ys: seq<int>, a: int)
    requires ys != []
    ensures AddToLast(xs + ys, a) == xs + AddToLast(ys, a)
  {
    assert (xs + ys)[..|xs + ys| - 1] == xs + ys[..|ys| - 1];
  }

  lemma AddToFirstConcat(xs: seq<int>, ys: seq<int>, b: int)
    requires xs != []
    ensures AddToFirst(xs + ys, b) == AddToFirst(xs, b) + ys
  {
    assert (xs + ys)[1..] == xs[1..] + ys;
  }

  /**
   * The regular numbers after the pair (a, b) at positions at and at + 1 explodes: a added
   * to the number before, b to the number after, and the two replaced by one 0.
   */
  function Blown(ls: seq<int>, at: nat, a: int, b: int): seq<int>
    requires at + 2 <= |ls|
  {
    AddToLast(ls[..at], a) + [0] + AddToFirst(ls[at + 2..], b)
  }

  /** Adds a to the rightmost regular number. */
  function AddRightmost(t: Node, a: int): (r: Node)
    ensures Size(r) == Size(t) && |Leaves(r)| == |Leaves(t)|
  {
    match t
    case Regular(v) => Regular(v + a)
    case Pair(l, rt) => Pair(l, AddRightmost(rt, a))
  }

  /** Only the last regular number changes, by a. */
  lemma {:induction false} AddRightmostLeaves(t: Node, a: int)
    ensures Leaves(AddRightmost(t, a)) == AddToLast(Leaves(t), a)
    decreases t
  {
    match t
    case Regular(v) =>
    case Pair(l, rt) =>
      AddRightmostLeaves(rt, a);
      AddToLastConcat(Leaves(l), Leaves(rt), a);
  }

  /** Adds b to the leftmost regular number. */
  function AddLeftmost(t: Node, b: int): (r: Node)
    ensures Size(r) == Size(t) && |Leaves(r)| == |Leaves(t)|
  {
    match t
    case Regular(v) => Regular(v + b)
    case Pair(lt, r) => Pair(AddLeftmost(lt, b), r)
  }

  /** Only the first regular number changes, by b. */
  lemma {:induction false} AddLeftmostLeaves(t: Node, b: int)
    ensures Leaves(AddLeftmost(t, b)) == AddToFirst(Leaves(t), b)
    decreases t
  {
    match t
    case Regular(v) =>
    case Pair(lt, r) =>
      AddLeftmostLeaves(lt, b);
      AddToFirstConcat(Leaves(lt), Leaves(r), b);
  }

  /** Is there a pair below `level` (the root is level 1) deeper than level 4 whose two children are regular? */
  predicate CanExplode(t: Node, level: nat)
  {
    match t
    case Regular(_) => false
    case Pair(l, r) =>
      (level > 4 && l.Regular? && r.Regular?) || CanExplode(l, level + 1) || CanExplode(r, level + 1)
  }

  /**
   * The outcome of an explosion within a subtree: whether one happened, the new subtree,
   * the position `at` of the exploded pair's left number among the subtree's leaves, and
   * the pair's two numbers.
   */
  datatype Exploded = Exploded(changed: bool, tree: Node, at: nat, a: int, b: int)

  /**
   * `explode` on the subtree t at the given level: the first pair in left-to-right
   * depth-first order that is deeper than level 4 and holds two regular numbers becomes 0.
   * Within t its left number is added to the regular number before it and its right number
   * to the one after it; a neighbour outside t is reached by the caller.
   */
  function Explode(t: Node, level: nat): (r: Exploded)
    ensures !r.changed ==> r.tree == t
    ensures r.changed <==> CanExplode(t, level)
    ensures r.changed ==> r.at + 2 <= |Leaves(t)|
    ensures r.changed ==> Size(r.tree) + 2 == Size(t)
  {
    match t
    case Regular(_) => Exploded(false, t, 0, 0, 0)
    case Pair(l, rt) =>
      if level > 4 && l.Regular? && rt.Regular? then
        Exploded(true, Regular(0), 0, l.value, rt.value)
      else
        var el := Explode(l, level + 1);
        if el.changed then
          if el.at + 2 == |Leaves(l)| then Exploded(true, Pair(el.tree, AddLeftmost(rt, el.b)), el.at, el.a, el.b)
          else Exploded(true, Pair(el.tree, rt), el.at, el.a, el.b)
        else
          var er := Explode(rt, level + 1);
          if !er.changed then Exploded(false, t, 0, 0, 0)
          else if er.at == 0 then Exploded(true, Pair(AddRightmost(l, er.a), er.tree), |Leaves(l)| + er.at, er.a, er.b)
          else Exploded(true, Pair(l, er.tree), |Leaves(l)| + er.at, er.a, er.b)
  }

  /**
   * The regular numbers at positions i and i + 1 of t (read left to right) are the two
   * children of a pair deeper than level 4, t being at the given level.
   */
  predicate ExplodableAt(t: Node, level: nat, i: nat)
  {
    match t
    case Regular(_) => false
    case Pair(l, r) =>
      (i == 0 && level > 4 && l.Regular? && r.Regular?)
      || (i < |Leaves(l)| && ExplodableAt(l, level + 1, i))
      || (i >= |Leaves(l)| && ExplodableAt(r, level + 1, i - |Leaves(l)|))
  }

  /** A pair that could explode at some position is one `CanExplode` sees. */
  lemma {:induction false} ExplodableCan(t: Node, level: nat, i: nat)
    requires ExplodableAt(t, level, i)
    ensures CanExplode(t, level)
    decreases t
  {
    match t
    case Pair(l, r) =>
      if i == 0 && level > 4 && l.Regular? && r.Regular? {
      } else if i < |Leaves(l)| && ExplodableAt(l, level + 1, i) {
        ExplodableCan(l, level + 1, i);
      } else {
        ExplodableCan(r, level + 1, i - |Leaves(l)|);
      }
  }

  /**
   * `explode` picks the leftmost pair it can: the exploded numbers sit at a position where a
   * pair deeper than level 4 holds two regular numbers, and no such pair starts further left.
   */
  lemma {:induction false} ExplodeLeftmost(t: Node, level: nat)
    ensures var r := Explode(t, level);
      r.changed ==> ExplodableAt(t, level, r.at) && forall j :: 0 <= j < r.at ==> !ExplodableAt(t, level, j)
    decreases Size(t), 1
  {
    match t
    case Regular(_) =>
    case Pair(l, rt) =>
      if level > 4 && l.Regular? && rt.Regular? {
      } else if Explode(l, level + 1).changed {
        ExplodeLeftmostLeft(l, rt, level);
      } else {
        ExplodeLeftmostRight(l, rt, level);
      }
  }

  /** The explosion happened in the left child, at its leftmost explodable position. */
  lemma {:induction false} ExplodeLeftmostLeft(l: Node, rt: Node, level: nat)
    requires !(level > 4 && l.Regular? && rt.Regular?) && Explode(l, level + 1).changed
    ensures var t, r := Pair(l, rt), Explode(Pair(l, rt), level);
      ExplodableAt(t, level, r.at) && forall j :: 0 <= j < r.at ==> !ExplodableAt(t, level, j)
    decreases Size(l) + Size(rt) + 1, 0
  {
    var t, el := Pair(l, rt), Explode(l, level + 1);
    ExplodeLeftmost(l, level + 1);
    assert Explode(t, level).at == el.at;
    forall j | 0 <= j < el.at
      ensures !ExplodableAt(t, level, j)
    {
      assert !ExplodableAt(l, level + 1, j);
    }
  }

  /** The left child cannot explode, so the explosion is the right child's leftmost one. */
  lemma {:induction false} ExplodeLeftmostRight(l: Node, rt: Node, level: nat)
    requires !(level > 4 && l.Regular? && rt.Regular?) && !Explode(l, level + 1).changed
    ensures var t, r := Pair(l, rt), Explode(Pair(l, rt), level);
      r.changed ==> ExplodableAt(t, level, r.at) && forall j :: 0 <= j < r.at ==> !ExplodableAt(t, level, j)
    decreases Size(l) + Size(rt) + 1, 0
  {
    var t, er := Pair(l, rt), Explode(rt, level + 1);
    if er.changed {
      ExplodeLeftmost(rt, level + 1);
      var n := |Leaves(l)|;
      assert Explode(t, level).at == n + er.at;
      assert ExplodableAt(t, level, n + er.at) by {
        assert ExplodableAt(rt, level + 1, n + er.at - n);
      }
      forall j | 0 <= j < n + er.at
        ensures !ExplodableAt(t, level, j)
      {
        if j < n {
          if ExplodableAt(l, level + 1, j) {
            ExplodableCan(l, level + 1, j);
          }
        } else {
          assert !ExplodableAt(rt, level + 1, j - n);
        }
      }
    }
  }

  /**
   * What an explosion does to the regular numbers: the exploded pair's numbers a and b sit
   * at positions at and at + 1; afterwards a has been added to the number before them, b to
   * the number after them (where those exist), and the two are replaced by a single 0.
   */
  lemma {:induction false} ExplodeLeaves(t: Node, level: nat)
    requires Explode(t, level).changed
    ensures var r := Explode(t, level);
      && Leaves(t)[r.at] == r.a && Leaves(t)[r.at + 1] == r.b
      && Leaves(r.tree) == Blown(Leaves(t), r.at, r.a, r.b)
    decreases Size(t), 1
  {
    match t
    case Pair(l, rt) =>
      if level > 4 && l.Regular? && rt.Regular? {
        ExplodeLeavesHere(l.value, rt.value, level);
      } else if Explode(l, level + 1).changed {
        ExplodeLeavesLeft(l, rt, level);
      } else if Explode(rt, level + 1).at == 0 {
        ExplodeLeavesRightEdge(l, rt, level);
      } else {
        ExplodeLeavesRight(l, rt, level);
      }
  }

  /** A pair of two regular numbers deep enough explodes itself into a single 0. */
  lemma ExplodeLeavesHere(a: int, b: int, level: nat)
    requires level > 4
    ensures var t, r := Pair(Regular(a), Regular(b)), Explode(Pair(Regular(a), Regular(b)), level);
      && Leaves(t)[r.at] == r.a && Leaves(t)[r.at + 1] == r.b
      && Leaves(r.tree) == Blown(Leaves(t), r.at, r.a, r.b)
  {
    var t := Pair(Regular(a), Regular(b));
    assert Leaves(t) == [a, b];
    assert Blown([a, b], 0, a, b) == [0];
  }

  /** The explosion happened in the left child; its right number may reach the right child. */
  lemma {:induction false} ExplodeLeavesLeft(l: Node, rt: Node, level: nat)
    requires !(level > 4 && l.Regular? && rt.Regular?) && Explode(l, level + 1).changed
    ensures var t, r := Pair(l, rt), Explode(Pair(l, rt), level);
      && Leaves(t)[r.at] == r.a && Leaves(t)[r.at + 1] == r.b
      && Leaves(r.tree) == Blown(Leaves(t), r.at, r.a, r.b)
    decreases Size(l) + Size(rt) + 1, 0
  {
    var t, ll, lr := Pair(l, rt), Leaves(l), Leaves(rt);
    var el := Explode(l, level + 1);
    var r := Explode(t, level);
    var head := Leaves(el.tree);
    assert head == Blown(ll, el.at, el.a, el.b) && ll[el.at] == el.a && ll[el.at + 1] == el.b by {
      ExplodeLeaves(l, level + 1);
    }
    assert Leaves(t) == ll + lr;
    if el.at + 2 == |ll| {
      var rt' := AddLeftmost(rt, el.b);
      assert r == Exploded(true, Pair(el.tree, rt'), el.at, el.a, el.b);
      var tail := Leaves(rt');
      assert tail == AddToFirst(lr, el.b) by {
        AddLeftmostLeaves(rt, el.b);
      }
      assert Leaves(r.tree) == head + tail;
      BlownAtLeftEdge(Leaves(t), ll, lr, r.at, r.a, r.b, head, tail, Leaves(r.tree));
    } else {
      assert r == Exploded(true, Pair(el.tree, rt), el.at, el.a, el.b);
      assert Leaves(r.tree) == head + lr;
      BlownInLeft(Leaves(t), ll, lr, r.at, r.a, r.b, head, Leaves(r.tree));
    }
  }

  /** The explosion happened inside the right child, away from its first number. */
  lemma {:induction false} ExplodeLeavesRight(l: Node, rt: Node, level: nat)
    requires Explode(Pair(l, rt), level).changed
    requires !(level > 4 && l.Regular? && rt.Regular?) && !Explode(l, level + 1).changed
    requires Explode(rt, level + 1).at != 0
    ensures var t, r := Pair(l, rt), Explode(Pair(l, rt), level);
      && Leaves(t)[r.at] == r.a && Leaves(t)[r.at + 1] == r.b
      && Leaves(r.tree) == Blown(Leaves(t), r.at, r.a, r.b)
    decreases Size(l) + Size(rt) + 1, 0
  {
    var t, ll, lr := Pair(l, rt), Leaves(l), Leaves(rt);
    var er := Explode(rt, level + 1);
    var r := Explode(t, level);
    assert er.changed;
    assert r == Exploded(true, Pair(l, er.tree), |ll| + er.at, er.a, er.b);
    var tail := Leaves(er.tree);
    assert tail == Blown(lr, er.at, er.a, er.b) && lr[er.at] == er.a && lr[er.at + 1] == er.b by {
      ExplodeLeaves(rt, level + 1);
    }
    assert Leaves(t) == ll + lr;
    assert Leaves(r.tree) == ll + tail;
    BlownInRight(Leaves(t), ll, lr, r.at, er.at, r.a, r.b, tail, Leaves(r.tree));
  }

  /** The right child's first two numbers exploded: the left one reaches the left child's last. */
  lemma {:induction false} ExplodeLeavesRightEdge(l: Node, rt: Node, level: nat)
    requires Explode(Pair(l, rt), level).changed
    requires !(level > 4 && l.Regular? && rt.Regular?) && !Explode(l, level + 1).changed
    requires Explode(rt, level + 1).at == 0
    ensures var t, r := Pair(l, rt), Explode(Pair(l, rt), level);
      && Leaves(t)[r.at] == r.a && Leaves(t)[r.at + 1] == r.b
      && Leaves(r.tree) == Blown(Leaves(t), r.at, r.a, r.b)
    decreases Size(l) + Size(rt) + 1, 0
  {
    var t, ll, lr := Pair(l, rt), Leaves(l), Leaves(rt);
    var er := Explode(rt, level + 1);
    var l' := AddRightmost(l, er.a);
    var r := Explode(t, level);
    assert er.changed;
    assert r == Exploded(true, Pair(l', er.tree), |ll| + er.at, er.a, er.b);
    var tail := Leaves(er.tree);
    assert tail == Blown(lr, er.at, er.a, er.b) && lr[0] == er.a && lr[1] == er.b by {
      ExplodeLeaves(rt, level + 1);
    }
    var head := Leaves(l');
    assert head == AddToLast(ll, er.a) by {
      AddRightmostLeaves(l, er.a);
    }
    assert Leaves(t) == ll + lr;
    assert Leaves(r.tree) == head + tail;
    BlownAtRightEdge(Leaves(t), ll, lr, r.at, r.a, r.b, head, tail, Leaves(r.tree));
  }

  /** An explosion strictly inside the left part leaves the right part as it is. */
  lemma BlownInLeft(ls: seq<int>, ll: seq<int>, lr: seq<int>, at: nat, a: int, b: int, head: seq<int>, out: seq<int>)
    requires ls == ll + lr && at + 2 < |ll| && head == Blown(ll, at, a, b) && out == head + lr
    ensures at + 2 <= |ls| && ls[at] == ll[at] && ls[at + 1] == ll[at + 1]
    ensures out == Blown(ls, at, a, b)
  {
    var p, q := AddToLast(ll[..at], a), ll[at + 2..];
    assert head == p + [0] + AddToFirst(q, b);
    assert ls[..at] == ll[..at];
    assert ls[at + 2..] == q + lr;
    AddToFirstConcat(q, lr, b);
    assert Blown(ls, at, a, b) == p + [0] + (AddToFirst(q, b) + lr);
  }

  /** An explosion at the end of the left part adds its right number to the right part's first. */
  lemma BlownAtLeftEdge(ls: seq<int>, ll: seq<int>, lr: seq<int>, at: nat, a: int, b: int, head: seq<int>, tail: seq<int>, out: seq<int>)
    requires ls == ll + lr && at + 2 == |ll| && head == Blown(ll, at, a, b) && tail == AddToFirst(lr, b)
    requires out == head + tail
    ensures at + 2 <= |ls| && ls[at] == ll[at] && ls[at + 1] == ll[at + 1]
    ensures out == Blown(ls, at, a, b)
  {
    assert ls[..at] == ll[..at];
    assert ll[at + 2..] == [];
    assert ls[at + 2..] == lr;
  }

  /** An explosion strictly inside the right part leaves the left part as it is. */
  lemma BlownInRight(ls: seq<int>, ll: seq<int>, lr: seq<int>, k: nat, at: nat, a: int, b: int, tail: seq<int>, out: seq<int>)
    requires ls == ll + lr && k == |ll| + at && 0 < at && at + 2 <= |lr| && tail == Blown(lr, at, a, b)
    requires out == ll + tail
    ensures k + 2 <= |ls| && ls[k] == lr[at] && ls[k + 1] == lr[at + 1]
    ensures out == Blown(ls, k, a, b)
  {
    var p, q := lr[..at], AddToFirst(lr[at + 2..], b);
    assert ls[k + 2..] == lr[at + 2..];
    assert ls[..k] == ll + p;
    AddToLastConcat(ll, p, a);
    assert ll + (AddToLast(p, a) + [0] + q) == (ll + AddToLast(p, a)) + [0] + q;
  }

  /** An explosion at the start of the right part adds its left number to the left part's last. */
  lemma BlownAtRightEdge(ls: seq<int>, ll: seq<int>, lr: seq<int>, k: nat, a: int, b: int, head: seq<int>, tail: seq<int>, out: seq<int>)
    requires ls == ll + lr && k == |ll| && 2 <= |lr| && head == AddToLast(ll, a) && tail == Blown(lr, 0, a, b)
    requires out == head + tail
    ensures k + 2 <= |ls| && ls[k] == lr[0] && ls[k + 1] == lr[1]
    ensures out == Blown(ls, k, a, b)
  {
    var q := AddToFirst(lr[2..], b);
    assert ls[..k] == ll;
    assert ls[k + 2..] == lr[2..];
    assert lr[..0] == [];
    assert tail == [0] + q;
    assert head + ([0] + q) == head + [0] + q;
  }

  // ---------------------------------------------------------------------------
  // split
  // ---------------------------------------------------------------------------

  /** The outcome of a split: whether one happened, the new tree and the position of the split number among the leaves. */
  datatype SplitOutcome = SplitOutcome(changed: bool, tree: Node, at: nat)

  /** Does some regular number reach 10? */
  predicate CanSplit(t: Node)
  {
    match t
    case Regular(v) => v >= 10
    case Pair(l, r) => CanSplit(l) || CanSplit(r)
  }

  /** A number split into its halves, rounded down and up. */
  function Halves(v: int): seq<int>
  {
    [v / 2, v - v / 2]
  }

  /**
   * `split`: the first regular number (left to right) that is 10 or more becomes the pair
   * of its halves, rounded down and up; nothing else changes.
   */
  function Split(t: Node): (r: SplitOutcome)
    ensures r.changed <==> CanSplit(t)
    ensures !r.changed ==> r.tree == t
    ensures r.changed ==> r.at < |Leaves(t)| && Size(r.tree) == Size(t) + 2
  {
    match t
    case Regular(v) =>
      if v >= 10 then SplitOutcome(true, Pair(Regular(v / 2), Regular(v - v / 2)), 0)
      else SplitOutcome(false, t, 0)
    case Pair(l, rt) =>
      var sl := Split(l);
      if sl.changed then SplitOutcome(true, Pair(sl.tree, rt), sl.at)
      else
        var sr := Split(rt);
        if sr.changed then SplitOutcome(true, Pair(l, sr.tree), |Leaves(l)| + sr.at)
        else SplitOutcome(false, t, 0)
  }

  /** With nothing to split, every regular number is below 10. */
  lemma {:induction false} NoSplitLeaves(t: Node)
    requires !CanSplit(t)
    ensures forall k :: 0 <= k < |Leaves(t)| ==> Leaves(t)[k] < 10
    decreases t
  {
    match t
    case Regular(_) =>
    case Pair(l, r) =>
      NoSplitLeaves(l);
      NoSplitLeaves(r);
      assert Leaves(t) == Leaves(l) + Leaves(r);
  }

  /**
   * What a split does to the regular numbers: the number at position `at` is the first
   * that reaches 10, and it is replaced by its two halves.
   */
  lemma {:induction false} SplitLeaves(t: Node)
    requires CanSplit(t)
    ensures var r, ls := Split(t), Leaves(t);
      && ls[r.at] >= 10
      && (forall k :: 0 <= k < r.at ==> ls[k] < 10)
      && Leaves(r.tree) == ls[..r.at] + Halves(ls[r.at]) + ls[r.at + 1..]
    decreases Size(t), 1
  {
    match t
    case Regular(v) =>
    case Pair(l, rt) =>
      if Split(l).changed {
        SplitLeavesLeft(l, rt);
      } else {
        SplitLeavesRight(l, rt);
      }
  }

  /** The split happened in the left child. */
  lemma {:induction false} SplitLeavesLeft(l: Node, rt: Node)
    requires Split(l).changed
    ensures var r, ls := Split(Pair(l, rt)), Leaves(Pair(l, rt));
      && ls[r.at] >= 10
      && (forall k :: 0 <= k < r.at ==> ls[k] < 10)
      && Leaves(r.tree) == ls[..r.at] + Halves(ls[r.at]) + ls[r.at + 1..]
    decreases Size(l) + Size(rt) + 1, 0
  {
    var t, ll, lr := Pair(l, rt), Leaves(l), Leaves(rt);
    var sl, r := Split(l), Split(t);
    assert r == SplitOutcome(true, Pair(sl.tree, rt), sl.at);
    var head := Leaves(sl.tree);
    assert && ll[sl.at] >= 10 && (forall k :: 0 <= k < sl.at ==> ll[k] < 10)
      && head == ll[..sl.at] + Halves(ll[sl.at]) + ll[sl.at + 1..] by {
      SplitLeaves(l);
    }
    assert Leaves(t) == ll + lr;
    assert Leaves(r.tree) == head + lr;
    SplicedInLeft(Leaves(t), ll, lr, r.at, head, Leaves(r.tree));
  }

  /** The left child has nothing to split, so the split happened in the right child. */
  lemma {:induction false} SplitLeavesRight(l: Node, rt: Node)
    requires CanSplit(Pair(l, rt)) && !Split(l).changed
    ensures var r, ls := Split(Pair(l, rt)), Leaves(Pair(l, rt));
      && ls[r.at] >= 10
      && (forall k :: 0 <= k < r.at ==> ls[k] < 10)
      && Leaves(r.tree) == ls[..r.at] + Halves(ls[r.at]) + ls[r.at + 1..]
    decreases Size(l) + Size(rt) + 1, 0
  {
    var t, ll, lr := Pair(l, rt), Leaves(l), Leaves(rt);
    var sr, r := Split(rt), Split(t);
    assert CanSplit(rt);
    assert r == SplitOutcome(true, Pair(l, sr.tree), |ll| + sr.at);
    var tail := Leaves(sr.tree);
    assert && lr[sr.at] >= 10 && (forall k :: 0 <= k < sr.at ==> lr[k] < 10)
      && tail == lr[..sr.at] + Halves(lr[sr.at]) + lr[sr.at + 1..] by {
      SplitLeaves(rt);
    }
    NoSplitLeaves(l);
    assert Leaves(t) == ll + lr;
    assert Leaves(r.tree) == ll + tail;
    SplicedInRight(Leaves(t), ll, lr, r.at, sr.at, tail, Leaves(r.tree));
  }

  /** The position of the first number that reaches 10 exists exactly when `split` applies. */
  lemma CanSplitLeaves(t: Node)
    ensures CanSplit(t) <==> exists k :: 0 <= k < |Leaves(t)| && Leaves(t)[k] >= 10
  {
    if CanSplit(t) {
      SplitLeaves(t);
      var k := Split(t).at;
      assert Leaves(t)[k] >= 10;
    } else {
      NoSplitLeaves(t);
    }
  }

  /** Splitting the first number of 10 or more when it lies in the left part of ll + lr. */
  lemma SplicedInLeft(ls: seq<int>, ll: seq<int>, lr: seq<int>, at: nat, head: seq<int>, out: seq<int>)
    requires ls == ll + lr && at < |ll| && head == ll[..at] + Halves(ll[at]) + ll[at + 1..] && out == head + lr
    requires ll[at] >= 10 && forall k :: 0 <= k < at ==> ll[k] < 10
    ensures ls[at] >= 10 && (forall k :: 0 <= k < at ==> ls[k] < 10)
    ensures out == ls[..at] + Halves(ls[at]) + ls[at + 1..]
  {
    assert ls[at] == ll[at];
    assert ls[..at] == ll[..at];
    assert ls[at + 1..] == ll[at + 1..] + lr;
  }

  /** Splitting the first number of 10 or more when it lies in the right part of ll + lr. */
  lemma SplicedInRight(ls: seq<int>, ll: seq<int>, lr: seq<int>, k: nat, at: nat, tail: seq<int>, out: seq<int>)
    requires ls == ll + lr && k == |ll| + at && at < |lr|
    requires tail == lr[..at] + Halves(lr[at]) + lr[at + 1..] && out == ll + tail
    requires forall j :: 0 <= j < |ll| ==> ll[j] < 10
    requires lr[at] >= 10 && forall j :: 0 <= j < at ==> lr[j] < 10
    ensures ls[k] >= 10 && (forall j :: 0 <= j < k ==> ls[j] < 10)
    ensures out == ls[..k] + Halves(ls[k]) + ls[k + 1..]
  {
    assert ls[k] == lr[at];
    assert ls[..k] == ll + lr[..at];
    assert ls[k + 1..] == lr[at + 1..];
    forall j | 0 <= j < k
      ensures ls[j] < 10
    {
      if j >= |ll| {
        assert ls[j] == lr[j - |ll|];
      }
    }
  }

  /** Replacing ls[k] by xs changes the sum by Sum(xs) - ls[k]. */
  lemma SumSplice(ls: seq<int>, k: nat, xs: seq<int>)
    requires k < |ls|
    ensures Sum(ls[..k] + xs + ls[k + 1..]) == Sum(ls) - ls[k] + Sum(xs)
  {
    assert ls == ls[..k] + [ls[k]] + ls[k + 1..];
    SumAppend(ls[..k] + [ls[k]], ls[k + 1..]);
    SumAppend(ls[..k], [ls[k]]);
    SumAppend(ls[..k] + xs, ls[k + 1..]);
    SumAppend(ls[..k], xs);
  }

  /** The two halves of a split add up to the number split. */
  lemma SplitKeepsSum(t: Node)
    requires CanSplit(t)
    ensures Sum(Leaves(Split(t).tree)) == Sum(Leaves(t))
  {
    var r := Split(t);
    var ls := Leaves(t);
    var v := ls[r.at];
    SplitLeaves(t);
    var x, y := v / 2, v - v / 2;
    SumSplice(ls, r.at, Halves(v));
    SumTwo(x, y);
  }

  // ---------------------------------------------------------------------------
  // reduce, +, magnitude
  // ---------------------------------------------------------------------------

  /** Neither an explosion nor a split applies. */
  predicate Reduced(t: Node)
  {
    !CanExplode(t, 1) && !CanSplit(t)
  }

  /**
   * `reduce`: explode while something explodes, else split while something splits.
   * `fuel` bounds the number of rounds; None means the bound was reached first.
   */
  function Reduce(t: Node, fuel: nat): (r: Option<Node>)
    ensures r.Some? ==> Reduced(r.value)
    ensures Reduced(t) && fuel > 0 ==> r == Some(t)
    decreases fuel
  {
    if fuel == 0 then None
    else
      var e := Explode(t, 1);
      if e.changed then Reduce(e.tree, fuel - 1)
      else
        var s := Split(t);
        if s.changed then Reduce(s.tree, fuel - 1) else Some(t)
  }

  /** Reducing a reduced number again changes nothing. */
  lemma ReduceIdempotent(t: Node, fuel: nat, fuel': nat)
    requires Reduce(t, fuel).Some? && fuel' > 0
    ensures Reduce(Reduce(t, fuel).value, fuel') == Reduce(t, fuel)
  {
  }

  /** The text `[a,b]` that `__add__` builds parses back to the pair of a and b. */
  lemma AddBuildsPair(a: Node, b: Node)
    ensures Parse("[" + Show(a) + "," + Show(b) + "]") == Ok(Pair(a, b))
  {
    ParseShow(Pair(a, b));
  }

  /** `a + b`: the pair [a,b], reduced. */
  function Add(a: Node, b: Node, fuel: nat): (r: Option<Node>)
    ensures r.Some? ==> Reduced(r.value)
    ensures Reduced(Pair(a, b)) && fuel > 0 ==> r == Some(Pair(a, b))
  {
    AddBuildsPair(a, b);
    Reduce(Pair(a, b), fuel)
  }

  /** `magnitude`: the value of a regular number, 3 * left + 2 * right for a pair. */
  function Magnitude(t: Node): int
  {
    match t
    case Regular(v) => v
    case Pair(l, r) => 3 * Magnitude(l) + 2 * Magnitude(r)
  }

  /** With no negative numbers, every number counts at least once in the magnitude. */
  lemma {:induction false} MagnitudeAtLeastSum(t: Node)
    requires forall k :: 0 <= k < |Leaves(t)| ==> Leaves(t)[k] >= 0
    ensures Sum(Leaves(t)) <= Magnitude(t)
    decreases t
  {
    match t
    case Regular(v) =>
      assert Leaves(t)[..0] == [];
    case Pair(l, r) =>
      var ll, lr := Leaves(l), Leaves(r);
      assert forall k :: 0 <= k < |ll| ==> ll[k] == Leaves(t)[k];
      assert forall k :: 0 <= k < |lr| ==> lr[k] == Leaves(t)[|ll| + k];
      MagnitudeAtLeastSum(l);
      MagnitudeAtLeastSum(r);
      SumAppend(ll, lr);
      SumNonNegative(ll);
      SumNonNegative(lr);
  }

  // ---------------------------------------------------------------------------
  // Worked examples
  // ---------------------------------------------------------------------------

  function R(v: int): Node { Regular(v) }
  function P(l: Node, r: Node): Node { Pair(l, r) }

  /** `[[[[[9,8],1],2],3],4]` explodes to `[[[[0,9],2],3],4]`. */
  lemma ExplodeExample()
    ensures Explode(P(P(P(P(P(R(9), R(8)), R(1)), R(2)), R(3)), R(4)), 1).tree
         == P(P(P(P(R(0), R(9)), R(2)), R(3)), R(4))
  {
  }

  /** `[7,[6,[5,[4,[3,2]]]]]` explodes to `[7,[6,[5,[7,0]]]]`. */
  lemma ExplodeExampleRight()
    ensures Explode(P(R(7), P(R(6), P(R(5), P(R(4), P(R(3), R(2)))))), 1).tree
         == P(R(7), P(R(6), P(R(5), P(R(7), R(0)))))
  {
  }

  /** `[10,8]` splits to `[[5,5],8]` and `[4,[8,11]]` to `[4,[8,[5,6]]]`. */
  lemma SplitExamples()
    ensures Split(P(R(10), R(8))).tree == P(P(R(5), R(5)), R(8))
    ensures Split(P(R(4), P(R(8), R(11)))).tree == P(R(4), P(R(8), P(R(5), R(6))))
  {
  }

  /** `[1,1] + [2,2] + [3,3] + [4,4]` is `[[[[1,1],[2,2]],[3,3]],[4,4]]`. */
  lemma AddExample()
    ensures Add(P(R(1), R(1)), P(R(2), R(2)), 1) == Some(P(P(R(1), R(1)), P(R(2), R(2))))
    ensures Add(P(P(R(1), R(1)), P(R(2), R(2))), P(R(3), R(3)), 1)
         == Some(P(P(P(R(1), R(1)), P(R(2), R(2))), P(R(3), R(3))))
    ensures Add(P(P(P(R(1), R(1)), P(R(2), R(2))), P(R(3), R(3))), P(R(4), R(4)), 1)
         == Some(P(P(P(P(R(1), R(1)), P(R(2), R(2))), P(R(3), R(3))), P(R(4), R(4))))
  {
  }

  /** The magnitude of `[[[[6,6],[7,6]],[[7,7],[7,0]]],[[[7,7],[7,7]],[[7,8],[9,9]]]]` is 4140. */
  lemma MagnitudeExample()
    ensures Magnitude(P(P(P(P(R(6), R(6)), P(R(7), R(6))), P(P(R(7), R(7)), P(R(7), R(0)))),
                        P(P(P(R(7), R(7)), P(R(7), R(7))), P(P(R(7), R(8)), P(R(9), R(9)))))) == 4140
  {
  }
}
