/**
 * Day 13, transparent origami: a set of dots on a sheet is folded along vertical
 * (`x=p`) and horizontal (`y=p`) lines; every dot past the line is mirrored onto the
 * near side.
 */
module Day13 {
  import opened Util

  type Dot = (int, int)

  /** A fold instruction `<axis>=<pivot>`. */
  datatype Fold = Fold(axis: string, pivot: int)

  // ---------------------------------------------------------------------------
  // get_dots_and_folds
  // ---------------------------------------------------------------------------

  /** `x, y = line.split(','); (int(x), int(y))`. */
  function ParseDot(line: string): Result<Dot>
  {
    var parts := Split(line, ',');
    if |parts| != 2 then Err("ValueError: wrong number of values to unpack")
    else
      match (ParseInt(parts[0]), ParseInt(parts[1]))
      case (Some(x), Some(y)) => Ok((x, y))
      case _ => Err("ValueError: invalid literal for int()")
  }

  /** A dot line as the puzzle writes it reads back as that dot. */
  lemma ParseDotShow(x: nat, y: nat)
    ensures ParseDot(ShowNat(x) + "," + ShowNat(y)) == Ok((x, y))
  {
    var sx, sy := ShowNat(x), ShowNat(y);
    assert ',' !in sx && ',' !in sy;
    assert Join([sx, sy], ',') == sx + "," + sy;
    SplitJoin([sx, sy], ',');
    ParseShowNat(x);
    ParseShowNat(y);
  }

  /**
   * The dot lines: every line before the first blank one, and the index of that blank
   * line. Running out of lines before a blank one raises `StopIteration`.
   */
  function ReadDots(lines: seq<string>): (r: Result<(set<Dot>, nat)>)
    ensures r.Ok? ==> r.value.1 < |lines| && lines[r.value.1] == []
    ensures r.Ok? ==> forall i :: 0 <= i < r.value.1 ==> lines[i] != []
  {
    ReadDotsFrom(lines, 0, {})
  }

  /** Reading on from line `i` with the dots `acc` already collected. */
  function ReadDotsFrom(lines: seq<string>, i: nat, acc: set<Dot>): (r: Result<(set<Dot>, nat)>)
    requires i <= |lines|
    ensures r.Ok? ==> i <= r.value.1 < |lines| && lines[r.value.1] == []
    ensures r.Ok? ==> forall j :: i <= j < r.value.1 ==> lines[j] != []
    decreases |lines| - i
  {
    if i == |lines| then Err("StopIteration")
    else if lines[i] == [] then Ok((acc, i))
    else
      match ParseDot(lines[i])
      case Err(e) => Err(e)
      case Ok(d) => ReadDotsFrom(lines, i + 1, acc + {d})
  }

  /** The dot set holds exactly the dots of the lines before the blank one. */
  lemma ReadDotsMembers(lines: seq<string>)
    requires ReadDots(lines).Ok?
    ensures var (dots, k) := ReadDots(lines).value;
            forall d :: d in dots <==> exists i :: 0 <= i < k && ParseDot(lines[i]) == Ok(d)
  {
    ReadDotsFromMembers(lines, 0, {});
  }

  lemma {:induction false} ReadDotsFromMembers(lines: seq<string>, i: nat, acc: set<Dot>)
    requires i <= |lines| && ReadDotsFrom(lines, i, acc).Ok?
    ensures var (dots, k) := ReadDotsFrom(lines, i, acc).value;
            forall d :: d in dots <==> d in acc || exists j :: i <= j < k && ParseDot(lines[j]) == Ok(d)
    decreases |lines| - i
  {
    var (dots, k) := ReadDotsFrom(lines, i, acc).value;
    if lines[i] != [] {
      var d0 := ParseDot(lines[i]).value;
      ReadDotsFromMembers(lines, i + 1, acc + {d0});
      forall d
        ensures d in dots <==> d in acc || exists j :: i <= j < k && ParseDot(lines[j]) == Ok(d)
      {
        if d == d0 {
          assert ParseDot(lines[i]) == Ok(d);
        }
        if exists j :: i <= j < k && ParseDot(lines[j]) == Ok(d) {
          var j :| i <= j < k && ParseDot(lines[j]) == Ok(d);
          assert j == i || (i + 1 <= j < k && ParseDot(lines[j]) == Ok(d));
        }
      }
    }
  }

  /** The fold lines: the last word of each, raising on a blank line. */
  function ReadFolds(lines: seq<string>): (r: Result<seq<string>>)
    ensures r.Ok? <==> forall i :: 0 <= i < |lines| ==> LastWord(lines[i]).Ok?
    ensures r.Ok? ==> |r.value| == |lines| && forall i :: 0 <= i < |lines| ==> LastWord(lines[i]) == Ok(r.value[i])
  {
    if |lines| == 0 then Ok([])
    else
      match ReadFolds(lines[..|lines| - 1])
      case Err(e) => Err(e)
      case Ok(init) =>
        match LastWord(lines[|lines| - 1])
        case Err(e) => Err(e)
        case Ok(w) => Ok(init + [w])
  }

  /** `get_dots_and_folds(lines)`, or the exception it raises. */
  function DotsAndFolds(lines: seq<string>): Result<(set<Dot>, seq<string>)>
  {
    match ReadDots(lines)
    case Err(e) => Err(e)
    case Ok((dots, k)) =>
      match ReadFolds(lines[k + 1..])
      case Err(e) => Err(e)
      case Ok(folds) => Ok((dots, folds))
  }

  /** Reading one more fold line. */
  lemma ReadFoldsStep(lines: seq<string>, j: nat, folds: seq<string>)
    requires j < |lines| && ReadFolds(lines[..j]) == Ok(folds)
    ensures ReadFolds(lines[..j + 1]) ==
              match LastWord(lines[j])
              case Err(e) => Err(e)
              case Ok(w) => Ok(folds + [w])
  {
    assert lines[..j + 1][..j] == lines[..j];
  }

  /** Once a fold line fails, reading the remaining lines fails the same way. */
  lemma {:induction false} ReadFoldsErrSticks(lines: seq<string>, j: nat)
    requires j <= |lines| && ReadFolds(lines[..j]).Err?
    ensures ReadFolds(lines) == ReadFolds(lines[..j])
    decreases |lines| - j
  {
    if j < |lines| {
      assert lines[..j + 1][..j] == lines[..j];
      ReadFoldsErrSticks(lines, j + 1);
    } else {
      assert lines[..j] == lines;
    }
  }

  /** The first loop of `get_dots_and_folds`: the dot lines up to the first blank one. */
  method ReadDotLines(lines: seq<string>) returns (r: Result<(set<Dot>, nat)>)
    ensures r == ReadDots(lines)
  {
    var dots: set<Dot> := {};
    var i := 0;
    while i < |lines| && lines[i] != []
      invariant i <= |lines|
      invariant ReadDots(lines) == ReadDotsFrom(lines, i, dots)
    {
      var dot := ParseDot(lines[i]);
      if dot.Err? {
        return Err(dot.msg);
      }
      assert ReadDotsFrom(lines, i, dots) == ReadDotsFrom(lines, i + 1, dots + {dot.value});
      dots := dots + {dot.value};
      i := i + 1;
    }
    if i == |lines| {
      return Err("StopIteration");
    }
    return Ok((dots, i));
  }

  /** The second loop of `get_dots_and_folds`: the last word of every remaining line. */
  method ReadFoldLines(rest: seq<string>) returns (r: Result<seq<string>>)
    ensures r == ReadFolds(rest)
  {
    var folds: seq<string> := [];
    for j := 0 to |rest|
      invariant ReadFolds(rest[..j]) == Ok(folds)
    {
      var w := LastWord(rest[j]);
      ReadFoldsStep(rest, j, folds);
      if w.Err? {
        ReadFoldsErrSticks(rest, j + 1);
        return Err(w.msg);
      }
      folds := folds + [w.value];
    }
    assert rest[..|rest|] == rest;
    return Ok(folds);
  }

  /** `get_dots_and_folds(lines)`: reads dots up to the first blank line, then one fold per line. */
  method GetDotsAndFolds(lines: seq<string>) returns (r: Result<(set<Dot>, seq<string>)>)
    ensures r == DotsAndFolds(lines)
  {
    var dots := ReadDotLines(lines);
    if dots.Err? {
      return Err(dots.msg);
    }
    var folds := ReadFoldLines(lines[dots.value.1 + 1..]);
    if folds.Err? {
      return Err(folds.msg);
    }
    return Ok((dots.value.0, folds.value));
  }

  // ---------------------------------------------------------------------------
  // do_fold
  // ---------------------------------------------------------------------------

  /** `axis, pivot = fold.split('='); pivot = int(pivot)`. */
  function ParseFold(fold: string): Result<Fold>
  {
    var parts := Split(fold, '=');
    if |parts| != 2 then Err("ValueError: wrong number of values to unpack")
    else
      match ParseInt(parts[1])
      case None => Err("ValueError: invalid literal for int()")
      case Some(p) => Ok(Fold(parts[0], p))
  }

  /** A fold instruction as the puzzle writes it reads back as that fold. */
  lemma ParseFoldShow(axis: string, pivot: nat)
    requires '=' !in axis
    ensures ParseFold(axis + "=" + ShowNat(pivot)) == Ok(Fold(axis, pivot))
  {
    var sp := ShowNat(pivot);
    assert '=' !in sp;
    assert Join([axis, sp], '=') == axis + "=" + sp;
    SplitJoin([axis, sp], '=');
    ParseShowNat(pivot);
  }

  /** Whether the fold moves the dot: it lies past the fold line. */
  predicate Moves(d: Dot, f: Fold)
  {
    (f.axis == "x" && d.0 > f.pivot) || (f.axis == "y" && d.1 > f.pivot)
  }

  /** Where the fold puts one dot: a dot past the line is mirrored across it. */
  function FoldDot(d: Dot, f: Fold): (e: Dot)
    ensures !Moves(d, f) ==> e == d
    ensures f.axis == "x" ==> e.1 == d.1 && e.0 <= f.pivot + (if d.0 > f.pivot then 0 else d.0 - f.pivot)
    ensures f.axis == "y" ==> e.0 == d.0 && e.1 <= f.pivot + (if d.1 > f.pivot then 0 else d.1 - f.pivot)
    ensures f.axis == "x" && Moves(d, f) ==> f.pivot - e.0 == d.0 - f.pivot
    ensures f.axis == "y" && Moves(d, f) ==> f.pivot - e.1 == d.1 - f.pivot
  {
    if f.axis == "x" && d.0 > f.pivot then (f.pivot - (d.0 - f.pivot), d.1)
    else if f.axis == "y" && d.1 > f.pivot then (d.0, f.pivot - (d.1 - f.pivot))
    else d
  }

  /** The dots after the fold. */
  function FoldImage(dots: set<Dot>, f: Fold): set<Dot>
  {
    set d | d in dots :: FoldDot(d, f)
  }

  /** After the fold no dot lies past the fold line. */
  lemma FoldBound(dots: set<Dot>, f: Fold)
    ensures forall e :: e in FoldImage(dots, f) ==> !Moves(e, f)
  {
    forall e | e in FoldImage(dots, f)
      ensures !Moves(e, f)
    {
      var d :| d in dots && e == FoldDot(d, f);
    }
  }

  /** Folding the same way twice is folding once. */
  lemma FoldIdempotent(dots: set<Dot>, f: Fold)
    ensures FoldImage(FoldImage(dots, f), f) == FoldImage(dots, f)
  {
    var once := FoldImage(dots, f);
    FoldBound(dots, f);
    forall e | e in FoldImage(once, f)
      ensures e in once
    {
      var d :| d in once && e == FoldDot(d, f);
    }
    forall e | e in once
      ensures e in FoldImage(once, f)
    {
      assert FoldDot(e, f) == e;
    }
  }

  /** Folding never adds dots: dots landing on each other merge. */
  lemma {:induction false} FoldCount(dots: set<Dot>, f: Fold)
    ensures |FoldImage(dots, f)| <= |dots|
    decreases |dots|
  {
    if dots != {} {
      var d :| d in dots;
      var rest := dots - {d};
      FoldCount(rest, f);
      assert FoldImage(dots, f) == FoldImage(rest, f) + {FoldDot(d, f)};
    }
  }

  /** The dots of `seen` that the fold moves (`dots_to_remove`). */
  function Moving(seen: set<Dot>, f: Fold): set<Dot>
  {
    set d | d in seen && Moves(d, f)
  }

  /** Where the moving dots of `seen` land (`dots_to_add`). */
  function Landing(seen: set<Dot>, f: Fold): set<Dot>
  {
    set d | d in seen && Moves(d, f) :: FoldDot(d, f)
  }

  /** Visiting one more dot: the scan's sets grow by that dot's share. */
  lemma ScanStep(dots: set<Dot>, seen: set<Dot>, remaining: set<Dot>, d: Dot, f: Fold,
                 toRemove: set<Dot>, toAdd: set<Dot>, toRemove': set<Dot>, toAdd': set<Dot>)
    requires d in remaining && seen + remaining == dots && seen !! remaining
    requires toRemove == Moving(seen, f) && toAdd == Landing(seen, f)
    requires toRemove' == if Moves(d, f) then toRemove + {d} else toRemove
    requires toAdd' == if Moves(d, f) then toAdd + {FoldDot(d, f)} else toAdd
    ensures (seen + {d}) + (remaining - {d}) == dots && (seen + {d}) !! (remaining - {d})
    ensures toRemove' == Moving(seen + {d}, f) && toAdd' == Landing(seen + {d}, f)
  {
  }

  /** Removing the moving dots and adding where they land is the fold. */
  lemma RemoveAddIsFold(dots: set<Dot>, f: Fold)
    ensures (dots - Moving(dots, f)) + Landing(dots, f) == FoldImage(dots, f)
  {
    forall e | e in FoldImage(dots, f)
      ensures e in (dots - Moving(dots, f)) + Landing(dots, f)
    {
      var d :| d in dots && e == FoldDot(d, f);
      if Moves(d, f) {
        assert e in Landing(dots, f);
      }
    }
  }

  /** The loop of `do_fold`: the dots the fold moves and the places they land. */
  method ScanDots(dots: set<Dot>, f: Fold) returns (toRemove: set<Dot>, toAdd: set<Dot>)
    ensures toRemove == Moving(dots, f) && toAdd == Landing(dots, f)
  {
    toRemove, toAdd := {}, {};
    var remaining := dots;
    ghost var seen: set<Dot> := {};
    while remaining != {}
      invariant seen + remaining == dots && seen !! remaining
      invariant toRemove == Moving(seen, f) && toAdd == Landing(seen, f)
      decreases |remaining|
    {
      var d :| d in remaining;
      ghost var (toRemove0, toAdd0) := (toRemove, toAdd);
      if Moves(d, f) {
        toRemove := toRemove + {d};
        toAdd := toAdd + {FoldDot(d, f)};
      }
      ScanStep(dots, seen, remaining, d, f, toRemove0, toAdd0, toRemove, toAdd);
      remaining := remaining - {d};
      seen := seen + {d};
    }
  }

  /** The sheet; `do_fold` changes its dot set in place. */
  class Paper {
    var dots: set<Dot>

    constructor (dots: set<Dot>)
      ensures this.dots == dots
    {
      this.dots := dots;
    }

    /** `do_fold(dots, fold)`: the error a malformed instruction raises, or the dots folded. */
    method DoFold(fold: string) returns (error: Option<string>)
      modifies this
      ensures error.None? <==> ParseFold(fold).Ok?
      ensures error.None? ==> dots == FoldImage(old(dots), ParseFold(fold).value)
      ensures error.Some? ==> dots == old(dots) && error.value == ParseFold(fold).msg
    {
      var f := ParseFold(fold);
      if f.Err? {
        return Some(f.msg);
      }
      var fd := f.value;
      var toRemove, toAdd := ScanDots(dots, fd);
      RemoveAddIsFold(dots, fd);
      dots := dots - toRemove;
      dots := dots + toAdd;
      return None;
    }
  }

  // ---------------------------------------------------------------------------
  // part_a and part_b
  // ---------------------------------------------------------------------------

  /** The dots after the given folds in order, or the error the first malformed one raises. */
  function FoldAll(dots: set<Dot>, folds: seq<string>): Result<set<Dot>>
    decreases |folds|
  {
    if |folds| == 0 then Ok(dots)
    else
      match ParseFold(folds[0])
      case Err(e) => Err(e)
      case Ok(f) => FoldAll(FoldImage(dots, f), folds[1..])
  }

  /** No sequence of folds adds dots. */
  lemma {:induction false} FoldAllCount(dots: set<Dot>, folds: seq<string>)
    requires FoldAll(dots, folds).Ok?
    ensures |FoldAll(dots, folds).value| <= |dots|
    decreases |folds|
  {
    if |folds| > 0 {
      var f := ParseFold(folds[0]).value;
      FoldAllCount(FoldImage(dots, f), folds[1..]);
      FoldCount(dots, f);
    }
  }

  /** The first j folds, then the next one. */
  lemma FoldAllStep(dots: set<Dot>, folds: seq<string>, j: nat, cur: set<Dot>)
    requires j < |folds| && FoldAll(dots, folds[..j]) == Ok(cur)
    ensures FoldAll(dots, folds[..j + 1]) ==
              match ParseFold(folds[j])
              case Err(e) => Err(e)
              case Ok(f) => Ok(FoldImage(cur, f))
    decreases j
  {
    if j == 0 {
      assert folds[..1][1..] == [];
    } else {
      var f := ParseFold(folds[0]).value;
      assert folds[..j][1..] == folds[1..][..j - 1];
      assert folds[..j + 1][1..] == folds[1..][..j];
      FoldAllStep(FoldImage(dots, f), folds[1..], j - 1, cur);
    }
  }

  /** Once a fold fails, the remaining folds fail the same way. */
  lemma {:induction false} FoldAllErrSticks(dots: set<Dot>, folds: seq<string>, j: nat)
    requires j <= |folds| && FoldAll(dots, folds[..j]).Err?
    ensures FoldAll(dots, folds) == FoldAll(dots, folds[..j])
    decreases j
  {
    if j > 0 {
      var f := ParseFold(folds[0]);
      if f.Ok? {
        assert folds[..j][1..] == folds[1..][..j - 1];
        FoldAllErrSticks(FoldImage(dots, f.value), folds[1..], j - 1);
      }
    }
  }

  /** `part_a(lines)`: the number of dots after the first fold. */
  method PartA(lines: seq<string>) returns (r: Result<int>)
    ensures r ==
              match DotsAndFolds(lines)
              case Err(e) => Err(e)
              case Ok((dots, folds)) =>
                if |folds| == 0 then Err("IndexError: list index out of range")
                else
                  match ParseFold(folds[0])
                  case Err(e) => Err(e)
                  case Ok(f) => Ok(|FoldImage(dots, f)|)
  {
    var input := GetDotsAndFolds(lines);
    if input.Err? {
      return Err(input.msg);
    }
    var (dots, folds) := input.value;
    if |folds| == 0 {
      return Err("IndexError: list index out of range");
    }
    var paper := new Paper(dots);
    var error := paper.DoFold(folds[0]);
    if error.Some? {
      return Err(error.value);
    }
    return Ok(|paper.dots|);
  }

  /**
   * `part_b(lines)`: every fold in order; the dot set that is then drawn, or the `ValueError`
   * `max` raises on an empty set.
   */
  method PartB(lines: seq<string>) returns (r: Result<set<Dot>>)
    ensures r ==
              match DotsAndFolds(lines)
              case Err(e) => Err(e)
              case Ok((dots, folds)) =>
                match FoldAll(dots, folds)
                case Err(e) => Err(e)
                case Ok(d) => if d == {} then Err("ValueError: max() arg is an empty sequence") else Ok(d)
  {
    var input := GetDotsAndFolds(lines);
    if input.Err? {
      return Err(input.msg);
    }
    var (dots, folds) := input.value;
    var paper := new Paper(dots);
    for j := 0 to |folds|
      invariant FoldAll(dots, folds[..j]) == Ok(paper.dots)
    {
      FoldAllStep(dots, folds, j, paper.dots);
      var error := paper.DoFold(folds[j]);
      if error.Some? {
        FoldAllErrSticks(dots, folds, j + 1);
        return Err(error.value);
      }
    }
    assert folds[..|folds|] == folds;
    if paper.dots == {} {
      return Err("ValueError: max() arg is an empty sequence");
    }
    return Ok(paper.dots);
  }
}
