/**
 * Day 12, passage pathing: caves joined by passages, read from `a-b` lines into an
 * adjacency map, and every path from `start` to `end` enumerated by a depth-first
 * recursion. Big caves (upper-case first letter) may be visited any number of times,
 * small caves (lower-case first letter) at most once, except that in the second part a
 * single small cave may be visited twice. `start` is never re-entered and reaching `end`
 * finishes a path.
 */
module Day12 {
  import opened Util

  /** For each cave, the set of caves a passage leads to. */
  type AdjMap = map<string, set<string>>

  // ---------------------------------------------------------------------------
  // build_adjacency_map
  // ---------------------------------------------------------------------------

  /**
   * `a, b = line.split('-')`: the unpacking succeeds only when the line splits into exactly
   * two parts, that is when it holds exactly one '-'.
   */
  function ParseEdge(line: string): (r: Option<(string, string)>)
    ensures r.Some? <==> Count(line, '-') == 1
  {
    var parts := Split(line, '-');
    if |parts| == 2 then Some((parts[0], parts[1])) else None
  }

  /** A line read as a passage is its two caves joined by '-', neither holding a '-'. */
  lemma ParseEdgeSplit(line: string)
    requires ParseEdge(line).Some?
    ensures var (a, b) := ParseEdge(line).value;
      line == a + "-" + b && '-' !in a && '-' !in b
  {
    JoinSplit(line, '-');
  }

  /** Writing a passage out and reading it back gives the same two caves. */
  lemma ParseEdgeJoin(a: string, b: string)
    requires '-' !in a && '-' !in b
    ensures ParseEdge(a + "-" + b) == Some((a, b))
  {
    SplitJoin([a, b], '-');
    assert Join([a, b], '-') == a + "-" + b;
  }

  /** Line `i` is a passage between `a` and `b`, in either direction. */
  predicate Passage(lines: seq<string>, i: int, a: string, b: string)
  {
    0 <= i < |lines| && (ParseEdge(lines[i]) == Some((a, b)) || ParseEdge(lines[i]) == Some((b, a)))
  }

  /** Some line joins `a` and `b`. */
  ghost predicate Joined(lines: seq<string>, a: string, b: string)
  {
    exists i :: Passage(lines, i, a, b)
  }

  /** One more line joins exactly the pair it names, in both directions. */
  lemma JoinedSnoc(init: seq<string>, line: string, a: string, b: string)
    requires ParseEdge(line) == Some((a, b))
    ensures forall x, y :: Joined(init + [line], x, y) <==>
      Joined(init, x, y) || (x == a && y == b) || (x == b && y == a)
  {
    var lines := init + [line];
    forall x, y
      ensures Joined(lines, x, y) <==> Joined(init, x, y) || (x == a && y == b) || (x == b && y == a)
    {
      if Joined(lines, x, y) {
        var k :| Passage(lines, k, x, y);
        if k < |init| {
          assert Passage(init, k, x, y);
        }
      }
      if Joined(init, x, y) {
        var k :| Passage(init, k, x, y);
        assert Passage(lines, k, x, y);
      }
      if (x == a && y == b) || (x == b && y == a) {
        assert Passage(lines, |init|, x, y);
      }
    }
  }

  /** Records the passage `a-b` in both directions, creating empty entries first. */
  function AddPassage(m: AdjMap, a: string, b: string): AdjMap
  {
    var m1 := m[a := (if a in m then m[a] else {}) + {b}];
    m1[b := (if b in m1 then m1[b] else {}) + {a}]
  }

  /** The map `build_adjacency_map` builds, or the `ValueError` of its first malformed line. */
  function Adjacency(lines: seq<string>): Result<AdjMap>
  {
    if lines == [] then Ok(map[])
    else
      var prior := Adjacency(lines[..|lines| - 1]);
      if prior.Err? then prior
      else match ParseEdge(lines[|lines| - 1])
        case None => Err("ValueError: a passage line must name exactly two caves")
        case Some((a, b)) => Ok(AddPassage(prior.value, a, b))
  }

  /** Building the map fails exactly when some line does not name two caves. */
  lemma {:induction false} AdjacencyFails(lines: seq<string>)
    ensures Adjacency(lines).Err? <==> exists i :: 0 <= i < |lines| && ParseEdge(lines[i]).None?
  {
    if lines != [] {
      var init := lines[..|lines| - 1];
      AdjacencyFails(init);
      assert forall i :: 0 <= i < |init| ==> init[i] == lines[i];
    }
  }

  /**
   * In the map built from well-formed lines, `b` is listed under `a` exactly when some line
   * joins them, and only caves that some line names get an entry.
   */
  lemma {:induction false} AdjacencyMeaning(lines: seq<string>)
    requires Adjacency(lines).Ok?
    ensures forall a, b :: a in Adjacency(lines).value && b in Adjacency(lines).value[a] <==> Joined(lines, a, b)
    ensures forall a :: a in Adjacency(lines).value ==> Adjacency(lines).value[a] != {}
  {
    if lines != [] {
      var init, line := lines[..|lines| - 1], lines[|lines| - 1];
      assert lines == init + [line];
      AdjacencyMeaning(init);
      var prior := Adjacency(init).value;
      var (a, b) := ParseEdge(line).value;
      var m := AddPassage(prior, a, b);
      assert Adjacency(lines).value == m;
      JoinedSnoc(init, line, a, b);
      AddPassageMeaning(prior, a, b);
      forall x, y
        ensures x in m && y in m[x] <==> Joined(lines, x, y)
      {
        assert x in m && y in m[x] <==> (x in prior && y in prior[x]) || (x == a && y == b) || (x == b && y == a);
      }
    }
  }

  /** Recording `a-b` adds exactly the pair in both directions and leaves no entry empty. */
  lemma AddPassageMeaning(m: AdjMap, a: string, b: string)
    ensures forall x, y :: x in AddPassage(m, a, b) && y in AddPassage(m, a, b)[x] <==>
      (x in m && y in m[x]) || (x == a && y == b) || (x == b && y == a)
    ensures forall x :: x in m && m[x] != {} ==> x in AddPassage(m, a, b) && AddPassage(m, a, b)[x] != {}
    ensures AddPassage(m, a, b).Keys == m.Keys + {a, b} && AddPassage(m, a, b)[a] != {} && AddPassage(m, a, b)[b] != {}
  {
    var m1 := m[a := (if a in m then m[a] else {}) + {b}];
    var m2 := AddPassage(m, a, b);
    assert m2 == m1[b := (if b in m1 then m1[b] else {}) + {a}];
    assert b in m2[a] && a in m2[b];
    forall x, y
      ensures x in m2 && y in m2[x] <==> (x in m && y in m[x]) || (x == a && y == b) || (x == b && y == a)
    {
      if x == b {
      } else if x == a {
      }
    }
  }

  /** A single malformed line makes building the map fail. */
  lemma MalformedLineFails(lines: seq<string>, i: nat)
    requires i < |lines| && ParseEdge(lines[i]).None?
    ensures Adjacency(lines).Err?
  {
    AdjacencyFails(lines);
  }

  /** One more well-formed line records its passage in the map built so far. */
  lemma AdjacencyStep(lines: seq<string>, i: nat)
    requires i < |lines| && Adjacency(lines[..i]).Ok? && ParseEdge(lines[i]).Some?
    ensures Adjacency(lines[..i + 1]) ==
      Ok(AddPassage(Adjacency(lines[..i]).value, ParseEdge(lines[i]).value.0, ParseEdge(lines[i]).value.1))
  {
    assert lines[..i + 1][..i] == lines[..i];
  }

  /** `build_adjacency_map`, lines 18-28: the dictionary loop computes the map above. */
  method BuildAdjacencyMap(lines: seq<string>) returns (r: Result<AdjMap>)
    ensures r.Err? <==> Adjacency(lines).Err?
    ensures r.Ok? ==> r.value == Adjacency(lines).value
  {
    var adj: AdjMap := map[];
    var i := 0;
    while i < |lines|
      invariant 0 <= i <= |lines|
      invariant Adjacency(lines[..i]) == Ok(adj)
    {
      var e := ParseEdge(lines[i]);
      if e.None? {
        MalformedLineFails(lines, i);
        return Err("ValueError: a passage line must name exactly two caves");
      }
      var (a, b) := e.value;
      ghost var prior := adj;
      if a !in adj {
        adj := adj[a := {}];
      }
      adj := adj[a := adj[a] + {b}];
      assert adj == prior[a := (if a in prior then prior[a] else {}) + {b}];
      if b !in adj {
        adj := adj[b := {}];
      }
      adj := adj[b := adj[b] + {a}];
      assert adj == AddPassage(prior, a, b);
      AdjacencyStep(lines, i);
      i := i + 1;
    }
    assert lines[..i] == lines;
    return Ok(adj);
  }

  /** Every passage goes both ways: `b` is listed under `a` exactly when `a` is listed under `b`. */
  lemma AdjacencySymmetric(lines: seq<string>)
    requires Adjacency(lines).Ok?
    ensures var m := Adjacency(lines).value;
      forall a, b :: a in m && b in m[a] <==> b in m && a in m[b]
  {
    var m := Adjacency(lines).value;
    AdjacencyMeaning(lines);
    forall a, b | a in m && b in m[a]
      ensures b in m && a in m[b]
    {
      var k :| Passage(lines, k, a, b);
      assert Passage(lines, k, b, a);
      assert Joined(lines, b, a);
    }
  }

  // ---------------------------------------------------------------------------
  // build_paths
  // ---------------------------------------------------------------------------

  /** `step[0] in string.ascii_uppercase`. */
  predicate IsBig(c: string)
  {
    |c| > 0 && 'A' <= c[0] <= 'Z'
  }

  /** `step[0] in string.ascii_lowercase`. */
  predicate IsSmall(c: string)
  {
    |c| > 0 && 'a' <= c[0] <= 'z'
  }

  /**
   * No passage joins two big caves. Without this a path could bounce between two big caves
   * forever and the recursion of `build_paths` would not end.
   */
  predicate NoBigPassage(m: AdjMap)
  {
    forall a, b :: a in m && b in m[a] && IsBig(a) ==> !IsBig(b)
  }

  /** No line of the input joins two big caves. */
  predicate NoBigPair(lines: seq<string>)
  {
    forall i :: 0 <= i < |lines| && ParseEdge(lines[i]).Some? ==>
      !(IsBig(ParseEdge(lines[i]).value.0) && IsBig(ParseEdge(lines[i]).value.1))
  }

  /** Every cave the map mentions. */
  function Caves(m: AdjMap): set<string>
  {
    m.Keys + set a, b | a in m && b in m[a] :: b
  }

  /** The small caves a path has not visited yet. */
  function Unvisited(m: AdjMap, path: seq<string>): set<string>
  {
    set c | c in Caves(m) && IsSmall(c) && c !in path
  }

  /** Visits to small caves still possible: the unvisited ones, plus one when a repeat is allowed. */
  function Budget(m: AdjMap, path: seq<string>, allowDupeSmall: bool): nat
  {
    |Unvisited(m, path)| + (if allowDupeSmall then 1 else 0)
  }

  /** Termination rank of the last cave: a path that ends in a big cave must step to a small one. */
  function Rank(c: string): nat
  {
    if IsBig(c) then 0 else 1
  }

  /** Each step of the recursion uses up budget, or moves from a small cave to a big one. */
  lemma StepShrinks(m: AdjMap, path: seq<string>, allowDupeSmall: bool, step: string)
    requires path != [] && NoBigPassage(m) && path[|path| - 1] in m && step in m[path[|path| - 1]]
    ensures IsBig(step) ==>
      Budget(m, path + [step], allowDupeSmall) == Budget(m, path, allowDupeSmall) &&
      Rank(path[|path| - 1]) == 1 && Rank(step) == 0
    ensures IsSmall(step) && step !in path ==> Budget(m, path + [step], allowDupeSmall) < Budget(m, path, allowDupeSmall)
    ensures IsSmall(step) && allowDupeSmall ==> Budget(m, path + [step], false) < Budget(m, path, allowDupeSmall)
  {
    assert step in Caves(m);
    assert Unvisited(m, path + [step]) == Unvisited(m, path) - {step};
  }

  /**
   * `p` continues `path` to `end`: it starts with `path`, ends with `end`, each step from the
   * last cave of `path` on follows a passage, and `start` is never entered again.
   */
  predicate Continues(m: AdjMap, path: seq<string>, p: seq<string>)
  {
    0 < |path| < |p| && p[..|path|] == path && p[|p| - 1] == "end" &&
    (forall i :: |path| - 1 <= i < |p| - 1 ==> p[i] in m && p[i + 1] in m[p[i]]) &&
    (forall i :: |path| <= i < |p| ==> p[i] != "start")
  }

  /** Extending by one cave along a passage keeps a continuation of the longer path one of the shorter path. */
  lemma ContinuesStep(m: AdjMap, path: seq<string>, step: string, p: seq<string>)
    requires path != [] && path[|path| - 1] in m && step in m[path[|path| - 1]] && step != "start"
    requires Continues(m, path + [step], p)
    ensures Continues(m, path, p) && p[|path|] == step
  {
    assert p[..|path|] == p[..|path| + 1][..|path|];
  }

  /**
   * `build_paths(map, path_so_far, allow_dupe_small)` as a set of paths, or the exception it
   * raises: a `KeyError` when the last cave has no entry, an `IndexError` when some reachable
   * step is the empty name. Every path found continues `path_so_far` to `end`.
   */
  function Paths(m: AdjMap, path: seq<string>, allowDupeSmall: bool): (r: Result<set<seq<string>>>)
    requires path != [] && NoBigPassage(m)
    ensures r.Ok? ==> forall p :: p in r.value ==> Continues(m, path, p)
    decreases Budget(m, path, allowDupeSmall), Rank(path[|path| - 1]), 1
  {
    var last := path[|path| - 1];
    if last !in m then Err("KeyError: a cave without passages")
    else if exists step :: step in m[last] && Next(m, path, allowDupeSmall, step).Err? then
      Err("IndexError: an empty cave name")
    else
      Ok(set step, p | step in m[last] && p in Next(m, path, allowDupeSmall, step).value :: p)
  }

  /**
   * One turn of the loop of `build_paths` (lines 52-75): the paths found through `step`,
   * each continuing `path_so_far` through `step`.
   */
  function Next(m: AdjMap, path: seq<string>, allowDupeSmall: bool, step: string): (r: Result<set<seq<string>>>)
    requires path != [] && NoBigPassage(m) && path[|path| - 1] in m && step in m[path[|path| - 1]]
    ensures r.Ok? ==> forall p :: p in r.value ==> Continues(m, path, p) && p[|path|] == step
    decreases Budget(m, path, allowDupeSmall), Rank(path[|path| - 1]), 0
  {
    StepShrinks(m, path, allowDupeSmall, step);
    if step == "end" then Ok({path + ["end"]})
    else if step == "start" then Ok({})
    else if step == [] then Err("IndexError: an empty cave name")
    else
      var r: Result<set<seq<string>>> :=
        if IsBig(step) then Paths(m, path + [step], allowDupeSmall)
        else if IsSmall(step) then
          if step !in path then Paths(m, path + [step], allowDupeSmall)
          else if allowDupeSmall then Paths(m, path + [step], false)
          else Ok({})
        else Ok({});
      if r.Ok? then
        assert forall p :: p in r.value ==> Continues(m, path + [step], p);
        forall p | p in r.value
          ensures Continues(m, path, p) && p[|path|] == step
        {
          ContinuesStep(m, path, step, p);
        }
        r
      else r
  }

  /** The elements of a list of paths, as a set. */
  function Elements(ps: seq<seq<string>>): set<seq<string>>
  {
    set p | p in ps
  }

  /** The elements of two lists put together. */
  lemma ElementsAppend(ps: seq<seq<string>>, qs: seq<seq<string>>)
    ensures Elements(ps + qs) == Elements(ps) + Elements(qs)
  {
  }

  /** A list without repeats has as many elements as its set. */
  lemma {:induction false} DistinctElements(ps: seq<seq<string>>)
    requires Distinct(ps)
    ensures |Elements(ps)| == |ps|
  {
    if ps != [] {
      var init := ps[..|ps| - 1];
      assert ps == init + [ps[|ps| - 1]];
      assert Distinct(init);
      DistinctElements(init);
      assert Elements(ps) == Elements(init) + {ps[|ps| - 1]};
    }
  }

  /** The paths found through the steps in `done`. */
  ghost function FoundThrough(m: AdjMap, path: seq<string>, allowDupeSmall: bool, done: set<string>): set<seq<string>>
    requires path != [] && NoBigPassage(m) && path[|path| - 1] in m && done <= m[path[|path| - 1]]
    requires forall s :: s in done ==> Next(m, path, allowDupeSmall, s).Ok?
  {
    set s, p | s in done && p in Next(m, path, allowDupeSmall, s).value :: p
  }

  /**
   * What the loop of `build_paths` has gathered after the steps in `done`: each of them went
   * through without an exception, and `results` lists the paths found through them, each once.
   */
  ghost predicate Gathered(m: AdjMap, path: seq<string>, allowDupeSmall: bool, done: set<string>, results: seq<seq<string>>)
    requires path != [] && NoBigPassage(m) && path[|path| - 1] in m && done <= m[path[|path| - 1]]
  {
    (forall s :: s in done ==> Next(m, path, allowDupeSmall, s).Ok?) &&
    Elements(results) == FoundThrough(m, path, allowDupeSmall, done) && Distinct(results) &&
    (forall p :: p in results ==> |path| < |p| && p[|path|] in done)
  }

  /** Appending the paths found through one more step keeps the gathered list exact and without repeats. */
  lemma GatherStep(m: AdjMap, path: seq<string>, allowDupeSmall: bool, done: set<string>, results: seq<seq<string>>,
                   step: string, more: seq<seq<string>>)
    requires path != [] && NoBigPassage(m) && path[|path| - 1] in m && done <= m[path[|path| - 1]]
    requires step in m[path[|path| - 1]] && step !in done
    requires Gathered(m, path, allowDupeSmall, done, results)
    requires Next(m, path, allowDupeSmall, step).Ok?
    requires Elements(more) == Next(m, path, allowDupeSmall, step).value && Distinct(more)
    ensures Gathered(m, path, allowDupeSmall, done + {step}, results + more)
  {
    forall p | p in more
      ensures |path| < |p| && p[|path|] == step
    {
      assert p in Elements(more);
    }
    ConcatDistinct(results, more);
    ElementsAppend(results, more);
    FoundThroughStep(m, path, allowDupeSmall, done, step);
  }

  /** Taking one more step into account adds the paths found through it. */
  lemma FoundThroughStep(m: AdjMap, path: seq<string>, allowDupeSmall: bool, done: set<string>, step: string)
    requires path != [] && NoBigPassage(m) && path[|path| - 1] in m && done <= m[path[|path| - 1]]
    requires step in m[path[|path| - 1]]
    requires forall s :: s in done + {step} ==> Next(m, path, allowDupeSmall, s).Ok?
    ensures FoundThrough(m, path, allowDupeSmall, done + {step}) ==
      FoundThrough(m, path, allowDupeSmall, done) + Next(m, path, allowDupeSmall, step).value
  {
  }

  /**
   * `build_paths`, lines 44-76: the list it returns holds exactly the paths of `Paths`, each
   * once, and it raises exactly when `Paths` does.
   */
  method BuildPaths(m: AdjMap, path: seq<string>, allowDupeSmall: bool) returns (r: Result<seq<seq<string>>>)
    requires path != [] && NoBigPassage(m)
    ensures r.Ok? <==> Paths(m, path, allowDupeSmall).Ok?
    ensures r.Ok? ==> Elements(r.value) == Paths(m, path, allowDupeSmall).value && Distinct(r.value)
    decreases Budget(m, path, allowDupeSmall), Rank(path[|path| - 1]), 1
  {
    var last := path[|path| - 1];
    if last !in m {
      return Err("KeyError: a cave without passages");
    }
    var todo := m[last];
    ghost var done: set<string> := {};
    var results: seq<seq<string>> := [];
    while todo != {}
      invariant done + todo == m[last] && done !! todo
      invariant Gathered(m, path, allowDupeSmall, done, results)
      decreases |todo|
    {
      var step :| step in todo;
      var found := ContinueThrough(m, path, allowDupeSmall, step);
      if found.Err? {
        StepFails(m, path, allowDupeSmall, step);
        return Err(found.msg);
      }
      GatherStep(m, path, allowDupeSmall, done, results, step, found.value);
      results := results + found.value;
      done, todo := done + {step}, todo - {step};
    }
    assert done == m[last];
    GatheredAll(m, path, allowDupeSmall, results);
    return Ok(results);
  }

  /** One step that raises makes the whole of `build_paths` raise. */
  lemma StepFails(m: AdjMap, path: seq<string>, allowDupeSmall: bool, step: string)
    requires path != [] && NoBigPassage(m) && path[|path| - 1] in m && step in m[path[|path| - 1]]
    requires Next(m, path, allowDupeSmall, step).Err?
    ensures Paths(m, path, allowDupeSmall).Err?
  {
  }

  /** Once every step has gone through, the gathered list is the result of `build_paths`. */
  lemma GatheredAll(m: AdjMap, path: seq<string>, allowDupeSmall: bool, results: seq<seq<string>>)
    requires path != [] && NoBigPassage(m) && path[|path| - 1] in m
    requires Gathered(m, path, allowDupeSmall, m[path[|path| - 1]], results)
    ensures Paths(m, path, allowDupeSmall) == Ok(Elements(results)) && Distinct(results)
  {
  }

  /** One turn of the loop of `build_paths`, lines 53-75: the paths found through `step`. */
  method ContinueThrough(m: AdjMap, path: seq<string>, allowDupeSmall: bool, step: string)
    returns (found: Result<seq<seq<string>>>)
    requires path != [] && NoBigPassage(m) && path[|path| - 1] in m && step in m[path[|path| - 1]]
    ensures found.Ok? <==> Next(m, path, allowDupeSmall, step).Ok?
    ensures found.Ok? ==> Elements(found.value) == Next(m, path, allowDupeSmall, step).value && Distinct(found.value)
    decreases Budget(m, path, allowDupeSmall), Rank(path[|path| - 1]), 0
  {
    StepShrinks(m, path, allowDupeSmall, step);
    if step == "end" {
      found := Ok([path + ["end"]]);
    } else if step == "start" {
      found := Ok([]);
    } else if |step| == 0 {
      found := Err("IndexError: an empty cave name");
    } else if IsBig(step) {
      found := BuildPaths(m, path + [step], allowDupeSmall);
    } else if IsSmall(step) {
      if step in path {
        if allowDupeSmall {
          found := BuildPaths(m, path + [step], false);
        } else {
          found := Ok([]);
        }
      } else {
        found := BuildPaths(m, path + [step], allowDupeSmall);
      }
    } else {
      found := Ok([]);
    }
  }

  // ---------------------------------------------------------------------------
  // The small-cave rules
  // ---------------------------------------------------------------------------

  /** No small cave appears twice. */
  ghost predicate NoRepeat(p: seq<string>)
  {
    forall c :: IsSmall(c) ==> Count(p, c) <= 1
  }

  /** At most one small cave appears twice, and none three times. */
  ghost predicate OneRepeat(p: seq<string>)
  {
    (forall c :: IsSmall(c) ==> Count(p, c) <= 2) &&
    (forall c, d :: IsSmall(c) && IsSmall(d) && Count(p, c) == 2 && Count(p, d) == 2 ==> c == d)
  }

  /** What a path may hold so far: while a repeat is still allowed, none has happened. */
  ghost predicate WithinRule(p: seq<string>, allowDupeSmall: bool)
  {
    if allowDupeSmall then NoRepeat(p) else OneRepeat(p)
  }

  /**
   * Lines 62-72: with `allow_dupe_small` false no small cave repeats on any path found; with it
   * true at most one small cave is visited twice and none three times.
   */
  lemma {:induction false} PathsRule(m: AdjMap, path: seq<string>, allowDupeSmall: bool)
    requires path != [] && NoBigPassage(m) && Paths(m, path, allowDupeSmall).Ok? && "end" !in path
    ensures NoRepeat(path) && !allowDupeSmall ==> forall p :: p in Paths(m, path, allowDupeSmall).value ==> NoRepeat(p)
    ensures WithinRule(path, allowDupeSmall) ==> forall p :: p in Paths(m, path, allowDupeSmall).value ==> OneRepeat(p)
    decreases Budget(m, path, allowDupeSmall), Rank(path[|path| - 1]), 1
  {
    var last := path[|path| - 1];
    forall step | step in m[last] {
      NextRule(m, path, allowDupeSmall, step);
    }
  }

  /** The rules of `PathsRule` for the paths found through one step. */
  lemma {:induction false} NextRule(m: AdjMap, path: seq<string>, allowDupeSmall: bool, step: string)
    requires path != [] && NoBigPassage(m) && path[|path| - 1] in m && step in m[path[|path| - 1]]
    requires Next(m, path, allowDupeSmall, step).Ok? && "end" !in path
    ensures NoRepeat(path) && !allowDupeSmall ==> forall p :: p in Next(m, path, allowDupeSmall, step).value ==> NoRepeat(p)
    ensures WithinRule(path, allowDupeSmall) ==> forall p :: p in Next(m, path, allowDupeSmall, step).value ==> OneRepeat(p)
    decreases Budget(m, path, allowDupeSmall), Rank(path[|path| - 1]), 0
  {
    StepShrinks(m, path, allowDupeSmall, step);
    var longer := path + [step];
    if step == "end" {
      SnocFresh(path, step);
    } else if step == "start" || step == [] {
    } else if IsBig(step) {
      SnocFresh(path, step);
      PathsRule(m, longer, allowDupeSmall);
    } else if IsSmall(step) {
      if step !in path {
        SnocFresh(path, step);
        PathsRule(m, longer, allowDupeSmall);
      } else if allowDupeSmall {
        if NoRepeat(path) {
          SnocRepeat(path, step);
        }
        PathsRule(m, longer, false);
      }
    }
  }

  /** Stepping to a big cave or to a small cave not visited yet keeps both rules. */
  lemma SnocFresh(path: seq<string>, step: string)
    requires !IsSmall(step) || step !in path
    ensures NoRepeat(path) ==> NoRepeat(path + [step])
    ensures OneRepeat(path) ==> OneRepeat(path + [step])
  {
    forall c {
      CountSnoc(path, step, c);
    }
    CountPositive(path, step);
  }

  /** Revisiting a small cave on a path without repeats leaves exactly one repeat. */
  lemma SnocRepeat(path: seq<string>, step: string)
    requires IsSmall(step) && step in path && NoRepeat(path)
    ensures OneRepeat(path + [step])
  {
    forall c {
      CountSnoc(path, step, c);
    }
    CountPositive(path, step);
  }

  // ---------------------------------------------------------------------------
  // Exactly the wanted paths
  // ---------------------------------------------------------------------------

  /** Step `i` of `p` revisits a small cave seen earlier on `p`. */
  predicate RevisitAt(p: seq<string>, i: nat)
    requires i < |p|
  {
    IsSmall(p[i]) && p[i] in p[..i]
  }

  /** The number of revisits among steps `lo` up to, but not including, the final step to `end`. */
  function Revisits(p: seq<string>, lo: nat): nat
    decreases |p| - lo
  {
    if lo + 1 >= |p| then 0 else (if RevisitAt(p, lo) then 1 else 0) + Revisits(p, lo + 1)
  }

  /**
   * A path the puzzle asks for, continuing `path`: it goes along passages to `end` without
   * re-entering `start`, passes only through big and small caves before it arrives, and
   * revisits a small cave at most once when a repeat is allowed and never otherwise.
   */
  ghost predicate Wanted(m: AdjMap, path: seq<string>, allowDupeSmall: bool, p: seq<string>)
  {
    Continues(m, path, p) &&
    (forall i :: |path| <= i < |p| - 1 ==> p[i] != "end" && (IsBig(p[i]) || IsSmall(p[i]))) &&
    Revisits(p, |path|) <= (if allowDupeSmall then 1 else 0)
  }

  /**
   * The search of `build_paths` is exact: when it raises nothing, it finds a path exactly when
   * the path is wanted.
   */
  lemma {:induction false} PathsExact(m: AdjMap, path: seq<string>, allowDupeSmall: bool, p: seq<string>)
    requires path != [] && NoBigPassage(m) && Paths(m, path, allowDupeSmall).Ok?
    ensures p in Paths(m, path, allowDupeSmall).value <==> Wanted(m, path, allowDupeSmall, p)
    decreases Budget(m, path, allowDupeSmall), Rank(path[|path| - 1]), 1
  {
    var last := path[|path| - 1];
    if p in Paths(m, path, allowDupeSmall).value {
      var step :| step in m[last] && p in Next(m, path, allowDupeSmall, step).value;
      NextExact(m, path, allowDupeSmall, step, p);
    }
    if Wanted(m, path, allowDupeSmall, p) {
      var step := p[|path|];
      assert step in m[last];
      NextExact(m, path, allowDupeSmall, step, p);
    }
  }

  /** The paths found through one step are exactly the wanted ones that take that step. */
  lemma {:induction false} NextExact(m: AdjMap, path: seq<string>, allowDupeSmall: bool, step: string, p: seq<string>)
    requires path != [] && NoBigPassage(m) && path[|path| - 1] in m && step in m[path[|path| - 1]]
    requires Next(m, path, allowDupeSmall, step).Ok?
    ensures p in Next(m, path, allowDupeSmall, step).value <==> Wanted(m, path, allowDupeSmall, p) && p[|path|] == step
    decreases Budget(m, path, allowDupeSmall), Rank(path[|path| - 1]), 0
  {
    StepShrinks(m, path, allowDupeSmall, step);
    if step == "end" {
      if Wanted(m, path, allowDupeSmall, p) && p[|path|] == step {
        assert |p| == |path| + 1;
        assert p == p[..|path|] + [p[|path|]];
      }
    } else if step == "start" {
    } else if IsBig(step) || IsSmall(step) {
      var again := IsSmall(step) && step in path;
      if again && !allowDupeSmall {
        if Wanted(m, path, allowDupeSmall, p) && p[|path|] == step {
          WantedStep(m, path, step, p);
        }
      } else {
        var next := if again then false else allowDupeSmall;
        PathsExact(m, path + [step], next, p);
        WantedStep(m, path, step, p);
      }
    }
  }

  /**
   * Taking `step` first: a path is wanted from `path + [step]` exactly when it is wanted from
   * `path` and takes `step`, the repeat being used up when `step` revisits a small cave.
   */
  lemma WantedStep(m: AdjMap, path: seq<string>, step: string, p: seq<string>)
    requires path != [] && path[|path| - 1] in m && step in m[path[|path| - 1]]
    requires step != "end" && step != "start" && (IsBig(step) || IsSmall(step))
    ensures var again := IsSmall(step) && step in path;
      (again ==> (Wanted(m, path, true, p) && p[|path|] == step <==> Wanted(m, path + [step], false, p))) &&
      (again ==> !(Wanted(m, path, false, p) && p[|path|] == step)) &&
      (!again ==> forall allow :: Wanted(m, path, allow, p) && p[|path|] == step <==> Wanted(m, path + [step], allow, p))
  {
    var longer := path + [step];
    if Continues(m, longer, p) {
      ContinuesStep(m, path, step, p);
    }
    if Continues(m, path, p) && p[|path|] == step {
      assert |path| + 1 < |p|;
      assert p[..|path| + 1] == longer;
      assert Continues(m, longer, p);
    }
    if |path| + 1 < |p| && p[..|path|] == path {
      assert p[..|path|] == path;
      assert Revisits(p, |path|) == (if RevisitAt(p, |path|) then 1 else 0) + Revisits(p, |path| + 1);
    }
  }

  // ---------------------------------------------------------------------------
  // part_a and part_b
  // ---------------------------------------------------------------------------

  /** With no two big caves joined in the input, none are joined in the map. */
  lemma NoBigPassageFromLines(lines: seq<string>)
    requires Adjacency(lines).Ok? && NoBigPair(lines)
    ensures NoBigPassage(Adjacency(lines).value)
  {
    var m := Adjacency(lines).value;
    AdjacencyMeaning(lines);
    forall a, b | a in m && b in m[a] && IsBig(a)
      ensures !IsBig(b)
    {
      var k :| Passage(lines, k, a, b);
    }
  }

  /**
   * The paths counted from `start`: each begins at `start`, goes along passages to `end`, never
   * returns to `start`, and visits no small cave twice, or (with a repeat allowed) at most one
   * small cave twice and none three times.
   */
  lemma StartPaths(m: AdjMap, allowDupeSmall: bool)
    requires NoBigPassage(m) && Paths(m, ["start"], allowDupeSmall).Ok?
    ensures forall p :: p in Paths(m, ["start"], allowDupeSmall).value ==>
      p[0] == "start" && p[|p| - 1] == "end" &&
      (forall i :: 0 <= i < |p| - 1 ==> p[i] in m && p[i + 1] in m[p[i]]) &&
      (forall i :: 1 <= i < |p| ==> p[i] != "start") &&
      OneRepeat(p) && (!allowDupeSmall ==> NoRepeat(p))
  {
    forall c {
      CountSnoc([], "start", c);
    }
    assert NoRepeat(["start"]);
    PathsRule(m, ["start"], allowDupeSmall);
    forall p | p in Paths(m, ["start"], allowDupeSmall).value
      ensures p[0] == "start"
    {
      assert p[..1] == ["start"];
    }
  }

  /**
   * `part_a`, lines 79-85: the number of paths from `start` to `end`, with `allow_dupe_small`
   * false in the first part. A malformed line or a missing `start` raises.
   */
  method PartA(lines: seq<string>, allowDupeSmall: bool) returns (r: Result<nat>)
    requires NoBigPair(lines)
    ensures Adjacency(lines).Err? ==> r.Err?
    ensures Adjacency(lines).Ok? ==> NoBigPassage(Adjacency(lines).value)
    ensures Adjacency(lines).Ok? ==> (r.Ok? <==> Paths(Adjacency(lines).value, ["start"], allowDupeSmall).Ok?)
    ensures Adjacency(lines).Ok? && r.Ok? ==> r.value == |Paths(Adjacency(lines).value, ["start"], allowDupeSmall).value|
  {
    var adjacency := BuildAdjacencyMap(lines);
    if adjacency.Err? {
      return Err(adjacency.msg);
    }
    NoBigPassageFromLines(lines);
    var paths := BuildPaths(adjacency.value, ["start"], allowDupeSmall);
    if paths.Err? {
      return Err(paths.msg);
    }
    DistinctElements(paths.value);
    return Ok(|paths.value|);
  }

  /** `part_b`, lines 88-93: the same count with one small cave allowed twice. */
  method PartB(lines: seq<string>) returns (r: Result<nat>)
    requires NoBigPair(lines)
    ensures Adjacency(lines).Err? ==> r.Err?
    ensures Adjacency(lines).Ok? ==> NoBigPassage(Adjacency(lines).value)
    ensures Adjacency(lines).Ok? ==> (r.Ok? <==> Paths(Adjacency(lines).value, ["start"], true).Ok?)
    ensures Adjacency(lines).Ok? && r.Ok? ==> r.value == |Paths(Adjacency(lines).value, ["start"], true).value|
  {
    r := PartA(lines, true);
  }
}
