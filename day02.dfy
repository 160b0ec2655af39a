/**
 * Day 2, piloting the submarine: each line is a command (`forward`, `down` or `up`) and
 * an amount. In the first part down and up change the depth directly; in the second they
 * change the aim, and moving forward also dives by aim times the amount. Both answers are
 * the horizontal position times the depth.
 */
module Day02 {
  import opened Util

  datatype Kind = Forward | Down | Up

  datatype Command = Command(kind: Kind, amount: int)

  /** `command, amount = line.split(' ')`, `int(amount)`, then the match on the command word, failing in that order. */
  function ParseCommand(line: string): (r: Result<Command>)
    ensures r.Ok? ==> |Split(line, ' ')| == 2 && ParseInt(Split(line, ' ')[1]) == Some(r.value.amount)
    ensures r.Ok? ==> Split(line, ' ')[0] == match r.value.kind
                                             case Forward => "forward"
                                             case Down => "down"
                                             case Up => "up"
    ensures (|Split(line, ' ')| == 2 && ParseInt(Split(line, ' ')[1]).Some? &&
             Split(line, ' ')[0] in {"forward", "down", "up"}) ==> r.Ok?
  {
    var parts := Split(line, ' ');
    if |parts| != 2 then Err("ValueError: wrong number of values to unpack")
    else
      match ParseInt(parts[1])
      case None => Err("ValueError: invalid literal for int()")
      case Some(amount) =>
        if parts[0] == "forward" then Ok(Command(Forward, amount))
        else if parts[0] == "down" then Ok(Command(Down, amount))
        else if parts[0] == "up" then Ok(Command(Up, amount))
        else Err("Exception: Unrecognized command")
  }

  /** The commands of all lines, or the error of the first line that is not one. */
  function ParseCommands(lines: seq<string>): Result<seq<Command>>
  {
    if |lines| == 0 then Ok([])
    else
      match ParseCommands(lines[..|lines| - 1])
      case Err(e) => Err(e)
      case Ok(init) =>
        match ParseCommand(lines[|lines| - 1])
        case Err(e) => Err(e)
        case Ok(c) => Ok(init + [c])
  }

  /** Parsing succeeds exactly when every line is a command, and then yields each line's command in order. */
  lemma ParseCommandsMeaning(lines: seq<string>)
    ensures var r := ParseCommands(lines);
      && (r.Ok? ==> |r.value| == |lines| && forall k :: 0 <= k < |lines| ==> ParseCommand(lines[k]) == Ok(r.value[k]))
      && (r.Err? <==> exists k :: 0 <= k < |lines| && ParseCommand(lines[k]).Err?)
  {
    ParsedCommands(lines);
    ParseCommandsFails(lines);
    if ParseCommands(lines).Ok? {
      forall k | 0 <= k < |lines|
        ensures ParseCommand(lines[k]).Ok?
      {
      }
    }
  }

  /** A successful parse holds each line's command in order. */
  lemma ParsedCommands(lines: seq<string>)
    ensures var r := ParseCommands(lines);
      r.Ok? ==> |r.value| == |lines| && forall k :: 0 <= k < |lines| ==> ParseCommand(lines[k]) == Ok(r.value[k])
  {
    ParsedPrefix(lines, |lines|);
    assert lines[..|lines|] == lines;
  }

  /** A successful parse of the first n lines holds each of their commands in order. */
  lemma {:induction false} ParsedPrefix(lines: seq<string>, n: nat)
    requires n <= |lines|
    ensures var r := ParseCommands(lines[..n]);
      r.Ok? ==> |r.value| == n && forall k :: 0 <= k < n ==> ParseCommand(lines[k]) == Ok(r.value[k])
  {
    if n > 0 && ParseCommands(lines[..n]).Ok? {
      ParsedPrefix(lines, n - 1);
      var pre := lines[..n];
      assert pre[..n - 1] == lines[..n - 1];
      var ri, rl := ParseCommands(lines[..n - 1]), ParseCommand(lines[n - 1]);
      var cs := ri.value + [rl.value];
      assert ParseCommands(pre) == Ok(cs);
      forall k | 0 <= k < n
        ensures ParseCommand(lines[k]) == Ok(cs[k])
      {
        if k < n - 1 {
          assert cs[k] == ri.value[k];
        }
      }
    }
  }

  /** A failed parse has a line that is not a command. */
  lemma {:induction false} ParseCommandsFails(lines: seq<string>)
    ensures ParseCommands(lines).Err? ==> exists k :: 0 <= k < |lines| && ParseCommand(lines[k]).Err?
  {
    if |lines| > 0 && ParseCommands(lines).Err? {
      var init, last := lines[..|lines| - 1], lines[|lines| - 1];
      if ParseCommands(init).Err? {
        ParseCommandsFails(init);
        var k :| 0 <= k < |init| && ParseCommand(init[k]).Err?;
        assert lines[k] == init[k];
      } else {
        assert ParseCommand(lines[|lines| - 1]).Err?;
      }
    }
  }

  /** One more line: parsing the first i + 1 lines is parsing the first i and then line i. */
  lemma ParseStep(lines: seq<string>, i: nat, cs: seq<Command>)
    requires i < |lines| && ParseCommands(lines[..i]) == Ok(cs)
    ensures ParseCommand(lines[i]).Err? ==> ParseCommands(lines[..i + 1]) == Err(ParseCommand(lines[i]).msg)
    ensures ParseCommand(lines[i]).Ok? ==> ParseCommands(lines[..i + 1]) == Ok(cs + [ParseCommand(lines[i]).value])
  {
    assert lines[..i + 1][..i] == lines[..i];
  }

  /** The sum of the amounts of the commands of one kind. */
  function Total(cs: seq<Command>, kind: Kind): int
  {
    if |cs| == 0 then 0
    else Total(cs[..|cs| - 1], kind) + if cs[|cs| - 1].kind == kind then cs[|cs| - 1].amount else 0
  }

  /** Down minus up: the depth of the first part, and the aim of the second. */
  function Net(cs: seq<Command>): int
  {
    Total(cs, Down) - Total(cs, Up)
  }

  /** The second part's depth: every forward command dives by the aim in force times its amount. */
  function AimedDepth(cs: seq<Command>): int
  {
    if |cs| == 0 then 0
    else
      var init, c := cs[..|cs| - 1], cs[|cs| - 1];
      AimedDepth(init) + if c.kind == Forward then Net(init) * c.amount else 0
  }

  /** Appending one command adds its amount to the total of its own kind only. */
  lemma TotalSnoc(cs: seq<Command>, c: Command, kind: Kind)
    ensures Total(cs + [c], kind) == Total(cs, kind) + if c.kind == kind then c.amount else 0
  {
    assert (cs + [c])[..|cs|] == cs;
  }

  /** Appending one command steers the aim by a down or up, and dives by the aim in force on a forward. */
  lemma AimedSnoc(cs: seq<Command>, c: Command)
    ensures Net(cs + [c]) == Net(cs) + match c.kind
                                         case Down => c.amount
                                         case Up => -c.amount
                                         case Forward => 0
    ensures AimedDepth(cs + [c]) == AimedDepth(cs) + if c.kind == Forward then Net(cs) * c.amount else 0
  {
    TotalSnoc(cs, c, Down);
    TotalSnoc(cs, c, Up);
    assert (cs + [c])[..|cs|] == cs;
  }

  /** The order of the commands does not matter to the first part: totals over a concatenation add up. */
  lemma {:induction false} TotalAppend(xs: seq<Command>, ys: seq<Command>, kind: Kind)
    ensures Total(xs + ys, kind) == Total(xs, kind) + Total(ys, kind)
    decreases |ys|
  {
    if |ys| == 0 {
      assert xs + ys == xs;
    } else {
      var init, c := ys[..|ys| - 1], ys[|ys| - 1];
      assert xs + ys == (xs + init) + [c];
      assert ys == init + [c];
      TotalAppend(xs, init, kind);
      TotalSnoc(xs + init, c, kind);
      TotalSnoc(init, c, kind);
    }
  }

  /** Without forward commands the aim never matters: the second part stays at depth 0. */
  lemma {:induction false} NoForwardNoDepth(cs: seq<Command>)
    requires forall k :: 0 <= k < |cs| ==> cs[k].kind != Forward
    ensures AimedDepth(cs) == 0 && Total(cs, Forward) == 0
  {
    if |cs| > 0 {
      NoForwardNoDepth(cs[..|cs| - 1]);
    }
  }

  /** With every down and up before every forward, the second part dives by the final aim times the distance. */
  lemma {:induction false} SteerThenMove(steer: seq<Command>, moves: seq<Command>)
    requires forall k :: 0 <= k < |steer| ==> steer[k].kind != Forward
    requires forall k :: 0 <= k < |moves| ==> moves[k].kind == Forward
    ensures AimedDepth(steer + moves) == Net(steer) * Total(moves, Forward)
    decreases |moves|
  {
    if |moves| == 0 {
      assert steer + moves == steer;
      NoForwardNoDepth(steer);
    } else {
      var init, c := moves[..|moves| - 1], moves[|moves| - 1];
      assert steer + moves == (steer + init) + [c];
      assert (steer + moves)[..|steer + moves| - 1] == steer + init;
      SteerThenMove(steer, init);
      TotalAppend(steer, init, Down);
      TotalAppend(steer, init, Up);
      OnlyForward(init);
      var aim, before := Net(steer), Total(init, Forward);
      assert Net(steer + init) == aim;
      assert AimedDepth(steer + moves) == aim * before + aim * c.amount;
      assert Total(moves, Forward) == before + c.amount;
      Distribute(aim, before, c.amount);
    }
  }

  /** Diving by the aim over two stretches is diving by it over their sum. */
  lemma Distribute(a: int, x: int, y: int)
    ensures a * x + a * y == a * (x + y)
  {
  }

  /** Forward commands alone add nothing to down or up. */
  lemma {:induction false} OnlyForward(cs: seq<Command>)
    requires forall k :: 0 <= k < |cs| ==> cs[k].kind == Forward
    ensures Total(cs, Down) == 0 && Total(cs, Up) == 0
  {
    if |cs| > 0 {
      OnlyForward(cs[..|cs| - 1]);
    }
  }

  /** `part_a`: forward totals the forward amounts, depth is down minus up, and the answer is their product. */
  method PartA(lines: seq<string>) returns (r: Result<int>)
    ensures ParseCommands(lines).Err? ==> r == Err(ParseCommands(lines).msg)
    ensures ParseCommands(lines).Ok? ==> var cs := ParseCommands(lines).value;
      r == Ok(Total(cs, Forward) * Net(cs))
  {
    var forward, depth := 0, 0;
    ghost var cs: seq<Command> := [];
    for i := 0 to |lines|
      invariant ParseCommands(lines[..i]) == Ok(cs)
      invariant forward == Total(cs, Forward) && depth == Net(cs)
    {
      var c := ParseCommand(lines[i]);
      ParseStep(lines, i, cs);
      if c.Err? {
        ParseStopsAt(lines, i);
        return Err(c.msg);
      }
      TotalSnoc(cs, c.value, Forward);
      TotalSnoc(cs, c.value, Down);
      TotalSnoc(cs, c.value, Up);
      match c.value.kind {
        case Forward => forward := forward + c.value.amount;
        case Down => depth := depth + c.value.amount;
        case Up => depth := depth - c.value.amount;
      }
      cs := cs + [c.value];
    }
    assert lines[..|lines|] == lines;
    r := Ok(forward * depth);
  }

  /** `part_b`: down and up steer the aim, forward moves and dives by aim times the amount. */
  method PartB(lines: seq<string>) returns (r: Result<int>)
    ensures ParseCommands(lines).Err? ==> r == Err(ParseCommands(lines).msg)
    ensures ParseCommands(lines).Ok? ==> var cs := ParseCommands(lines).value;
      r == Ok(Total(cs, Forward) * AimedDepth(cs))
  {
    var forward, depth, aim := 0, 0, 0;
    ghost var cs: seq<Command> := [];
    for i := 0 to |lines|
      invariant ParseCommands(lines[..i]) == Ok(cs)
      invariant forward == Total(cs, Forward) && depth == AimedDepth(cs) && aim == Net(cs)
    {
      var c := ParseCommand(lines[i]);
      ParseStep(lines, i, cs);
      if c.Err? {
        ParseStopsAt(lines, i);
        return Err(c.msg);
      }
      var cmd := c.value;
      TotalSnoc(cs, cmd, Forward);
      AimedSnoc(cs, cmd);
      match cmd.kind {
        case Forward =>
          forward := forward + cmd.amount;
          depth := depth + aim * cmd.amount;
        case Down => aim := aim + cmd.amount;
        case Up => aim := aim - cmd.amount;
      }
      cs := cs + [cmd];
    }
    assert lines[..|lines|] == lines;
    r := Ok(forward * depth);
  }

  /** Parsing stops at the first line that is not a command, with that line's error. */
  lemma {:induction false} ParseStopsAt(lines: seq<string>, i: nat)
    requires i < |lines| && ParseCommands(lines[..i]).Ok? && ParseCommand(lines[i]).Err?
    ensures ParseCommands(lines) == Err(ParseCommand(lines[i]).msg)
    decreases |lines|
  {
    if i < |lines| - 1 {
      var init := lines[..|lines| - 1];
      assert init[..i] == lines[..i];
      ParseStopsAt(init, i);
    } else {
      assert lines[..|lines| - 1] == lines[..i];
    }
  }
}
