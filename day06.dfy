/**
 * Day 6, lanternfish: a histogram of fish by timer age (0..8) is advanced one day at a
 * time. A fish at age 0 spawns a new fish at age 8 and itself restarts at age 6; every
 * other fish gets one day younger. The answer is the population after a number of days.
 */
module Day06 {
  import opened Util

  const MaxAge: nat := 8
  const NumAges: nat := MaxAge + 1
  /** After spawning, a fish restarts this many ages below `MaxAge`. */
  const SeniorDiscount: nat := 2

  // ---------------------------------------------------------------------------
  // The age histogram
  // ---------------------------------------------------------------------------

  /** `[Counter(population).get(age, 0) for age in range(NUM_AGES)]`. */
  function Histogram(pop: seq<int>): (h: seq<nat>)
    ensures |h| == NumAges
    ensures forall a :: 0 <= a < NumAges ==> h[a] == Count(pop, a)
  {
    if |pop| == 0 then seq(NumAges, _ => 0)
    else
      var h := Histogram(pop[..|pop| - 1]);
      var x := pop[|pop| - 1];
      if 0 <= x < NumAges then h[x := h[x] + 1] else h
  }

  /** Raising one entry raises the sum by as much. */
  lemma {:induction false} SumUpdate(xs: seq<int>, i: nat, v: int)
    requires i < |xs|
    ensures Sum(xs[i := v]) == Sum(xs) - xs[i] + v
    decreases |xs|
  {
    var n := |xs|;
    var ys := xs[i := v];
    if i < n - 1 {
      assert ys[..n - 1] == xs[..n - 1][i := v];
      SumUpdate(xs[..n - 1], i, v);
    } else {
      assert ys[..n - 1] == xs[..n - 1];
    }
  }

  /** The all-zero histogram holds no fish. */
  lemma SumZeros(n: nat)
    ensures Sum(seq(n, _ => 0)) == 0
  {
    if n > 0 {
      assert seq(n, _ => 0)[..n - 1] == seq(n - 1, _ => 0);
      SumZeros(n - 1);
    }
  }

  /** Every fish of a valid age is counted once: the histogram totals the population. */
  lemma {:induction false} HistogramTotal(pop: seq<int>)
    requires forall k :: 0 <= k < |pop| ==> 0 <= pop[k] < NumAges
    ensures Sum(Histogram(pop)) == |pop|
    decreases |pop|
  {
    if |pop| == 0 {
      SumZeros(NumAges);
    } else {
      var init := pop[..|pop| - 1];
      HistogramTotal(init);
      var x := pop[|pop| - 1];
      SumUpdate(Histogram(init), x, Histogram(init)[x] + 1);
    }
  }

  // ---------------------------------------------------------------------------
  // One day: the histogram step, and the individual fish it stands for
  // ---------------------------------------------------------------------------

  /** The histogram `build_next_generation` appends after `last`. */
  function NextGen(last: seq<nat>): (next: seq<nat>)
    requires |last| == NumAges
    ensures |next| == NumAges
  {
    seq(NumAges, a requires 0 <= a < NumAges =>
      if a == MaxAge then last[0]
      else if a == MaxAge - SeniorDiscount then last[0] + last[a + 1]
      else last[a + 1])
  }

  /** The sum of the first k + 1 entries adds entry k to the sum of the first k. */
  lemma SumPrefixStep(xs: seq<int>, k: nat)
    requires k < |xs|
    ensures Sum(xs[..k + 1]) == Sum(xs[..k]) + xs[k]
  {
    assert xs[..k + 1][..k] == xs[..k];
  }

  /** The sum of a histogram, entry by entry. */
  lemma SumNine(xs: seq<int>)
    requires |xs| == NumAges
    ensures Sum(xs) == xs[0] + xs[1] + xs[2] + xs[3] + xs[4] + xs[5] + xs[6] + xs[7] + xs[8]
  {
    assert xs[..0] == [];
    SumPrefixStep(xs, 0);
    SumPrefixStep(xs, 1);
    SumPrefixStep(xs, 2);
    SumPrefixStep(xs, 3);
    SumPrefixStep(xs, 4);
    SumPrefixStep(xs, 5);
    SumPrefixStep(xs, 6);
    SumPrefixStep(xs, 7);
    SumPrefixStep(xs, 8);
    assert xs[..9] == xs;
  }

  /** Each day the population grows by the number of fish at age 0, so it never shrinks. */
  lemma NextGenSum(last: seq<nat>)
    requires |last| == NumAges
    ensures Sum(NextGen(last)) == Sum(last) + last[0]
    ensures Sum(NextGen(last)) >= Sum(last)
  {
    SumNine(last);
    SumNine(NextGen(last));
  }

  /** The puzzle's rule for one fish: a timer at 0 restarts at 6 and spawns a fish at 8. */
  function TickOne(f: int): seq<int>
  {
    if f == 0 then [MaxAge - SeniorDiscount, MaxAge] else [f - 1]
  }

  /** Every fish of a school after one day, in order. */
  function Tick(fish: seq<int>): seq<int>
  {
    if |fish| == 0 then [] else Tick(fish[..|fish| - 1]) + TickOne(fish[|fish| - 1])
  }

  predicate ValidAges(fish: seq<int>)
  {
    forall k :: 0 <= k < |fish| ==> 0 <= fish[k] < NumAges
  }

  /** After one day every fish still has a valid age. */
  lemma {:induction false} TickValid(fish: seq<int>)
    requires ValidAges(fish)
    ensures ValidAges(Tick(fish))
    decreases |fish|
  {
    if |fish| > 0 {
      var init := fish[..|fish| - 1];
      TickValid(init);
      var t, u := Tick(init), TickOne(fish[|fish| - 1]);
      assert Tick(fish) == t + u;
      forall k | 0 <= k < |t + u|
        ensures 0 <= (t + u)[k] < NumAges
      {
        if k < |t| {
          assert (t + u)[k] == t[k];
        }
      }
    }
  }

  /** How many fish of age a one fish becomes after one day. */
  lemma CountTickOne(f: int, a: int)
    requires 0 <= a < NumAges
    ensures Count(TickOne(f), a) ==
              if f == 0 then (if a == MaxAge || a == MaxAge - SeniorDiscount then 1 else 0)
              else (if f - 1 == a then 1 else 0)
  {
    if f == 0 {
      var six: seq<int> := [MaxAge - SeniorDiscount];
      assert TickOne(f)[..1] == six && six[..0] == [];
      assert Count(six, a) == (if a == MaxAge - SeniorDiscount then 1 else 0);
    } else {
      assert TickOne(f)[..0] == [];
    }
  }

  /** Counting an age among one more fish. */
  lemma CountSnoc(xs: seq<int>, x: int, a: int)
    ensures Count(xs + [x], a) == Count(xs, a) + (if x == a then 1 else 0)
  {
    assert (xs + [x])[..|xs|] == xs;
  }

  /** Counting one age among the fish after one day. */
  lemma {:induction false} CountTick(fish: seq<int>, a: int)
    requires ValidAges(fish) && 0 <= a < NumAges
    ensures Count(Tick(fish), a) ==
              if a == MaxAge then Count(fish, 0)
              else if a == MaxAge - SeniorDiscount then Count(fish, 0) + Count(fish, a + 1)
              else Count(fish, a + 1)
    decreases |fish|
  {
    if |fish| > 0 {
      var init, f := fish[..|fish| - 1], fish[|fish| - 1];
      CountTick(init, a);
      CountAppend(Tick(init), TickOne(f), a);
      CountTickOne(f, a);
      SnocLast(fish);
      CountSnoc(init, f, 0);
      CountSnoc(init, f, a + 1);
    }
  }

  /** The histogram step is exact: it counts the fish the individual rule gives. */
  lemma TickHistogram(fish: seq<int>)
    requires ValidAges(fish)
    ensures Histogram(Tick(fish)) == NextGen(Histogram(fish))
  {
    var h, t := Histogram(fish), Histogram(Tick(fish));
    forall a | 0 <= a < NumAges
      ensures t[a] == NextGen(h)[a]
    {
      CountTick(fish, a);
    }
  }

  // ---------------------------------------------------------------------------
  // Many days
  // ---------------------------------------------------------------------------

  /** The histogram after `days` days. */
  function Simulate(h: seq<nat>, days: nat): (r: seq<nat>)
    requires |h| == NumAges
    ensures |r| == NumAges
  {
    if days == 0 then h else NextGen(Simulate(h, days - 1))
  }

  function TickDays(fish: seq<int>, days: nat): seq<int>
  {
    if days == 0 then fish else Tick(TickDays(fish, days - 1))
  }

  /** Simulating the histogram counts exactly the fish the individual rule produces. */
  lemma {:induction false} SimulateCountsFish(fish: seq<int>, days: nat)
    requires ValidAges(fish)
    ensures ValidAges(TickDays(fish, days))
    ensures Histogram(TickDays(fish, days)) == Simulate(Histogram(fish), days)
    ensures Sum(Simulate(Histogram(fish), days)) == |TickDays(fish, days)|
  {
    if days > 0 {
      SimulateCountsFish(fish, days - 1);
      TickValid(TickDays(fish, days - 1));
      TickHistogram(TickDays(fish, days - 1));
    }
    HistogramTotal(TickDays(fish, days));
  }

  /** The population never shrinks. */
  lemma {:induction false} SimulateGrows(h: seq<nat>, days: nat)
    requires |h| == NumAges
    ensures Sum(Simulate(h, days)) >= Sum(h)
  {
    if days > 0 {
      SimulateGrows(h, days - 1);
      NextGenSum(Simulate(h, days - 1));
    }
  }

  // ---------------------------------------------------------------------------
  // The list of generations that build_next_generation appends to
  // ---------------------------------------------------------------------------

  class Generations {
    /** `gens`: one histogram per day simulated so far, the first one included. */
    var gens: seq<seq<nat>>

    ghost predicate Valid()
      reads this
    {
      |gens| > 0 && forall k :: 0 <= k < |gens| ==> |gens[k]| == NumAges
    }

    /** `build_first_generation(initial_population)`. */
    constructor (pop: seq<int>)
      ensures Valid() && gens == [Histogram(pop)]
    {
      gens := [Histogram(pop)];
    }

    /** `build_next_generation(gens)`: appends the next day's histogram and nothing else. */
    method BuildNextGeneration()
      requires Valid()
      modifies this
      ensures Valid()
      ensures gens == old(gens) + [NextGen(old(gens)[|old(gens)| - 1])]
    {
      var next := new nat[NumAges](_ => 0);
      var last := gens[|gens| - 1];
      next[MaxAge] := last[0];
      next[MaxAge - SeniorDiscount] := last[0];
      for age := 0 to NumAges - 1
        invariant gens == old(gens)
        invariant forall a :: 0 <= a < age ==> next[a] == NextGen(last)[a]
        invariant forall a :: age <= a < NumAges ==>
                    next[a] == (if a == MaxAge || a == MaxAge - SeniorDiscount then last[0] else 0)
      {
        next[age] := next[age] + last[age + 1];
      }
      assert next[..] == NextGen(last);
      gens := gens + [next[..]];
    }
  }

  // ---------------------------------------------------------------------------
  // part_a and part_b
  // ---------------------------------------------------------------------------

  /** The starting ages on the first line, or the error reading them raises. */
  function InitialPopulation(lines: seq<string>): (r: Result<seq<int>>)
    ensures r.Ok? <==> |lines| > 0 && ParseInts(Split(lines[0], ',')).Ok?
  {
    if |lines| == 0 then Err("IndexError: list index out of range")
    else ParseInts(Split(lines[0], ','))
  }

  /**
   * `range(1, num_days|+1)` parses as `range(1, num_days | 1)`: the number of days the
   * loop of `part_a` actually runs.
   */
  function SourceDays(numDays: int): nat
  {
    var stop := if numDays % 2 == 0 then numDays + 1 else numDays;
    if stop > 1 then stop - 1 else 0
  }

  /** For the even day counts the puzzle uses (80 and 256) the loop runs every day. */
  lemma SourceDaysEven(numDays: nat)
    requires numDays % 2 == 0
    ensures SourceDays(numDays) == numDays
  {
  }

  /** For an odd day count the loop runs one day short. */
  lemma SourceDaysOddShort(numDays: nat)
    requires numDays % 2 == 1
    ensures SourceDays(numDays) == numDays - 1
  {
  }

  /** One fish at age 0 after one day: the loop as written answers 1, the puzzle 2. */
  lemma OneDayCounterexample()
    ensures Sum(Simulate(Histogram([0]), SourceDays(1))) == 1
    ensures Sum(Simulate(Histogram([0]), 1)) == 2
  {
    SimulateCountsFish([0], 0);
    SimulateCountsFish([0], 1);
    assert TickDays([0], 1) == Tick([0]) == [6, 8];
  }

  /** The loop of `part_a` as written, running `SourceDays(numDays)` days. */
  method PartAAsWritten(lines: seq<string>, numDays: int) returns (r: Result<int>)
    ensures r.Ok? <==> InitialPopulation(lines).Ok?
    ensures r.Ok? ==> r.value == Sum(Simulate(Histogram(InitialPopulation(lines).value), SourceDays(numDays)))
  {
    var pop := InitialPopulation(lines);
    if pop.Err? {
      return Err(pop.msg);
    }
    var g := new Generations(pop.value);
    var stop := if numDays % 2 == 0 then numDays + 1 else numDays;
    var day := 1;
    ghost var done: nat := 0;
    while day < stop
      invariant g.Valid() && g.gens[|g.gens| - 1] == Simulate(Histogram(pop.value), done)
      invariant day == done + 1 && day <= (if stop > 1 then stop else 1)
    {
      g.BuildNextGeneration();
      day := day + 1;
      done := done + 1;
    }
    assert SourceDays(numDays) == done;
    return Ok(Sum(g.gens[|g.gens| - 1]));
  }

  /** `part_a(lines, num_days)` as intended: the population after `num_days` days. */
  method PartA(lines: seq<string>, numDays: nat) returns (r: Result<int>)
    ensures r.Ok? <==> InitialPopulation(lines).Ok?
    ensures r.Ok? ==> r.value == Sum(Simulate(Histogram(InitialPopulation(lines).value), numDays))
  {
    var pop := InitialPopulation(lines);
    if pop.Err? {
      return Err(pop.msg);
    }
    var g := new Generations(pop.value);
    for day := 0 to numDays
      invariant g.Valid() && g.gens[|g.gens| - 1] == Simulate(Histogram(pop.value), day)
    {
      g.BuildNextGeneration();
    }
    return Ok(Sum(g.gens[|g.gens| - 1]));
  }

  /** `part_b(lines)`: 80 days become 256. */
  method PartB(lines: seq<string>) returns (r: Result<int>)
    ensures r.Ok? <==> InitialPopulation(lines).Ok?
    ensures r.Ok? ==> r.value == Sum(Simulate(Histogram(InitialPopulation(lines).value), 256))
  {
    r := PartA(lines, 256);
  }
}
