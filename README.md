# Advent of Code 2021 solvers, modelled in Dafny

This project models the puzzle solvers of the `adventofcode2021` repository. Each solver is a
small, deterministic program over text lines, integers, sets, dictionaries and small grids. The
model has one Dafny module per day (`Day01` … `Day22`, with no day 19). Two shared modules hold
the common pieces:

- `Util` holds `Result`/`Option`, line splitting, word splitting, decimal and binary number
  parsing and printing, sums and counts.
- `Sorting` holds a sorted-and-permutation insertion sort, used where a solver calls `sorted`.

Every solver's `part_a`/`part_b` is a method over the stripped input lines, or over pre-parsed
values where the solver uses the third-party `parse` package. A Python exception (a failed
`int`, a missing key, a pop from an empty list, an explicit `raise`) is an `Err` result.

Each module keeps its solver's own form:

- Loops over lists, dictionaries and sets are methods with loop invariants. Each is proved equal
  to a specification function, and the promised properties are proved as lemmas about that
  function.
- Objects whose fields change become classes:
  - the bit stream of day 16;
  - the octopuses and their grid of day 11;
  - the image of day 20;
  - the opener stack of day 10;
  - the die of day 21.
- Pure recursion is kept as functions:
  - snailfish magnitude and printing;
  - Dirac-dice win counting;
  - cuboid intersection.

The day modules are independent of each other. The one exception is that days 11 and 15 reuse
the grid parsing of day 9.

## Model

| member | source | states |
|---|---|---|
| Day01.NonEmpty | day01-sonar-sweep/day01.py:13 | the filter keeps only non-empty lines, each taken from the input, and never lengthens the list |
| Day01.NonEmptyKeeps | day01-sonar-sweep/day01.py:13 | every non-empty line survives the filter |
| Day01.Rises | day01-sonar-sweep/day01.py:15-17 | the count over the first n positions is at most n, so part A's answer is at most one less than the number of depths |
| Day01.RisesCounted | day01-sonar-sweep/day01.py:15-17 | the count is exactly the number of positions whose reading `gap` further on is larger |
| Day01.WindowRise | day01-sonar-sweep/day01.py:24 | a three-reading window is smaller than the next one exactly when its first reading is smaller than the next window's last |
| Day01.WindowSum | day01-sonar-sweep/day01.py:24 | `sum(depths[i:i+3])` is the three readings added |
| Day01.CountRises | day01-sonar-sweep/day01.py:14-18 | the loop counts the positions whose next reading is larger |
| Day01.CountWindowRises | day01-sonar-sweep/day01.py:22-26 | the window-sum loop counts exactly the positions whose reading three further on is larger |
| Day01.PartA | day01-sonar-sweep/day01.py:12-18 | the answer is the number of depth increases of the non-empty lines, or the `int` error of the first line that is not a number |
| Day01.PartB | day01-sonar-sweep/day01.py:20-26 | the answer is the number of window increases, that is of readings smaller than the one three further on, or the `int` error |
| Day02.ParseCommand | day02/day02.py:17-27 | a line parses exactly when it splits into two words, the second an integer and the first `forward`, `down` or `up`, and the command then carries that word and amount |
| Day02.ParseCommandsMeaning | day02/day02.py:16-27 | parsing all lines fails exactly when some line is not a command, and otherwise yields each line's command in order |
| Day02.ParseStep | day02/day02.py:16-18 | parsing one more line appends its command or stops with its error |
| Day02.ParseStopsAt | day02/day02.py:26-27 | the first line that is not a command decides the error, whatever follows it |
| Day02.TotalSnoc | day02/day02.py:19-25 | one more command adds its amount to the total of its own kind and to no other |
| Day02.TotalAppend | day02/day02.py:19-25 | totals over two runs of commands add up, so part A does not depend on how the commands are grouped |
| Day02.NoForwardNoDepth | day02/day02.py:40-46 | without forward commands part B never dives and moves nowhere |
| Day02.OnlyForward | day02/day02.py:20-21 | forward commands alone change neither the depth nor the aim |
| Day02.SteerThenMove | day02/day02.py:40-46 | when all steering comes before all forward moves, part B's depth is the final aim times the distance moved |
| Day02.PartA | day02/day02.py:13-30 | the answer is the sum of the forward amounts times down minus up, or the error of the first line that is not a command |
| Day02.PartB | day02/day02.py:32-51 | the answer is the same forward total times the depth reached by diving aim times amount on each forward move, or the first line's error |
| Day03.Gamma | day03-sub-diagnostics/day03.py:17-18 | gamma has one bit per column and is a binary string |
| Day03.GammaAt | day03-sub-diagnostics/day03.py:18 | bit i of gamma is decided by column i alone |
| Day03.GammaMajority | day03-sub-diagnostics/day03.py:17-18 | gamma bit i is '1' exactly when column i holds more '1's than other characters, so the float halving is an exact majority test |
| Day03.Complement | day03-sub-diagnostics/day03.py:19 | epsilon is a binary string as long as gamma |
| Day03.ComplementAt | day03-sub-diagnostics/day03.py:19 | bit i of epsilon is bit i of gamma flipped |
| Day03.ComplementTwice | day03-sub-diagnostics/day03.py:19 | flipping a binary string twice gives it back |
| Day03.ComplementSum | day03-sub-diagnostics/day03.py:19-21 | gamma plus epsilon is 2 to the number of bits, minus one |
| Day03.PowerConsumption | day03-sub-diagnostics/day03.py:20-22 | the answer is gamma times the rest of all ones, that is gamma times epsilon |
| Day03.PartA | day03-sub-diagnostics/day03.py:14-22 | part A succeeds exactly when there is a line, the first line is not empty and no line is shorter than it, and then gives gamma times 2^n - 1 - gamma |
| Day03.Keep | day03-sub-diagnostics/day03.py:31 | a filtering round keeps a subset of the elements, so the set only shrinks |
| Day03.KeepPartition | day03-sub-diagnostics/day03.py:30-31 | at a binary bit position, the elements with '0' and those with '1' split the set into two disjoint parts |
| Day03.MostCommonKeepsHalf | day03-sub-diagnostics/day03.py:27-31 | with `operator.ge` a round keeps at least half of the set, so it never empties a non-empty set |
| Day03.LeastCommonKeepsHalf | day03-sub-diagnostics/day03.py:27-31 | with `operator.lt` a round keeps at most half of the set |
| Day03.LeastCommonKeepsSome | day03-sub-diagnostics/day03.py:27-31 | with `operator.lt` a round keeps something whenever both bits occur at that position |
| Day03.Narrow | day03-sub-diagnostics/day03.py:29-35 | a successful search ends with exactly one of the elements it started from |
| Day03.NarrowStep | day03-sub-diagnostics/day03.py:30-33 | one round filters on the chosen bit and stops exactly when one element is left |
| Day03.NarrowEmpty | day03-sub-diagnostics/day03.py:29-35 | once the set is empty it stays empty, and the search raises when the bits run out |
| Day03.LeastCommonCanEmpty | day03-sub-diagnostics/day03.py:27-35 | with `operator.lt`, two lines sharing their first bit are both dropped and the search raises |
| Day03.AgreeSingleton | day03-sub-diagnostics/day03.py:29-33 | distinct binary strings of one length that agree on every bit are a single string |
| Day03.MostCommonRound | day03-sub-diagnostics/day03.py:30-31 | an `operator.ge` round keeps a non-empty set whose elements agree on one more bit |
| Day03.OxygenFrom | day03-sub-diagnostics/day03.py:29-35 | with `operator.ge`, a non-empty set of n-bit strings that agree on the bits already used always ends with one element before the bits run out |
| Day03.Lines | day03-sub-diagnostics/day03.py:28 | `set(lines)` holds exactly the lines |
| Day03.Rating | day03-sub-diagnostics/day03.py:28-36 | a rating that exists is `int(line, 2)` of one of the lines, read with the whole base-2 grammar of `int` |
| Day03.OxygenExists | day03-sub-diagnostics/day03.py:27-36 | when every line is a binary string as long as a non-empty first line, the `operator.ge` rating exists |
| Day03.Filter | day03-sub-diagnostics/day03.py:28-35 | the filtering loop, with its break and its `else` clause, returns what the search specifies |
| Day03.RatingOf | day03-sub-diagnostics/day03.py:28-36 | one pass of the outer loop returns the rating the specification gives, the surviving line read by `int(line, 2)` |
| Day03.LifeSupport | day03-sub-diagnostics/day03.py:26-37 | the product of the two ratings, or the error of the first that fails |
| Day03.PartB | day03-sub-diagnostics/day03.py:24-37 | part B multiplies the `ge` and `lt` ratings, fails on an empty input, and otherwise fails exactly when a rating does |
| Day03.UnderscoreLineNarrow | day03-sub-diagnostics/day03.py:28-33 | on the lines `1_1` and `000` the `ge` search keeps `1_1` and the `lt` search keeps `000` at the first bit |
| Day03.UnderscoreLineExample | day03-sub-diagnostics/day03.py:24-37 | on the lines `1_1` and `000` the ratings are 3 and 0, so part B gives 0, as `int(x, 2)` reads the underscore |
| Day04.Picks | day04/day04.py:62 | no input lines is an IndexError; otherwise one pick per comma-separated field |
| Util.ParseIntsFails | day04/day04.py:62 | converting a list of strings with `int` fails exactly when one of them is not an integer |
| Util.ParsePaddedExample | day04/day04.py:62 | `int` strips the whitespace around a numeral, so the field ` 4` of a picks line `7, 4` is 4 |
| Util.ParseUnderscoreExample | day04/day04.py:62 | `int` reads a sign and single underscores between digits: `-1_0` is -10 |
| Util.ParseRejectExamples | day04/day04.py:62 | `int` rejects a doubled underscore and a leading underscore |
| Util.ParseRejectSpacedSign | day04/day04.py:62 | `int` rejects a space between the sign and the digits |
| Util.WordsSeparatorExample | day08-lcd-segments/day08.py:64-65 | `str.split()` separates words on every `str.isspace()` character, the ASCII separator 0x1C and the no-break space 0xA0 included |
| Util.ParseNegative | day18-snailfish/day18.py:82-83 | `int` reads a minus sign followed by a numeral (digits, with single underscores between them) as the negated value of the numeral |
| Day04.BoardsFromCount | day04/day04.py:16-22 | when every block parses, reading yields one board per started block of six lines and keeps the boards already read |
| Day04.ReadBoards | day04/day04.py:17-22 | the reading loop yields exactly the boards of the block-by-block definition, or its first parse error |
| Day04.FreshResults | day04/day04.py:23 | one fresh, all-unmarked flag array per board, sized like the board, no two shared |
| Day04.BuildBoardsAndResults | day04/day04.py:16-24 | the boards as read, and when reading succeeds one fresh all-unmarked flag array per board |
| Day04.MarkedExactly | day04/day04.py:27-35 | marking keeps every earlier mark, marks every cell holding the pick, and changes nothing else |
| Day04.MarkedIdempotent | day04/day04.py:27-35 | applying the same pick twice marks the same cells as applying it once |
| Day04.ApplyPick | day04/day04.py:27-35 | the flags become the marked flags, and the result is true exactly when the pick is on the board |
| Day04.RowFull | day04/day04.py:43 | true exactly when every cell of the five-cell row slice is marked |
| Day04.ColumnFull | day04/day04.py:47 | true exactly when cells c, c+5, ..., c+20 are all marked |
| Day04.CheckBoardMeans | day04/day04.py:38-49 | on a 25-cell board the corrected check is true exactly when some full row or some full column is marked |
| Day04.CheckBoardAsWrittenMeans | day04/day04.py:38-49 | on a 25-cell board the check as written is true exactly when some full column or one of the first four rows is fully marked |
| Day04.LastRowCounterexample | day04/day04.py:42 | a board whose only marked cells are its bottom row is rejected as written and accepted by the corrected check |
| Day04.AsWrittenMissesOnlyLastRow | day04/day04.py:42 | every board the check as written accepts has a bingo, and a bingo it rejects is a full bottom row with no full column |
| Day04.OnlyBottomMarked | day04/day04.py:38-49 | a board with its first twenty cells unmarked never wins as written, and wins under the corrected check exactly when its bottom row is full |
| Day04.BottomRowGame | day04/day04.py:60-84 | on one board numbered 0..24 with draws 20..24, the game as written ends in the no-winner exception while the corrected game scores 4560 |
| Day04.CheckBoard | day04/day04.py:38-49 | the method returns the check as written (rows 0, 5, 10, 15) or the corrected check (all five rows), as its scan says, including the IndexError on a flag list too short for the column scan |
| Day04.SumUnmarkedNone | day04/day04.py:52-57 | with nothing marked the unmarked sum is the whole board's sum |
| Day04.SumUnmarkedShrinks | day04/day04.py:52-57 | on a non-negative board, marking more cells never raises the unmarked sum, which stays non-negative |
| Day04.ScoreBoard | day04/day04.py:52-57 | the score is the pick times the sum of the unmarked numbers |
| Day04.NoBoardsNoWinner | day04/day04.py:84 | with no boards the game always ends in the no-winner exception |
| Day04.MarkBoard | day04/day04.py:74 | one board's flags are marked in place for the pick, every other board's flags are untouched, and the result says whether the pick is on the board |
| Day04.PlayDraw | day04/day04.py:70-83 | one pass over the boards for a draw, with the given check, either returns the game's outcome or leaves flags and winners from which the rest of the game has the same outcome |
| Day04.PlayGame | day04/day04.py:68-84 | the nested pick and board loops return the game's defined outcome under the given check: the first winner's score, the last winner's score, or the no-winner exception |
| Day04.Play | day04/day04.py:60-84 | picks parse errors propagate; otherwise the boards are built and the game outcome under the given check is returned |
| Day04.PartA | day04/day04.py:60-84 | picks parse errors propagate; otherwise the boards are built and the outcome of the game played with `check_board` as written is returned |
| Day04.PartB | day04/day04.py:87-88 | the same game as written, scoring the board that wins last |
| Day04.PartACorrected | day04/day04.py:60-84 | the same as `part_a` but with the corrected check, under which a full bottom row wins |
| Day04.PartBCorrected | day04/day04.py:87-88 | the corrected game scoring the board that wins last |
| Day05.HorizontalPoints | day05-hydrothermal-vents/day05.py:50-53 | a horizontal segment raises each cell of its row between the end points exactly once and no other cell; \|dx\|+\|dy\|+1 increments in all |
| Day05.VerticalPoints | day05-hydrothermal-vents/day05.py:54-57 | a vertical segment raises each cell of its column between the end points exactly once and no other cell; \|dx\|+\|dy\|+1 increments in all |
| Day05.IgnoredDiagonal | day05-hydrothermal-vents/day05.py:38-39 | a diagonal raises nothing when diagonals are ignored |
| Day05.DiagonalPoints | day05-hydrothermal-vents/day05.py:40-49 | a drawn diagonal starts at its first end point, walks both ranges in step, stops after the shorter range, and ends at the second end point exactly when it is at 45 degrees |
| Day05.DiagonalSteps | day05-hydrothermal-vents/day05.py:40-49 | each diagonal step moves one cell on each axis and no cell is visited twice |
| Day05.DistinctOnce | day05-hydrothermal-vents/day05.py:48-57 | a visit sequence without repeats raises each of its cells exactly once |
| Day05.PointsInBox | day05-hydrothermal-vents/day05.py:38-57 | every cell a segment raises lies between 0 and its larger end-point coordinate on each axis |
| Day05.MaxBounds | day05-hydrothermal-vents/day05.py:21-29 | max_x and max_y bound every end point and are each 0 or an actual end point |
| Day05.ReadBounds | day05-hydrothermal-vents/day05.py:22-28 | the bounds loop computes max_x and max_y |
| Day05.CoverageInside | day05-hydrothermal-vents/day05.py:75 | every covered cell lies inside the (max_y+1) by (max_x+1) field, so every write is in range |
| Day05.CoverageGrows | day05-hydrothermal-vents/day05.py:35-57 | drawing one more segment never lowers any cell's count |
| Day05.AddSegment | day05-hydrothermal-vents/day05.py:36-57 | after one segment each cell is raised by the number of times the segment visits it, and nothing else changes |
| Day05.PopulateField | day05-hydrothermal-vents/day05.py:31-59 | after all segments each cell is raised by its cover count, so no cell decreases |
| Day05.RowOverlapsCounts | day05-hydrothermal-vents/day05.py:62-68 | a row's overlap count is the number of its cells holding more than 1 |
| Day05.CountOverlaps | day05-hydrothermal-vents/day05.py:62-68 | the nested loops count the field cells holding more than 1 |
| Day05.RowsAreCoverGrid | day05-hydrothermal-vents/day05.py:75-77 | a bounds-sized field holding each cell's cover count is exactly the cover grid |
| Day05.PartA | day05-hydrothermal-vents/day05.py:71-79 | the answer is the number of field cells covered by at least two segments |
| Day05.PartB | day05-hydrothermal-vents/day05.py:82-84 | the same count with diagonals drawn |
| Day06.Histogram | day06-fish-generations/day06.py:26-29 | entry a of the first generation is the number of initial fish of age a, for every age 0..8 |
| Day06.SumUpdate | day06-fish-generations/day06.py:27-28 | raising one histogram entry raises the total by as much |
| Day06.SumZeros | day06-fish-generations/day06.py:33 | the all-zero generation holds no fish |
| Day06.HistogramTotal | day06-fish-generations/day06.py:26-29 | when every initial age is in 0..8, the first generation totals the initial population |
| Day06.NextGen | day06-fish-generations/day06.py:32-42 | the next generation again has one entry per age 0..8 |
| Day06.SumPrefixStep | day06-fish-generations/day06.py:50 | summing one more entry of a generation |
| Day06.SumNine | day06-fish-generations/day06.py:50 | the population of a generation is the sum of its nine entries |
| Day06.NextGenSum | day06-fish-generations/day06.py:37-41 | the next generation's population is the last one's plus the fish at age 0, so it never shrinks |
| Day06.TickValid | day06-fish-generations/day06.py:21-23 | after one day every individual fish still has an age in 0..8 |
| Day06.CountTickOne | day06-fish-generations/day06.py:34-38 | a fish at age 0 becomes one fish at age 6 and one at age 8; any other fish becomes one fish a day younger |
| Day06.CountSnoc | day06-fish-generations/day06.py:27 | counting an age among one more fish |
| Day06.CountTick | day06-fish-generations/day06.py:37-41 | after one day, age 8 counts the fish that were at 0, age 6 those at 0 and at 7, every other age those one day older |
| Day06.TickHistogram | day06-fish-generations/day06.py:32-42 | the histogram step counts exactly the fish that stepping every fish individually gives |
| Day06.Simulate | day06-fish-generations/day06.py:47-49 | every generation has one entry per age |
| Day06.SimulateCountsFish | day06-fish-generations/day06.py:45-50 | after any number of days the histogram counts exactly the individually stepped fish, and its sum is their number |
| Day06.SimulateGrows | day06-fish-generations/day06.py:47-50 | the population never shrinks over any number of days |
| Day06.Generations.constructor | day06-fish-generations/day06.py:26-29 | the list of generations starts as the one histogram of the initial ages |
| Day06.Generations.BuildNextGeneration | day06-fish-generations/day06.py:32-42 | appends exactly the next generation of the last one and leaves the earlier ones unchanged |
| Day06.InitialPopulation | day06-fish-generations/day06.py:46 | the first line parses when it exists and each comma-separated field is an integer |
| Day06.SourceDaysEven | day06-fish-generations/day06.py:48 | for an even day count the loop as written runs every day |
| Day06.SourceDaysOddShort | day06-fish-generations/day06.py:48 | for an odd day count the loop as written runs one day fewer |
| Day06.OneDayCounterexample | day06-fish-generations/day06.py:48 | one fish at age 0 over one day: the loop as written gives 1, the intended answer is 2 |
| Day06.PartAAsWritten | day06-fish-generations/day06.py:45-50 | the population after the number of days the loop as written runs |
| Day06.PartA | day06-fish-generations/day06.py:45-50 | the population after exactly num_days days, or the error parsing the first line raises |
| Day06.PartB | day06-fish-generations/day06.py:53-54 | the population after 256 days |
| Day07.Histogram | day07-crab-submarines/day07.py:19-21 | entry p of the histogram is the number of crabs at position p, for every p in 0..max |
| Day07.LeftStep | day07-crab-submarines/day07.py:33-40 | one position further right, the crabs-to-the-left count grows by the crabs at the previous position and the left cost grows by that count |
| Day07.RightStep | day07-crab-submarines/day07.py:44-48 | one position further left, the crabs-to-the-right count grows by the crabs at the next position and the right cost grows by that count |
| Day07.NothingLeft | day07-crab-submarines/day07.py:33-34 | position 0 has no crab to its left and costs nothing from the left |
| Day07.NothingRight | day07-crab-submarines/day07.py:44-45 | the largest position has no crab to its right and costs nothing from the right |
| Day07.CostsLeft | day07-crab-submarines/day07.py:31-40 | cost_left[pos] is the sum of pos-c over the crabs c left of pos |
| Day07.CostsRight | day07-crab-submarines/day07.py:42-48 | cost_right[pos] is the sum of c-pos over the crabs c right of pos |
| Day07.CostSplit | day07-crab-submarines/day07.py:49 | left cost plus right cost is the sum of the distances of all crabs |
| Day07.MaxPosition | day07-crab-submarines/day07.py:16-17 | an empty position list raises IndexError; otherwise the largest position, which bounds every crab |
| Day07.OutsideIsDearer | day07-crab-submarines/day07.py:19 | a meeting point beyond the largest crab or below 0 costs at least as much as the nearest end of 0..max, in both parts |
| Day07.PartA | day07-crab-submarines/day07.py:15-50 | errors exactly on no crabs; otherwise the least total distance over the meeting points 0..max, attained at one of them |
| Day07.PartAOptimal | day07-crab-submarines/day07.py:15-50 | the first part's answer is no more than the total distance to any integer meeting point |
| Day07.TriClosed | day07-crab-submarines/day07.py:60-63 | the accumulated step costs for distance d total d(d+1)/2 |
| Day07.GroupFuelStep | day07-crab-submarines/day07.py:62-63 | one more step adds count times the step's number to a group's fuel |
| Day07.AddGroup | day07-crab-submarines/day07.py:60-67 | after one crab group, every position's cost grows by count times the triangular cost of its distance to the group |
| Day07.FuelBelowStep | day07-crab-submarines/day07.py:59-67 | taking in the crabs at the next position adds their group's fuel |
| Day07.FuelBelowEnds | day07-crab-submarines/day07.py:57-59 | before any group the costs are 0; after all positions up to max they are the full fuel |
| Day07.FuelCosts | day07-crab-submarines/day07.py:56-67 | cost[p] is the sum over all crabs of the triangular cost of their distance to p |
| Day07.PartB | day07-crab-submarines/day07.py:53-68 | errors exactly on no crabs; otherwise the least total triangular fuel over the meeting points 0..max |
| Day07.PartBOptimal | day07-crab-submarines/day07.py:53-68 | the second part's answer is no more than the total fuel to any integer meeting point |
| Day08.TablesInverse | day08-lcd-segments/day08.py:16-31 | `digit_for_wires` is the exact inverse of `wires_per_digit`: every digit's wire string is a key that maps back to that digit, and every key maps to a digit whose wire string is that key |
| Day08.LengthsAgree | day08-lcd-segments/day08.py:33-40 | a digit's segment count is a key of `digits_by_length` exactly for the digits 1, 4, 7 and 8, and the table then names that very digit |
| Day08.TableSorted | day08-lcd-segments/day08.py:29-31 | every wire string of the table is in alphabetical order, so it is already the sorted key the decoder looks up |
| Day08.SortChars | day08-lcd-segments/day08.py:179 | `sorted` of a word's letters is in ascending order and holds exactly the same letters |
| Day08.SortedUnique | day08-lcd-segments/day08.py:179 | two ascending strings with the same letters are equal, so the sorted key of a word depends only on its letters |
| Day08.SortByLength | day08-lcd-segments/day08.py:112 | sorting the patterns by length leaves them in non-decreasing length and a permutation of the input |
| Day08.Halves | day08-lcd-segments/day08.py:63 | unpacking `line.split('\|')` into two parts succeeds exactly when the line holds one bar, and the two parts joined by the bar give back the line |
| Day08.KnownCountCounts | day08-lcd-segments/day08.py:66 | the per-line count equals the number of output positions whose word has 2, 3, 4 or 7 letters |
| Day08.PartA | day08-lcd-segments/day08.py:57-67 | the loop returns the total count over all lines, or the unpacking error of the first malformed line |
| Day08.Initial | day08-lcd-segments/day08.py:124 | the starting candidates give every one of the seven wires all seven segments |
| Day08.CharSet | day08-lcd-segments/day08.py:51-54 | `set(pattern)` holds a letter exactly when the pattern does |
| Day08.KnownPatternUpToMeaning | day08-lcd-segments/day08.py:48-54 | after the first i wires of `'abcdefg'` are visited, exactly those wires have had their candidates intersected with or stripped of the pattern's segments, and all others are untouched |
| Day08.KnownPatternMeaning | day08-lcd-segments/day08.py:43-54 | a known pattern only narrows the candidates; afterwards a wire of the digit keeps only segments in the pattern and every other wire keeps only segments outside it |
| Day08.Wiring.ProcessKnownPattern | day08-lcd-segments/day08.py:43-54 | the candidates become the known-pattern narrowing of the old candidates, using the digit's wires from the table |
| Day08.Wiring.NarrowAgainst | day08-lcd-segments/day08.py:48-54 | the loop over the seven wires leaves the candidates equal to the known-pattern narrowing of their old value |
| Day08.Restrict | day08-lcd-segments/day08.py:143-154 | `&=` on one wire intersects that wire's candidates with the given segments, narrows the map and leaves every other wire unchanged |
| Day08.Wiring.RestrictWire | day08-lcd-segments/day08.py:143-154 | the candidates become the restriction of the old ones at that wire |
| Day08.Wiring.RemoveFromOthers | day08-lcd-segments/day08.py:161-163 | the inner loop removes the segments from every wire except the given one, and leaves that wire as it was |
| Day08.EliminateStepMeaning | day08-lcd-segments/day08.py:158-163 | visiting a wire with a single candidate removes that segment from all other wires and keeps its own; a wire with several candidates changes nothing |
| Day08.Eliminate | day08-lcd-segments/day08.py:158-163 | the elimination pass keeps candidates for all seven wires |
| Day08.EliminateNarrows | day08-lcd-segments/day08.py:158-163 | the elimination pass only ever removes candidates |
| Day08.Wiring.EliminateSingletons | day08-lcd-segments/day08.py:158-163 | the loop over the wires leaves the candidates equal to the elimination pass over the old candidates, visiting the wires in order |
| Day08.Deduce | day08-lcd-segments/day08.py:124-163 | the four known patterns, the five- and six-segment counts and the elimination pass always leave a candidate set for every wire |
| Util.TheOne | day08-lcd-segments/day08.py:171 | `v.pop()` on a one-element set yields its only element |
| Day08.Reverse | day08-lcd-segments/day08.py:171 | the reverse mapping has an entry for the single segment of every wire |
| Day08.WiresOf | day08-lcd-segments/day08.py:176 | the wire list has one wire per segment of the word, each the reverse mapping's entry for that segment, and fails exactly when some segment has no entry (a KeyError) |
| Day08.DecodeWordPermutation | day08-lcd-segments/day08.py:176-180 | a word whose wires are any arrangement of a digit's wires decodes to that digit |
| Day08.DecodeWordDigit | day08-lcd-segments/day08.py:180 | a word that decodes yields a decimal digit |
| Day08.DecodedAreDigits | day08-lcd-segments/day08.py:173-180 | a successful decoding gives one decimal digit per output word |
| Day08.NumberOf | day08-lcd-segments/day08.py:181 | `int(''.join(o_digits))` succeeds exactly when there is at least one digit |
| Day08.DecodeOutputs | day08-lcd-segments/day08.py:173-180 | the loop over the output words returns their decoded digits, or the first lookup error |
| Day08.LineValueNeedsUniqueMapping | day08-lcd-segments/day08.py:165-168 | a line only yields a number when it has at least ten patterns and the deduction left exactly one segment per wire, each among the initial candidates |
| Day08.DecodeLine | day08-lcd-segments/day08.py:105-182 | deciphering one line returns the number the specification assigns to it, or the error the line raises |
| Day08.SumFromStep | day08-lcd-segments/day08.py:181-182 | the sum stops at the first line in error and otherwise adds that line's number |
| Day08.OutputTotalOf | day08-lcd-segments/day08.py:104-184 | the total over the lines is the running sum of their values, stopping at the first error |
| Day08.DecodeLineAt | day08-lcd-segments/day08.py:106-181 | deciphering line i gives the i-th of the per-line values |
| Day08.PartB | day08-lcd-segments/day08.py:70-184 | the loop returns the sum of all the lines' numbers, or the error of the first line that cannot be deciphered |
| Day09.ParseRow | day09-basins/day09.py:46 | a row parses exactly when every character is an ASCII digit, and holds one height per character |
| Day09.ParseGrid | day09-basins/day09.py:46 | a parsed grid has one row per line, each the parse of its line |
| Day09.ParsedDigits | day09-basins/day09.py:46 | every height of a parsed grid lies between 0 and 9 |
| Day09.NeighborsMeaning | day09-basins/day09.py:15-27 | the neighbours are at most four distinct orthogonal neighbours inside the rows, and include every orthogonal neighbour inside the rows and the first row's columns |
| Day09.HeightAt | day09-basins/day09.py:37 | reading a height succeeds exactly on a cell of the grid, and gives that cell's height |
| Day09.HeightsMeaning | day09-basins/day09.py:37 | the neighbour heights are read exactly when every neighbour is a cell, and are those cells' heights in order |
| Day09.LowPointMeans | day09-basins/day09.py:36-38 | a cell is a low point exactly when it is strictly lower than every neighbour listed |
| Day09.LowPointIsLower | day09-basins/day09.py:36-38 | in a rectangular grid, a cell is a low point exactly when it is strictly lower than every orthogonal neighbour in the grid |
| Day09.NeighborsInGrid | day09-basins/day09.py:15-27 | in a rectangular grid every listed neighbour is a cell |
| Day09.LowPointDefined | day09-basins/day09.py:36-38 | in a rectangular grid that is not a single cell, testing a cell never raises |
| Day09.SingleCellRaises | day09-basins/day09.py:38 | a single-cell grid has no neighbours, so `min` of the empty list raises ValueError |
| Day09.RowTestsMeaning | day09-basins/day09.py:35-38 | a row's tests yield one verdict per cell, each that cell's test |
| Day09.FlaggedMeaning | day09-basins/day09.py:35-39 | the positions appended for a row lie in that row, in increasing column order, and are exactly the columns whose test passed |
| Day09.RowLowPointsMembers | day09-basins/day09.py:35-39 | a row's low points are in column order, and a cell is listed exactly when it tests as a low point |
| Day09.RowLowPointsOk | day09-basins/day09.py:35-38 | when every cell of a row can be compared with its neighbours, the row's scan does not raise |
| Day09.RowErrStays | day09-basins/day09.py:35-38 | the first test that raises ends the row's scan with its error |
| Day09.LowPointsStep | day09-basins/day09.py:34-39 | the scan of one more row appends that row's low points to the list |
| Day09.ErrStep | day09-basins/day09.py:34-39 | an error in the scan of the first rows is the error of the scan of one more row |
| Day09.ErrStays | day09-basins/day09.py:34-39 | an error in the scan of the first rows is the error of the whole scan |
| Day09.LowPointsSound | day09-basins/day09.py:30-40 | every listed position is a cell that tests as a low point |
| Day09.LowPointsComplete | day09-basins/day09.py:30-40 | every cell that tests as a low point is listed |
| Day09.LowPointsOk | day09-basins/day09.py:30-40 | in a rectangular grid that is not a single cell, `get_local_mins` does not raise |
| Day09.ScanRow | day09-basins/day09.py:35-39 | the inner loop returns the row's low points in column order, or the first error a test raises |
| Day09.GetLocalMins | day09-basins/day09.py:30-40 | the nested loops return the low points row by row, or the first error a test raises |
| Day09.RiskLevels | day09-basins/day09.py:48 | one risk level per low point, its height plus one |
| Day09.RiskBounds | day09-basins/day09.py:48 | with digit heights each low point adds between 1 and 10 to the total risk |
| Day09.PartA | day09-basins/day09.py:43-48 | the answer is the sum of the risk levels of exactly the listed low points, or the parse or scan error |
| Day09.InCells | day09-basins/day09.py:61-63 | every cell is in the finite set of cells that bounds the flood |
| Day09.OutsideMeansRagged | day09-basins/day09.py:64-66 | a neighbour of a cell that is not a cell exists only when the rows differ in length |
| Day09.QueueNeighbors | day09-basins/day09.py:64-67 | the neighbour loop queues only cells not of height 9 that the flood reaches from the start, keeps the queue apart from the visited set, and leaves every neighbour visited, queued or of height 9; it raises IndexError only in a ragged grid |
| Day09.ClosedGrows | day09-basins/day09.py:64-67 | queuing more positions keeps every visited position closed |
| Day09.Visit | day09-basins/day09.py:62-67 | one round of the flood keeps visited and queued disjoint, holding only the start and cells not of height 9 reached from it, with every visited position closed |
| Day09.FewerLeft | day09-basins/day09.py:61-63 | each round visits a cell not visited before, so the flood ends |
| Day09.FloodDone | day09-basins/day09.py:61-68 | when nothing is left to visit, the visited set is a basin |
| Day09.ReachesStep | day09-basins/day09.py:64-67 | a listed neighbour not of height 9 of a position the flood reaches is reached too |
| Day09.BasinIsComponent | day09-basins/day09.py:57-68 | a basin holds exactly the positions reached from its low point through listed neighbours not of height 9: its connected component |
| Day09.Flood | day09-basins/day09.py:58-68 | the flood returns a basin of the low point, and the returned set is exactly the positions reached from the low point through listed neighbours not of height 9; it raises only in a ragged grid |
| Day09.BasinSize | day09-basins/day09.py:59-68 | every basin size is at least 1 |
| Day09.LastThree | day09-basins/day09.py:70 | `[-3:]` keeps the last three elements, or all of them when there are fewer |
| Day09.Sizes | day09-basins/day09.py:68 | one size per basin, the number of its positions |
| Day09.ProductPositive | day09-basins/day09.py:70 | a product of positive sizes is positive |
| Day09.TopThreePositive | day09-basins/day09.py:69-70 | when every basin has a cell the answer is at least 1 |
| Day09.ProductOfThree | day09-basins/day09.py:70 | `math.prod` of three values is their product |
| Day09.LastThreeOfSorted | day09-basins/day09.py:69-70 | in an ascending list the last three are the largest, and the product is theirs |
| Day09.TopThreeLargest | day09-basins/day09.py:69-70 | with three basins or more the answer is the product of the three largest sizes of a permutation of the sizes |
| Day09.FloodAll | day09-basins/day09.py:57-68 | one basin per low point, in order, each the connected component of its low point (a basin of it), with its size recorded |
| Day09.PartB | day09-basins/day09.py:51-70 | the answer is the product of the three largest basin sizes, each basin the connected component of a listed low point; it is at least 1 and is produced whenever the grid is rectangular and the scan succeeds |
| Day10.CloserOf | day10-syntax-scoring/day10.py:14-19 | the `pairs` table maps each opener to a closer |
| Day10.OpenerPoints | day10-syntax-scoring/day10.py:25-30 | `completion_scoring` gives each opener a score from 1 to 4 |
| Day10.Scan | day10-syntax-scoring/day10.py:38-48 | a scan that succeeds leaves only openers on the stack, and a corrupt verdict names a closer that occurs in the line |
| Day10.AssessLine | day10-syntax-scoring/day10.py:32-48 | the push/pop loop returns exactly the scan of the line from an empty stack, including the two raising cases (pop from an empty list, unknown character) |
| Day10.ScanAppend | day10-syntax-scoring/day10.py:38-48 | scanning `x + y` is scanning `x` and then `y` from the stack `x` left; a corrupt or raising `x` decides the whole line |
| Day10.CorruptHasWitness | day10-syntax-scoring/day10.py:38-45 | the illegal character of a corrupt line sits at an index i whose prefix scans cleanly to a non-empty stack whose top does not pair with it |
| Day10.MismatchMakesCorrupt | day10-syntax-scoring/day10.py:43-45 | conversely, a closer that does not pair with the top of the stack left by a clean prefix makes the line corrupt with that closer |
| Day10.Completion | day10-syntax-scoring/day10.py:33-36 | the completing closers are as many as the unmatched openers |
| Day10.CompletionCloses | day10-syntax-scoring/day10.py:33-48 | the completion of a stack pops exactly that stack and nothing below it |
| Day10.CompletedLineIsBalanced | day10-syntax-scoring/day10.py:33-48 | an incomplete line followed by the completion of its returned stack ends with no unmatched opener, so the stack holds exactly the unmatched openers, most recent last |
| Day10.ScoreIllegalsOneByOne | day10-syntax-scoring/day10.py:51-58 | counting each closer kind and weighting by 3, 57, 1197, 25137 equals adding every illegal character's own points |
| Day10.OpenerStack.constructor | day10-syntax-scoring/day10.py:61 | wraps the caller's list |
| Day10.OpenerStack.ScoreCompletion | day10-syntax-scoring/day10.py:61-69 | the pop loop empties the caller's list and returns its base-5 Horner score, top of stack most significant |
| Day10.CompletionScoreIsClosingScore | day10-syntax-scoring/day10.py:61-69 | scoring the openers from the top equals the puzzle's score of the completing closers read left to right |
| Day10.CompletionScoreZero | day10-syntax-scoring/day10.py:64-69 | the score is 0 exactly when the stack is empty |
| Day10.CompletionScoreInjective | day10-syntax-scoring/day10.py:61-69 | two stacks with the same score are equal |
| Day10.Illegals | day10-syntax-scoring/day10.py:76-80 | the collected illegal characters are all closers |
| Day10.IllegalsErrSticks | day10-syntax-scoring/day10.py:77-78 | once a line raises, `part_a` raises whatever lines follow |
| Day10.PartA | day10-syntax-scoring/day10.py:72-81 | the loop returns the illegal-character score of the corrupt lines, or the first line's exception |
| Day10.CompletionScores | day10-syntax-scoring/day10.py:88-92 | completion scores are non-negative |
| Day10.CompletionScoresErrSticks | day10-syntax-scoring/day10.py:89-90 | once a line raises, `part_b` raises whatever lines follow |
| Day10.PartB | day10-syntax-scoring/day10.py:84-94 | returns the element at index `len // 2` of the sorted completion scores; raises when a line raises or no line is incomplete |
| Day11.NeighborsMeaning | day11-dumbo-octopus/day11.py:68-77 | the wiring gives each cell exactly the grid cells among the eight around it (both directions), at most eight, never itself and none twice when cells are distinct |
| Day11.AroundMembers | day11-dumbo-octopus/day11.py:71-73 | the clipped slice `[max(0, c-1):c+2]` holds at most three cells, exactly the in-range columns within one of `c`, without repeats |
| Day11.Octopus.constructor | day11-dumbo-octopus/day11.py:24-28 | a new octopus has the given energy, no flashes, is not flagged and has no neighbours |
| Day11.Octopus.StartStepAndAddEnergy | day11-dumbo-octopus/day11.py:30-34 | clears the flag and adds one energy, nothing else changes |
| Day11.Octopus.ThinkAboutFlashing | day11-dumbo-octopus/day11.py:36-44 | an already flagged octopus changes nothing; otherwise it gains the nudge and flashes exactly when it reaches 10, the cascade keeps every flagged octopus at energy 0 with one more flash and leaves the rest below 10 or untouched |
| Day11.Octopus.Flash | day11-dumbo-octopus/day11.py:46-53 | the octopus is flagged with energy 0 and one more flash, and the cascade to its neighbours keeps the grid settled; the recursion terminates because each flash flags one more octopus |
| Day11.MakeOctos | day11-dumbo-octopus/day11.py:61-66 | builds a grid of fresh, distinct octopuses of the same shape as the energies, each cell carrying its energy, no flashes and no neighbours |
| Day11.Wire | day11-dumbo-octopus/day11.py:70-77 | appends to one octopus exactly the cells above, below and beside it, changing no other field |
| Day11.WireRow | day11-dumbo-octopus/day11.py:68-77 | after row `r` every octopus of rows `0..r` carries exactly its grid neighbours |
| Day11.WireAll | day11-dumbo-octopus/day11.py:68-77 | every octopus carries exactly its grid neighbours |
| Day11.BuildGrid | day11-dumbo-octopus/day11.py:60-77 | a fresh distinct grid whose cells hold their energies and whose neighbour lists form a closed wiring |
| Day11.OctoGrid.constructor | day11-dumbo-octopus/day11.py:60-77 | the grid starts valid (distinct, wired, settled), every octopus with its energy and zero flashes |
| Day11.StartAll | day11-dumbo-octopus/day11.py:84-85 | every octopus is unflagged with one more energy |
| Day11.ThinkAll | day11-dumbo-octopus/day11.py:86-87 | after every octopus thinks, the grid is settled and each octopus either flashed once (energy 0) or stayed below 10 having gained energy, and every one that reached 10 flashed |
| Day11.OctoGrid.DoStep | day11-dumbo-octopus/day11.py:79-87 | one step keeps the grid valid; each octopus flashes at most once, exactly those that flashed have energy 0 and one more flash, every octopus that reached 10 flashed, the others stay below 10 |
| Day11.OctoGrid.CountFlashes | day11-dumbo-octopus/day11.py:89-95 | returns the sum of the flash counts of all octopuses |
| Day11.OctoGrid.DidTheyAllFlash | day11-dumbo-octopus/day11.py:97-101 | true exactly when every octopus has energy 0 |
| Day11.FlashesBound | day11-dumbo-octopus/day11.py:89-95 | the total flash count is at most the per-octopus bound times the number of octopuses |
| Day11.RunSteps | day11-dumbo-octopus/day11.py:109-110 | a bound only: running `steps` steps keeps the grid valid and raises no octopus's flash count by more than `steps` (see Left out) |
| Day11.PartA | day11-dumbo-octopus/day11.py:104-111 | a bound only: parse errors pass through, a parsed grid always gives an answer, and the flash total after 100 steps is at most 100 times the number of octopuses (see Left out) |
| Day11.PartB | day11-dumbo-octopus/day11.py:114-125 | parse errors pass through and a parsed grid always gives an answer; the step returned is at most the limit and is the first at which the ghost per-step record `synced` is true, `None` when it is false for all `limit` steps; the record itself is not tied to the octopuses in the contract (see Left out) |
| Day12.ParseEdgeSplit | day12-passage-pathing/day12.py:21 | a line read as a passage is its two caves joined by '-', neither holding a '-' |
| Day12.ParseEdgeJoin | day12-passage-pathing/day12.py:21 | writing two '-'-free cave names as `a-b` and reading the line back gives the same pair |
| Day12.ParseEdge | day12-passage-pathing/day12.py:21 | the unpacking of `line.split('-')` succeeds exactly when the line holds one '-' |
| Day12.AdjacencyFails | day12-passage-pathing/day12.py:18-28 | building the map raises exactly when some line does not name two caves |
| Day12.MalformedLineFails | day12-passage-pathing/day12.py:21 | one malformed line anywhere makes the whole build raise |
| Day12.AdjacencyStep | day12-passage-pathing/day12.py:22-27 | each well-formed line records its passage in both directions on the map built so far |
| Day12.AddPassageMeaning | day12-passage-pathing/day12.py:22-27 | recording `a-b` adds exactly the pairs (a,b) and (b,a), creates the entries of both caves and empties none |
| Day12.AdjacencyMeaning | day12-passage-pathing/day12.py:18-28 | `b` is listed under `a` exactly when some line joins them in either direction, and every entry is non-empty |
| Day12.BuildAdjacencyMap | day12-passage-pathing/day12.py:18-28 | the dictionary loop computes the map of `Adjacency`, raising exactly when it does |
| Day12.AdjacencySymmetric | day12-passage-pathing/day12.py:18-28 | the map is symmetric: `b` in `adj[a]` iff `a` in `adj[b]` |
| Day12.StepShrinks | day12-passage-pathing/day12.py:59-75 | with no two big caves joined, every recursive call uses up a small-cave visit or steps from a small cave to a big one, so the recursion ends |
| Day12.Paths | day12-passage-pathing/day12.py:44-76 | every path found extends `path_so_far`, follows passages from its last cave, ends at `end` and never re-enters `start` |
| Day12.Next | day12-passage-pathing/day12.py:52-75 | every path found through one neighbour continues `path_so_far` through that neighbour |
| Day12.ContinuesStep | day12-passage-pathing/day12.py:61-75 | a path continuing `path_so_far + [step]` continues `path_so_far` through `step` |
| Day12.BuildPaths | day12-passage-pathing/day12.py:44-76 | the returned list holds exactly the paths of `Paths`, each once, and raises exactly when `Paths` does |
| Day12.ContinueThrough | day12-passage-pathing/day12.py:53-75 | one turn of the loop yields exactly the paths of `Next` for that neighbour, without repeats |
| Day12.GatherStep | day12-passage-pathing/day12.py:52-76 | extending the results by one neighbour's paths keeps them exact and without repeats, since paths through different neighbours differ |
| Day12.StepFails | day12-passage-pathing/day12.py:52-76 | an exception through one neighbour is an exception of the whole call |
| Day12.GatheredAll | day12-passage-pathing/day12.py:76 | after all neighbours the gathered list is the result of `build_paths` |
| Day12.DistinctElements | day12-passage-pathing/day12.py:85 | a list without repeats has as many entries as distinct paths, so `len(paths)` counts paths |
| Day12.PathsRule | day12-passage-pathing/day12.py:62-72 | without a repeat allowed no small cave repeats on a path; with one allowed at most one small cave is visited twice and none three times |
| Day12.NextRule | day12-passage-pathing/day12.py:62-75 | the same small-cave rules for the paths through one neighbour |
| Day12.SnocFresh | day12-passage-pathing/day12.py:59-61 | stepping to a big cave or an unvisited small cave keeps both rules |
| Day12.SnocRepeat | day12-passage-pathing/day12.py:63-69 | revisiting a small cave on a path without repeats leaves exactly one repeat |
| Day12.PathsExact | day12-passage-pathing/day12.py:44-76 | when nothing raises, a path is found exactly when it is wanted: along passages to `end`, through big and small caves only, never back into `start`, with at most the allowed number of small-cave revisits |
| Day12.NextExact | day12-passage-pathing/day12.py:52-75 | the paths through one neighbour are exactly the wanted paths whose next cave is that neighbour |
| Day12.WantedStep | day12-passage-pathing/day12.py:63-75 | a path is wanted after taking `step` exactly when it is wanted before and takes `step`, the repeat being used up by a revisit |
| Day12.NoBigPassageFromLines | day12-passage-pathing/day12.py:59-61 | when no input line joins two big caves, no entry of the map does |
| Day12.StartPaths | day12-passage-pathing/day12.py:84 | each counted path starts at `start`, follows passages to `end`, never returns to `start` and keeps the small-cave rule of its part |
| Day12.PartA | day12-passage-pathing/day12.py:79-85 | raises when the map cannot be built or the search raises; otherwise returns the number of paths from `start` |
| Day12.PartB | day12-passage-pathing/day12.py:88-93 | the same count with one small cave allowed twice |
| Day13.ParseDotShow | day13-transparent-origami/day13.py:23-24 | a dot line `x,y` written from two naturals reads back as the dot (x, y) |
| Day13.ReadDots | day13-transparent-origami/day13.py:20-24 | when reading succeeds it stops at the first blank line and every line before it is non-blank |
| Day13.ReadDotsMembers | day13-transparent-origami/day13.py:20-24 | the dot set holds exactly the dots parsed from the lines before the blank line |
| Day13.ReadFolds | day13-transparent-origami/day13.py:25-27 | reading succeeds iff every remaining line has a last word; then there is one instruction per line, that line's last word |
| Day13.ReadDotLines | day13-transparent-origami/day13.py:20-24 | the `while` loop over the line iterator gives exactly the dots, the blank-line index or the exception (`StopIteration`, `ValueError`) of the reading function |
| Day13.ReadFoldLines | day13-transparent-origami/day13.py:25-27 | the `for` loop over the rest of the iterator gives exactly the fold list, or the `IndexError` of a blank line |
| Day13.GetDotsAndFolds | day13-transparent-origami/day13.py:15-28 | `get_dots_and_folds` returns the dots and the folds, or the first exception either loop raises |
| Day13.ParseFoldShow | day13-transparent-origami/day13.py:42-43 | an instruction `<axis>=<n>` whose axis holds no `=` reads back as that axis and pivot |
| Day13.FoldDot | day13-transparent-origami/day13.py:47-52 | a dot not past the line stays put; the fold keeps the other coordinate; a dot past the line lands as far before the line as it lay beyond it |
| Day13.FoldBound | day13-transparent-origami/day13.py:46-54 | after a fold no dot lies past the fold line |
| Day13.FoldIdempotent | day13-transparent-origami/day13.py:46-54 | folding the folded sheet again along the same line changes nothing |
| Day13.FoldCount | day13-transparent-origami/day13.py:53-54 | a fold never increases the number of dots |
| Day13.ScanDots | day13-transparent-origami/day13.py:44-52 | the loop collects exactly the dots past the line (`dots_to_remove`) and the images of exactly those dots (`dots_to_add`) |
| Day13.RemoveAddIsFold | day13-transparent-origami/day13.py:53-54 | removing the moved dots and adding their images yields the folded sheet |
| Day13.Paper.DoFold | day13-transparent-origami/day13.py:31-54 | a malformed instruction raises and leaves the dots unchanged; otherwise the dot set becomes its image under the fold |
| Day13.FoldAllCount | day13-transparent-origami/day13.py:71-72 | no sequence of folds increases the number of dots |
| Day13.PartA | day13-transparent-origami/day13.py:57-62 | the answer is the dot count after the first fold; no fold raises `IndexError`; reading and fold errors propagate |
| Day13.PartB | day13-transparent-origami/day13.py:65-73 | the sheet after all folds in order; an empty sheet raises `ValueError` in `max`; the first error stops it |
| Day14.ParseRules | day14-extended-polymerization/day14.py:25-27 | the rule lines parse exactly when every line splits into three words, one rule per line; a rule whose insert is not one character is refused, which the source does not do (see Left out) |
| Day14.RuleMapKeys | day14-extended-polymerization/day14.py:24-27 | every rule's pair becomes a key of the replacement dictionary |
| Day14.RuleMapLastWins | day14-extended-polymerization/day14.py:24-27 | each key of the dictionary maps to the insert of the last rule given for that pair |
| Day14.ParseRulesStep | day14-extended-polymerization/day14.py:25-27 | parsing one more line either fails with that line's error or appends its rule |
| Day14.RuleMapSnoc | day14-extended-polymerization/day14.py:27 | one more rule overwrites the dictionary entry for its pair |
| Day14.ReadPolymerAndReplacements | day14-extended-polymerization/day14.py:20-28 | the line-by-line loop returns exactly the polymer of line 0 and the dictionary of the parsed rules, or the first error (empty input, a malformed rule line) |
| Day14.ParseRulesErrSticks | day14-extended-polymerization/day14.py:25-27 | once a rule line fails to parse, reading the remaining lines fails with the same error |
| Day14.Inserted | day14-extended-polymerization/day14.py:36-40 | the grown polymer has 2n-1 elements and keeps the last element |
| Day14.InsertedIndices | day14-extended-polymerization/day14.py:37-39 | the original elements sit at the even positions in order and each pair's insert sits between them |
| Day14.InsertedStep | day14-extended-polymerization/day14.py:37-38 | one iteration of the loop covers one more pair of the polymer |
| Day14.HasRulesExtend | day14-extended-polymerization/day14.py:38 | a rule for the next pair extends rule coverage of the prefix |
| Day14.DoInsertion | day14-extended-polymerization/day14.py:31-40 | the loop returns the grown polymer, IndexError on an empty polymer, KeyError when some adjacent pair has no rule |
| Day14.PairSeqAt | day14-extended-polymerization/day14.py:107 | the i-th adjacent pair is made of elements i and i+1 |
| Day14.HasRulesPairs | day14-extended-polymerization/day14.py:110-112 | the polymer has a rule for every adjacent pair exactly when every pair in the counter has a rule |
| Day14.PairSeqSnoc | day14-extended-polymerization/day14.py:107 | appending an element appends the one pair it closes |
| Day14.PairSeqSnocTwo | day14-extended-polymerization/day14.py:107 | appending two elements appends the two pairs they close |
| Day14.PairsOfInserted | day14-extended-polymerization/day14.py:84-95 | the pairs of the grown polymer are, in order, the two pairs each old pair produces |
| Day14.RemoveSwap | day14-extended-polymerization/day14.py:110 | taking two different pairs out of the counter in either order leaves the same counter |
| Day14.FlatMapBagAny | day14-extended-polymerization/day14.py:110 | the fold over a counter's items does not depend on the order they are visited in |
| Day14.FlatMapBagAdd | day14-extended-polymerization/day14.py:110 | one more pair in the counter adds what that pair produces |
| Day14.FlatMapBagAll | day14-extended-polymerization/day14.py:110-112 | all n copies of a pair produce n times what one copy does |
| Day14.StepSeqBag | day14-extended-polymerization/day14.py:98-113 | counting the produced pairs is the fold of what each pair produces over the counter |
| Day14.LeftElements | day14-extended-polymerization/day14.py:61-73 | the left elements of all pairs plus the last element are exactly the elements of the polymer, with multiplicity |
| Day14.LeftElementsSnoc | day14-extended-polymerization/day14.py:67-72 | one more element adds one pair whose left element is the old last element |
| Day14.GrowPairs | day14-extended-polymerization/day14.py:109-113 | one round of the counter loop succeeds exactly when every pair has a rule, and gives the fold of the produced pairs |
| Day14.DropSub | day14-extended-polymerization/day14.py:110 | removing a visited pair keeps the unvisited pairs part of the counter |
| Day14.TimesPair | day14-extended-polymerization/day14.py:111-112 | count copies of a pair's two products add count to each product's counter entry |
| Day14.ProducedStep | day14-extended-polymerization/day14.py:110-112 | visiting one pair keeps the counter loop's invariant: done plus still to do is the whole result |
| Day14.LeftStep | day14-extended-polymerization/day14.py:69-70 | visiting one pair keeps the counting loop's invariant |
| Day14.Regroup | day14-extended-polymerization/day14.py:110-112 | moving a part from the pairs still to do to the pairs done keeps the total |
| Day14.AddToUnion | day14-extended-polymerization/day14.py:70 | `counts[a] += n` adds n copies of a |
| Day14.GetCountsFromPairs | day14-extended-polymerization/day14.py:61-73 | the counts are the left elements of all pairs plus the last element of the polymer; IndexError on an empty polymer |
| Day14.TimesOne | day14-extended-polymerization/day14.py:70 | count copies of a one-element multiset hold that element count times |
| Day14.GrowErrSticks | day14-extended-polymerization/day14.py:53-54 | once a growth step raises, growing further raises |
| Day14.GrowKeepsLast | day14-extended-polymerization/day14.py:53-54 | after k steps the polymer keeps its last element and has 2^k(n-1)+1 elements |
| Day14.SpreadUnique | day14-extended-polymerization/day14.py:55-58 | the difference between the largest and the smallest count is unique |
| Day14.Spread | day14-extended-polymerization/day14.py:55-58 | returns the largest count minus the smallest; IndexError on no counts |
| Day14.GrowPolymer | day14-extended-polymerization/day14.py:53-54 | the 10-step loop returns the polymer grown that many times, or raises when some step raises |
| Day14.PartA | day14-extended-polymerization/day14.py:43-58 | the answer is the spread of element counts of the polymer grown 10 times, or the error reading or growing raises |
| Day14.PairCountsStep | day14-extended-polymerization/day14.py:108-113 | one round of the counter loop agrees with one growth step of the polymer itself |
| Day14.GrowPairCounts | day14-extended-polymerization/day14.py:107-113 | the counter after k rounds is the multiset of adjacent pairs of the polymer grown k times, and raises exactly when growing it raises |
| Day14.PartB | day14-extended-polymerization/day14.py:76-116 | the pair-counter answer equals the spread of element counts of the polymer grown 40 times, as growing it itself would give |
| Day15.Manhattan | day15-chiton/day15.py:35-38 | the heuristic is a distance that is zero exactly between equal cells |
| Day15.ManhattanMetric | day15-chiton/day15.py:35-38 | the heuristic is symmetric and obeys the triangle inequality |
| Day15.Neighbors | day15-chiton/day15.py:19-32 | at most four neighbours; for a cell of the grid each is in the grid and one step away |
| Day15.NeighborsExact | day15-chiton/day15.py:19-32 | a cell is listed exactly when it is in the grid and one step from the given cell; no cell twice and never the cell itself |
| Day15.RiskSnoc | day15-chiton/day15.py:57 | extending a walk by one cell adds that cell's risk |
| Day15.WalkSnoc | day15-chiton/day15.py:56-57 | a walk extended by a neighbour of its end is a walk to that neighbour |
| Day15.HeuristicAdmissible | day15-chiton/day15.py:35-38 | when every risk is at least 1, no walk costs less than the Manhattan distance between its ends |
| Day15.PopMin | day15-chiton/day15.py:53 | the popped entry is a least one in tuple order and the rest of the frontier is what remains |
| Day15.RiskNonNegative | day15-chiton/day15.py:57 | with no negative risks no walk has negative risk |
| Day15.KnownPop | day15-chiton/day15.py:53 | after a pop the popped cell and every remaining frontier cell have a cost |
| Day15.RelaxNeighbor | day15-chiton/day15.py:57-62 | a neighbour gets cost[current] plus its risk, is pushed with that plus the heuristic and remembers current, exactly when it had no cost or a higher one; otherwise nothing changes |
| Day15.RelaxedStep | day15-chiton/day15.py:56-62 | handling one more neighbour keeps the loop's record: no cost rises, a changed cost is cost[current] plus that cell's risk and the cell came from current, new frontier entries carry their cost plus the heuristic |
| Day15.RelaxEach | day15-chiton/day15.py:56-62 | the loop over distinct cells leaves that record for all of them |
| Day15.Relax | day15-chiton/day15.py:56-62 | over the neighbours of current: an existing cost is only replaced by a strictly smaller one, and only neighbours change |
| Day15.WalkedAt | day15-chiton/day15.py:49-62 | every recorded cost is in the grid and is the risk of a walk from start to that cell |
| Day15.WalkedRelaxed | day15-chiton/day15.py:56-62 | after relaxing, every cost is still the risk of a walk from start and cost[start] stays 0 |
| Day15.LinkedRelaxed | day15-chiton/day15.py:49-62 | after relaxing, start still came from nowhere and every other cell from a neighbour that has a cost |
| Day15.KnownRelaxed | day15-chiton/day15.py:61 | after relaxing, every frontier cell has a cost |
| Day15.RecordedRelaxed | day15-chiton/day15.py:46-62 | relaxing the neighbours of a recorded cell keeps everything the search records |
| Day15.AStar | day15-chiton/day15.py:41-63 | a returned cost is the risk of a walk from start to dest; it is 0 when start is dest |
| Day15.Inc | day15-chiton/day15.py:84 | one tile on a risk 1..9 stays in 1..9 and below 9 it is one more |
| Day15.IncNAdd | day15-chiton/day15.py:79-92 | going a tiles and then b more is going a+b tiles |
| Day15.IncNWraps | day15-chiton/day15.py:79-92 | a digit 1..9 moved k tiles on is v+k wrapped into 1..9 |
| Day15.RowAtTile | day15-chiton/day15.py:79-84 | column c0 of copy j of a row is the original cell j tiles on |
| Day15.ExpandedTile | day15-chiton/day15.py:74-92 | cell (r0,c0) of tile (i,j) of the expanded grid is the original cell i+j tiles on |
| Day15.ExpandedWraps | day15-chiton/day15.py:74-92 | for digits 1..9, cell (r0,c0) of tile (i,j) is the digit plus i+j wrapped into 1..9 |
| Day15.ExtendRow | day15-chiton/day15.py:81-84 | one more copy of a row is appended, each cell one tile on from the cell a row-width to its left |
| Day15.NextRow | day15-chiton/day15.py:88-92 | a new row is the row a grid-height above it, every cell one tile on |
| Day15.ExpandRight | day15-chiton/day15.py:79-84 | every row becomes five copies wide |
| Day15.ExpandGrid | day15-chiton/day15.py:74-92 | the grid becomes five times as large in each direction whatever n is, each cell the tile-shifted original; no negative risk appears |
| Day15.ParsedSquare | day15-chiton/day15.py:69 | the parsed square map is square with digit risks, all at least 1 when no digit is 0 |
| Day15.SearchCorners | day15-chiton/day15.py:70 | an empty map is a KeyError; a result is the risk of a walk between the corners, at least their Manhattan distance when no risk is 0, and 0 for a one-cell map |
| Day15.PartA | day15-chiton/day15.py:66-71 | a non-digit or an empty map is an error; the answer is the risk of a walk from top-left to bottom-right, at least 2(n-1) when no digit is 0 |
| Day15.PartB | day15-chiton/day15.py:95-102 | the same search on the map expanded five times in each direction; the answer is the risk, read through the expansion, of a walk between its corners |
| Day15.RiskOfExpanded | day15-chiton/day15.py:74-92 | on the grid `expand_grid` builds, the risk of a walk equals its risk read tile by tile from the original map |
| Day15.ExpandedAtNonNegative | day15-chiton/day15.py:79-92 | the expanded grid holds no negative risk when the original holds none |
| Util.BinaryValueBound | day16-packet-decoder/day16.py:36 | the value of an n-bit binary string is below 2 to the n |
| Util.ParseBinary | day16-packet-decoder/day16.py:32-36 | a bit field read as a number succeeds exactly on a non-empty string of '0' and '1', and its value then fits in as many bits as the field has |
| Util.ParseIntBase2 | day03-sub-diagnostics/day03.py:36 | `int(s, 2)` reads every non-empty string of '0' and '1' as its binary value; whitespace, sign, `0b` prefix and underscores are read as `int` reads them |
| Util.ParseBinaryAgrees | day16-packet-decoder/day16.py:36 | wherever the bit-field reader succeeds, `int(b, 2)` gives the same value, and both fail on an empty field |
| Util.ParseBase2Examples | day03-sub-diagnostics/day03.py:36 | `int(x, 2)` reads `1_1` as 3, `0b1` as 1 and `000` as 0 |
| Util.ParseBase2SignedExample | day03-sub-diagnostics/day03.py:36 | `int(x, 2)` strips whitespace and reads a sign, a `0B` prefix and one underscore after it: ` -0B_10 ` is -2 |
| Util.ParseBase2Rejects | day03-sub-diagnostics/day03.py:36 | `int(x, 2)` rejects a bare prefix `0b`, a doubled underscore and the digit 2 |
| Day16.FieldIsBits | day16-packet-decoder/day16.py:32-36 | every field `to_int` cuts from a stream of bits is a bit string, on which the bit-field reader and `int(b, 2)` succeed together and agree |
| Day16.Slice | day16-packet-decoder/day16.py:28 | Python slicing with a cursor that may run past the end: inside the string it is the ordinary slice, past the end it is empty, and it never holds more than `to - from` characters |
| Day16.Bin | day16-packet-decoder/day16.py:133 | `bin(v)[2:]` is a non-empty binary string whose value is v |
| Day16.RJustZero | day16-packet-decoder/day16.py:133 | `rjust(4, '0')` pads a string to the width and leaves a longer one as it is |
| Day16.LeadingZeros | day16-packet-decoder/day16.py:133 | zeros padded on the left do not change a binary value |
| Day16.Nibble | day16-packet-decoder/day16.py:133 | a hex digit's value below 16 becomes exactly four binary characters with that value |
| Day16.ExpandHex | day16-packet-decoder/day16.py:133 | the expansion succeeds exactly when every character is an ASCII hex digit, and then yields four binary characters per input character |
| Day16.ExpandHexRegroups | day16-packet-decoder/day16.py:133 | the four bits at position 4k of the expansion are the value of the k-th hex digit, so the expansion is invertible |
| Day16.Operate | day16-packet-decoder/day16.py:52-77 | type 0 sums, type 1 multiplies (1 for no operands), types 2 and 3 give the least and greatest operand and fail on none, types 5, 6 and 7 need exactly two operands and give 1 exactly when the first is greater, less or equal, and types 4 and above 7 are errors |
| Day16.Extreme | day16-packet-decoder/day16.py:62-65 | `min` and `max` of a non-empty operand list return one of the operands, no greater (or no smaller) than every operand |
| Day16.LiteralGroups | day16-packet-decoder/day16.py:92-98 | the literal loop ends at the first 5-bit group whose lead bit is '0', every earlier group leads with another bit, the cursor moves by whole groups, and at most four value bits are kept per group |
| Day16.PrependNothing | day16-packet-decoder/day16.py:110-114 | adding no version and no operand to a run of siblings changes nothing |
| Day16.PrependTwice | day16-packet-decoder/day16.py:110-114 | accumulating two siblings one after the other is the same as accumulating their combined versions and operands once |
| Day16.ReadPacketSpec | day16-packet-decoder/day16.py:80-127 | a packet that parses starts inside the bits, spans at least its 6 header bits, has a 3-bit version, and its version total includes its own version |
| Day16.SubPackets | day16-packet-decoder/day16.py:103-126 | the sub-packets of an operator never move the cursor backwards |
| Day16.LengthDelimited | day16-packet-decoder/day16.py:104-115 | the length-delimited sub-packets never move the cursor backwards |
| Day16.Delimited | day16-packet-decoder/day16.py:107-115 | a sub-stream's packets are reported unchanged except that the run ends at the outer cursor, and a sub-stream error passes through |
| Day16.CountDelimited | day16-packet-decoder/day16.py:116-124 | the count-delimited sub-packets never move the cursor backwards |
| Day16.ReadCount | day16-packet-decoder/day16.py:118-123 | reading n packets from the shared stream yields exactly n operands |
| Day16.ReadCountStep | day16-packet-decoder/day16.py:120-123 | reading n packets is reading the first one and then n - 1 more, and stops at the first error |
| Day16.ReadAll | day16-packet-decoder/day16.py:109-114 | reading a sub-stream to its end stops only where no non-zero bit remains |
| Day16.BitStream.constructor | day16-packet-decoder/day16.py:21-23 | a new stream holds the bits with the cursor at 0 |
| Day16.BitStream.Take | day16-packet-decoder/day16.py:25-30 | `take` returns the slice at the cursor and moves the cursor by n even past the end; inside the string the slice has n bits |
| Day16.BitStream.ToInt | day16-packet-decoder/day16.py:32-36 | `to_int` moves the cursor by n and returns the binary value of the taken bits, below 2 to the n |
| Day16.BitStream.HasMorePackets | day16-packet-decoder/day16.py:38-46 | more packets remain exactly when some bit at or after the cursor is not '0' |
| Day16.ReadLiteralBits | day16-packet-decoder/day16.py:92-98 | the literal loop returns the kept value bits and leaves the cursor after the last group, or raises as the groups specify |
| Day16.ReadAllPackets | day16-packet-decoder/day16.py:111-114 | the `while has_more_packets()` loop returns the versions and operands of all packets in the sub-stream and leaves its cursor where the specification says |
| Day16.CountStep | day16-packet-decoder/day16.py:120-123 | one turn of the count loop: the packet just read joins the siblings before it, or its error ends the run |
| Day16.ReadSibling | day16-packet-decoder/day16.py:120-123 | the body of the count loop reads one packet from the shared stream and keeps the run equal to its specification |
| Day16.ReadCountPackets | day16-packet-decoder/day16.py:118-123 | the `for` loop over the announced count returns the versions and operands of that many packets and leaves the cursor after them |
| Day16.ReadSubPackets | day16-packet-decoder/day16.py:103-126 | the length-type branch returns what the sub-packet specification gives, including the unknown-length-type error |
| Day16.ReadLengthDelimited | day16-packet-decoder/day16.py:107-115 | a dedicated sub-stream of `num_bits` bits is read to its end and the outer cursor moves past those bits |
| Day16.ReadCountDelimited | day16-packet-decoder/day16.py:118-124 | the 11-bit count is read and that many packets follow on the same stream |
| Day16.LengthDelimitedOf | day16-packet-decoder/day16.py:107-115 | once the 15-bit length is read and the sub-stream cut, the length-delimited run is that sub-stream's packets ending past it, and the sub-stream is shorter than what remained |
| Day16.ReadSubStream | day16-packet-decoder/day16.py:107-108 | `to_int(15)` then `take(num_bits)`: fails exactly where the length fails, otherwise yields a shorter sub-stream whose packets are the length-delimited run |
| Day16.ReadPacket | day16-packet-decoder/day16.py:80-127 | `read_packet` returns the version total and value of the packet at the cursor, and moves the cursor to its end, exactly as the recursive specification does, or fails where it fails |
| Day16.ReadLiteralPacket | day16-packet-decoder/day16.py:90-100 | the literal branch returns the packet's version and the binary value of its kept group bits, leaving the cursor after the last group, or fails where the specification does |
| Day16.ReadOperatorPacket | day16-packet-decoder/day16.py:101-127 | the operator branch returns its version plus its children's version totals and `operate` of their values, or fails where the specification does |
| Day16.PartA | day16-packet-decoder/day16.py:130-136 | the answer is the version total of the outermost packet of the first line, and an error exactly when decoding fails |
| Day16.PartB | day16-packet-decoder/day16.py:139-145 | the answer is the value of the outermost packet of the first line, and an error exactly when decoding fails |
| Day16.LengthTypeZeroAdvance | day16-packet-decoder/day16.py:103-109 | an operator packet with length type '0' ends exactly 22 + num_bits bits after its start, whatever its children hold |
| Day16.LengthTypeOneChildren | day16-packet-decoder/day16.py:116-124 | an operator packet with length type '1' that parses has exactly the announced number of children |
| Day16.LiteralLength | day16-packet-decoder/day16.py:90-100 | a literal packet ends after its 6 header bits and a whole number of at least one 5-bit group, the last of which leads with '0' |
| Day16.ExampleValues | day16-packet-decoder/day16.py:86-99 | the header and literal bits of the puzzle's literal example read 6, 4 and 2021 |
| Day16.ExampleParses | day16-packet-decoder/day16.py:86-99 | the header and literal bits of the puzzle's literal example are binary strings whose `int(_, 2)` is 6, 4 and 2021 |
| Day16.ExampleGroups | day16-packet-decoder/day16.py:92-98 | the puzzle's literal example has three groups ending at bit 21 and keeps the bits of 2021 |
| Day16.LiteralExample | day16-packet-decoder/day16.py:80-100 | the bits of the puzzle's literal example (hex D2FE28) decode to version 6, value 2021, ending at bit 21 |
| Day17.AtSpeeds | day17-trick-shot/day17.py:31-34 | after k steps the vertical speed is k lower and a non-negative horizontal speed has drifted k closer to 0, stopping there |
| Day17.AtHeight | day17-trick-shot/day17.py:31-33 | the height after k steps follows the parabola y + k vy - k(k-1)/2 |
| Day17.ComesBack | day17-trick-shot/day17.py:42-43 | a shot fired upwards at speed vy is back at height 0 after 2 vy + 1 steps, falling at vy + 1 |
| Day17.HighestIsMax | day17-trick-shot/day17.py:23-27 | the tracked maximum is at least every height visited and equals one of them |
| Day17.EndsOnce | day17-trick-shot/day17.py:25-35 | a flight ends once: its first hit or first exit from the loop guard is unique |
| Day17.SimulateHit | day17-trick-shot/day17.py:25-30 | when the probe is first in the target after k steps the result is the highest point up to there |
| Day17.SimulateMiss | day17-trick-shot/day17.py:25-35 | when the probe leaves the loop guard before entering the target the result is the miss |
| Day17.SimulateEnds | day17-trick-shot/day17.py:25-35 | every flight ends in a first hit or a first exit: the loop terminates |
| Day17.SimulateAbove | day17-trick-shot/day17.py:23-27 | a reported height is never below the starting maximum of 0 |
| Day17.DoesHitTarget | day17-trick-shot/day17.py:19-35 | the loop computes the step-by-step flight result and a reported height is at least 0 |
| Day17.HitHeight | day17-trick-shot/day17.py:48-51 | the height the search keeps for a shot is never negative |
| Day17.RowHitsCounts | day17-trick-shot/day17.py:47-50 | the inner loop's count is the number of hitting horizontal speeds of the row |
| Day17.RowsCount | day17-trick-shot/day17.py:46-50 | the nested loops' count is the number of hitting shots in the box of speeds |
| Day17.RowBestIsMax | day17-trick-shot/day17.py:47-51 | the inner loop's maximum is at least every hit's height in the row and is the start value or one of them |
| Day17.BestIsMax | day17-trick-shot/day17.py:46-51 | the nested loops' maximum is non-negative, at least every hit's height in the box, and 0 or one of them |
| Day17.FindWaysToHitTarget | day17-trick-shot/day17.py:38-52 | the count is the number of hitting shots with vy from abs(bottom) down to bottom and vx from 0 to right; the maximum is the highest point of any of them, 0 when none hits |
| Day17.HitsInSearch | day17-trick-shot/day17.py:42-46 | for a target right of and below the origin every hitting shot lies in the search box |
| Day17.StaysLeft | day17-trick-shot/day17.py:32-34 | a negative horizontal speed becomes 0 after one step and the probe stays left of the origin |
| Day17.MovesRight | day17-trick-shot/day17.py:32-34 | a non-negative horizontal speed never moves the probe left and carries it at least vx after one step |
| Day17.Falls | day17-trick-shot/day17.py:31-33 | a non-positive vertical speed only lowers the probe |
| Day17.AboveStart | day17-trick-shot/day17.py:42-43 | a shot fired upwards stays at or above height 0 until it comes back to 0 |
| Day17.PartA | day17-trick-shot/day17.py:59-63 | the answer is the highest point of any hitting shot of the search |
| Day17.PartB | day17-trick-shot/day17.py:66-70 | the answer is the number of hitting shots of the search |
| Day17.SearchComplete | day17-trick-shot/day17.py:42-46 | for a target right of and below the origin a shot is among the search's hits exactly when it hits |
| Day18.ShowInt | day18-snailfish/day18.py:82-83 | `str(value)` is non-empty and holds no bracket or comma, so it never starts a pair |
| Day18.ParseShowInt | day18-snailfish/day18.py:82-83 | `int(str(v)) == v` for every integer |
| Day18.Show | day18-snailfish/day18.py:79-84 | the text of a number is non-empty, starts with '[' exactly for a pair, and a pair's text ends with ']' |
| Day18.FindComma | day18-snailfish/day18.py:69-76 | the scan only ever reports a position that holds a comma |
| Day18.SplitPairSpec | day18-snailfish/day18.py:56-77 | `split_pair` succeeds exactly on bracketed text with a comma outside any inner bracket, and then `'[' + left + ',' + right + ']'` is the text, with left ending at the first such comma |
| Day18.SplitPair | day18-snailfish/day18.py:56-77 | the loop over the characters counting open brackets returns the split the specification gives, or raises when no top-level comma exists |
| Day18.ScanThrough | day18-snailfish/day18.py:69-76 | scanning over the complete text of a nested number finds no top-level comma inside it |
| Day18.ParseShow | day18-snailfish/day18.py:25-84 | parsing the text of any snailfish number gives that number back |
| Day18.AddRightmostLeaves | day18-snailfish/day18.py:146-148 | adding to a subtree's rightmost number changes only the last of its regular numbers |
| Day18.AddLeftmostLeaves | day18-snailfish/day18.py:136-140 | adding to a subtree's leftmost number changes only the first of its regular numbers |
| Day18.Explode | day18-snailfish/day18.py:113-159 | an explosion happens exactly when some pair below level 4 holds two regular numbers; it removes two nodes, and with none the number is unchanged |
| Day18.ExplodeLeaves | day18-snailfish/day18.py:113-159 | the exploded pair's numbers are consecutive regular numbers; they are replaced by a 0, the left one is added to the number before them and the right one to the number after them, where those exist |
| Day18.ExplodableCan | day18-snailfish/day18.py:113-159 | a position where a pair deeper than level 4 holds two regular numbers makes the number explodable |
| Day18.ExplodeLeftmost | day18-snailfish/day18.py:113-159 | the exploded numbers sit where a pair deeper than level 4 holds two regular numbers, and no such pair lies further left: the leftmost explodable pair is the one exploded |
| Day18.Split | day18-snailfish/day18.py:161-180 | a split happens exactly when some regular number is 10 or more; it adds two nodes, and with none the number is unchanged |
| Day18.NoSplitLeaves | day18-snailfish/day18.py:161-180 | with nothing to split, every regular number is below 10 |
| Day18.SplitLeaves | day18-snailfish/day18.py:161-176 | the split number is the leftmost one of 10 or more, and it is replaced by its halves rounded down and up, leaving all other numbers in place |
| Day18.CanSplitLeaves | day18-snailfish/day18.py:166-180 | `split` finds something exactly when some regular number is 10 or more |
| Day18.SplitKeepsSum | day18-snailfish/day18.py:171-172 | the two halves of a split sum to the split value, so the sum of the regular numbers is unchanged |
| Day18.Reduce | day18-snailfish/day18.py:40-53 | the reduced number can neither explode nor split, and an already reduced number is returned unchanged |
| Day18.ReduceIdempotent | day18-snailfish/day18.py:40-53 | reducing a reduced number again changes nothing |
| Day18.AddBuildsPair | day18-snailfish/day18.py:90 | the text `[a,b]` built by `__add__` parses to the pair of a and b |
| Day18.Add | day18-snailfish/day18.py:86-92 | a sum is always reduced, and the pair of two numbers that needs no reduction is its own sum |
| Day18.MagnitudeAtLeastSum | day18-snailfish/day18.py:182-187 | with no negative numbers, the magnitude is at least the sum of the regular numbers |
| Day18.ExplodeExample | day18-snailfish/day18.py:213 | `[[[[[9,8],1],2],3],4]` explodes to `[[[[0,9],2],3],4]` |
| Day18.ExplodeExampleRight | day18-snailfish/day18.py:214 | `[7,[6,[5,[4,[3,2]]]]]` explodes to `[7,[6,[5,[7,0]]]]` |
| Day18.SplitExamples | day18-snailfish/day18.py:227-228 | `[10,8]` splits to `[[5,5],8]` and `[4,[8,11]]` to `[4,[8,[5,6]]]` |
| Day18.AddExample | day18-snailfish/day18.py:241-243 | `[1,1]+[2,2]+[3,3]+[4,4]` is `[[[[1,1],[2,2]],[3,3]],[4,4]]` |
| Day18.MagnitudeExample | day18-snailfish/day18.py:285-289 | the magnitude of the sample's final sum is 4140 |
| Day20.Framed | day20-trench-map/day20.py:24-29 | the padded image is a square of side len + 2 padding with the input at its centre and '.' everywhere else |
| Day20.Image.constructor | day20-trench-map/day20.py:17-29 | keeps the algorithm, sets the grown side to the input's side and builds the framed image |
| Day20.Bits | day20-trench-map/day20.py:45 | one '0'/'1' character per pixel |
| Day20.WindowIndex | day20-trench-map/day20.py:45-46 | the index a window spells is below 512, so it always selects a character of the algorithm |
| Day20.LeadingBit | day20-trench-map/day20.py:46 | a binary string's value is its first bit's weight plus the value of the rest |
| Day20.WindowIndexBits | day20-trench-map/day20.py:42-46 | big-endian order: the top-left pixel weighs 256 and the bottom-right pixel 1 |
| Util.ZerosValue | day20-trench-map/day20.py:46 | a string of zeros is worth 0 |
| Day20.OnesValue | day20-trench-map/day20.py:46 | a string of n ones is worth 2^n - 1 |
| Day20.WindowIndexUniform | day20-trench-map/day20.py:45-47 | an all-dark window selects algorithm index 0 and an all-lit one index 511 |
| Day20.Neighborhood | day20-trench-map/day20.py:42-44 | the three three-pixel slices are the nine pixels around (y, x), row by row |
| Day20.Enhanced | day20-trench-map/day20.py:37-47 | the enhanced image keeps the side, is square, and its border is '.' |
| Day20.Image.Enhance | day20-trench-map/day20.py:34-49 | every inner pixel becomes the algorithm's character for its old neighbourhood, the border stays '.', the grown side widens by 2 and the validity invariant is kept |
| Day20.RowCountCells | day20-trench-map/day20.py:55-57 | the count along a row is the number of its cells that satisfy the test |
| Day20.BlockCountCells | day20-trench-map/day20.py:54-57 | the nested count is the number of cells of the block that satisfy the test |
| Day20.Image.CountLitBits | day20-trench-map/day20.py:51-58 | counts the lit pixels of the centred square of side actual_dim, and fails exactly when that square is wider than the image |
| Day20.FramedAgrees | day20-trench-map/day20.py:24-29 | the framed input shows the infinite image before any enhancement |
| Day20.EnhanceAgrees | day20-trench-map/day20.py:39-47 | one enhancement matches the infinite image's enhancement everywhere but one more outer ring |
| Day20.RowAgrees | day20-trench-map/day20.py:55-57 | where the square shows the infinite image a row counts as many lit pixels |
| Day20.CountAgrees | day20-trench-map/day20.py:54-57 | where the square shows the infinite image a block counts as many lit pixels |
| Day20.EnhanceTimes | day20-trench-map/day20.py:63-64 | n enhancements widen the grown side by 2n and keep the image equal to the infinite one except in n outer rings |
| Day20.GrownCount | day20-trench-map/day20.py:61-65 | after n enhancements with padding 2n the grown square has as many lit pixels as the infinite image in the same place |
| Day20.PartA | day20-trench-map/day20.py:61-65 | the answer is the number of lit pixels of the infinite image after n enhancements within n pixels of the input; input without lines fails |
| Day20.PartB | day20-trench-map/day20.py:68-69 | the same for 50 enhancements |
| Day21.Advance | day21-dirac-dice/day21.py:34-36 | from a space of the track (1..10), moving 0..9 spaces lands on the track; from a position of at least 1 the pawn never drops below 1 |
| Day21.AdvanceIsCircular | day21-dirac-dice/day21.py:32-36 | subtracting 10 once is moving round a circular track of ten spaces numbered 1..10 |
| Day21.StartPositions | day21-dirac-dice/day21.py:24-25 | no lines raise `IndexError`; a first line whose last word is missing or not an integer raises its own error before the second line is indexed; a single good line raises `IndexError`; otherwise both positions or the second line's error |
| Day21.OneBadLineExample | day21-dirac-dice/day21.py:24 | the one-line input `x` raises `int`'s `ValueError`, not `IndexError` |
| Day21.DieValue | day21-dirac-dice/day21.py:27 | every roll of the deterministic die is in 1..100 |
| Day21.DieCycles | day21-dirac-dice/day21.py:27 | the die repeats with period 100 and counts 1, 2, ... through its first cycle |
| Day21.Die.Take3 | day21-dirac-dice/day21.py:27-31 | three rolls are the next three values of the cycle, and the die advances by three |
| Day21.TurnMove | day21-dirac-dice/day21.py:31-32 | each turn moves 0..9 spaces |
| Day21.Play | day21-dirac-dice/day21.py:29-42 | the game ends with some score at 1000 or more; positions stay at least 1 |
| Day21.PlayStopsAtFirstWinner | day21-dirac-dice/day21.py:29 | from two scores below 1000, the game lasts at least one turn and stops with exactly one score at 1000 or more |
| Day21.PlayStaysOnTrack | day21-dirac-dice/day21.py:33-42 | from positions on the track, the final positions are on the track |
| Day21.PlayDeterministic | day21-dirac-dice/day21.py:26-43 | the loop with the stateful die gives the losing score times three rolls per turn of the played-out game |
| Day21.PartA | day21-dirac-dice/day21.py:20-43 | the parse error, or the part A answer from the two starting positions |
| Day21.RollSum | day21-dirac-dice/day21.py:63-65 | every triple of `product((1, 2, 3), repeat=3)` totals 3..9 |
| Day21.GroupTotals | day21-dirac-dice/day21.py:63-65 | summing a contribution over the 27 triples in product order equals weighting the totals 3..9 by their frequencies 1, 3, 6, 7, 6, 3, 1 |
| Day21.WinsOverTable | day21-dirac-dice/day21.py:64-75 | the accumulation over the triples is the per-total contribution summed triple by triple |
| Day21.WinsGrouped | day21-dirac-dice/day21.py:61-76 | the wins `better_count_wins` counts equal the reference count that weights each roll total by its frequency |
| Day21.ImmediateWin | day21-dirac-dice/day21.py:69-71 | a mover with 20 or more points wins in all 27 universes of the turn, and the other player in none |
| Day21.BetterCountWins | day21-dirac-dice/day21.py:46-76 | the loop over the 27 triples, with its recursive calls and role swap, returns the wins of the mover and of the other player |
| Day21.PartB | day21-dirac-dice/day21.py:79-83 | the parse error, or the larger of the two win counts from the starting positions with scores 0 |
| Day22.Within50Exact | day22-reactor-reboot/day22.py:32-38 | for a non-empty cuboid that lies wholly inside or wholly outside the region -50..50, testing only the three lower bounds decides which |
| Day22.GetIntersection | day22-reactor-reboot/day22.py:40-57 | a returned cuboid is non-empty, its bounds lie within both cuboids on every axis, and its state is the opposite of `earlier`'s |
| Day22.IntersectionPoints | day22-reactor-reboot/day22.py:44-57 | a cube lies in both cuboids iff an intersection is returned and holds it; so `None` exactly when they share no cube |
| Day22.Volume | day22-reactor-reboot/day22.py:59-65 | a non-empty cuboid has volume at least 1 when on and at most -1 when off |
| Day22.VolumeIsSignedSize | day22-reactor-reboot/day22.py:62-65 | the volume is the sign of the state times the product of the three inclusive side lengths |
| Day22.Select | day22-reactor-reboot/day22.py:74-78 | the kept cuboids are exactly the instructions that pass `is_within_50` when `just_50`: every kept one is an instruction that passes, and every passing instruction is kept; without `just_50` all are kept in order |
| Day22.CorrectionsWeight | day22-reactor-reboot/day22.py:88-92 | the correction cuboids cancel, cube by cube, the weight the processed list gives inside the new cuboid and add nothing outside it |
| Day22.StepWeight | day22-reactor-reboot/day22.py:87-97 | after one pass the cubes of the new cuboid weigh 1 if it is on and 0 if off (an off cuboid enters only through its corrections); other cubes keep their weight |
| Day22.ProcessWeight | day22-reactor-reboot/day22.py:86-97 | in the processed list every cube weighs 1 if the last instruction holding it is on and 0 otherwise |
| Day22.SelectCuboids | day22-reactor-reboot/day22.py:73-78 | the filtering loop keeps exactly the selected cuboids |
| Day22.ProcessCuboids | day22-reactor-reboot/day22.py:86-97 | the nested loops build exactly the processed list: each cuboid, if on, followed by one correction per overlapping earlier entry in order |
| Day22.SumBoxCuboid | day22-reactor-reboot/day22.py:59-65 | summed cube by cube over any box holding it, a non-empty cuboid's signed cubes give its volume |
| Day22.SumBoxWeights | day22-reactor-reboot/day22.py:98-99 | for non-empty cuboids inside a box, the sum of their volumes equals the sum over the box of each cube's weight |
| Day22.CorrectionsWithin | day22-reactor-reboot/day22.py:88-92 | every correction cuboid is non-empty and lies inside the new cuboid |
| Day22.ProcessWithin | day22-reactor-reboot/day22.py:86-97 | from non-empty instructions inside a box, the processed list holds only non-empty cuboids inside that box |
| Day22.LitCubesCounted | day22-reactor-reboot/day22.py:86-99 | for non-empty instructions inside a box, the signed volumes of the processed list add up to the number of cubes of the box left on (a count taken cube by cube from the last instruction holding each) |
| Day22.PartA | day22-reactor-reboot/day22.py:71-99 | the answer is the sum of the signed volumes of the processed list built from the selected instructions, and for every box holding the selected instructions (each non-empty) it is the number of cubes of that box left on by them |
| Day22.PartB | day22-reactor-reboot/day22.py:102-103 | the same over all instructions: the number of cubes left on, whenever every instruction is non-empty |

## Left out

- The shared driver in `aoc_utils.py` is not part of this model: file reading, stripping, timing, printing and the comparison with the sample answers. Every `part_a`/`part_b` takes the stripped lines (or parsed values) as a parameter.
- The sample answers (`test_assertion_a/b`) are not proved, because the sample input files are not part of this model. Where a solver's own source spells out an example, a lemma covers it instead:
  - the literal packet of day 16;
  - the explode, split, addition and magnitude examples of day 18.
- The `parse` package is third-party. Days 5, 17 and 22 therefore take pre-parsed segments, a target and cuboids. Day 7 takes the crab positions as natural numbers, so the text split of the comma list is not modelled.
- The order in which Python iterates over a set or dictionary is not modelled. Results that depend only on the set are specified as sets; the basin search of day 9, the paths of day 12 and the dots of day 13 are examples.
- The printing of the folded dots in day 13's `part_b` is not modelled. The model returns the dot set.
- `functools.cache`, used by day 21, is not modelled: memoisation only saves time, so `Day21.Wins` is the plain recursion.
- Runtime cost is not modelled, for example the quadratic growth of the processed list in day 22.
- Day03.PartB: with the least-common criterion the candidate set can become empty. An example is the lines `00`, `01` at the second bit. The source then raises, and the model returns `Err`; `Day03.LeastCommonCanEmpty` shows this.
- Day05.PartA takes segments whose end points are at least 0, as puzzle inputs are. The `{:d}` pattern also reads a minus sign; a negative coordinate would then index the field from its far end, as Python lists do, or raise `IndexError`. The model does not follow this.
- Day05.PartB takes the same segments, for the same reason.
- Util.ParseInt reads ASCII digits only. Python's `int` also accepts the other Unicode decimal digits; puzzle inputs hold none.
- Day09.ParseRow reads the ASCII digits '0'..'9' only. `int(h)` also reads the other Unicode decimal digits (`int('٣')` is 3), which the model refuses with ValueError. Days 11 and 15 read their grids with the same ParseRow. Puzzle inputs hold none of these digits.
- Day16.ExpandHex, through Day16.HexValue, reads the ASCII hex digits only. `int(c, 16)` also reads the other Unicode decimal digits (`int('٣', 16)` is 3, giving the bits `0011`), which the model refuses. Puzzle inputs hold none of these digits.
- Util.ParseIntBase2 reads ASCII '0' and '1' only. `int(x, 2)` also accepts Unicode decimal digits of value 0 and 1; puzzle inputs hold none.
- Util.ParseBinary accepts only a non-empty string of '0' and '1', where `int(b, 2)` also reads a sign, whitespace, a `0b` prefix and underscores. Only day 16 uses it, on fields cut from the stream of bits it expands from hexadecimal; Day16.FieldIsBits shows that on those fields it agrees with `int(b, 2)` (Util.ParseIntBase2), which day 3 uses on its raw lines.
- Day08.Reverse: the reverse wire map is not proved to be a bijection on the letters a to g. Two wires left with the same single segment are not ruled out; the later wire then wins, as the dictionary assignment does.
- Day11.OctoGrid.DoStep is stated weaker than the source. The new energy of an octopus is bounded, not given: it is 0 if the octopus flashed, and otherwise at least its old energy plus one and below the flash level. The exact value is not stated; it would be the old energy plus one plus the number of flashing neighbours.
- Day11.RunSteps is stated weaker than the source: it bounds the flash counts and does not give them. The model has no pure reference for a step and its flash cascade to compare the octopus objects with.
- Day11.PartA is stated weaker than the source, for the same reason: the flash total is bounded by 100 per octopus, not given as the total of a reference simulation.
- Day11.PartB is stated weaker than the source. Inside the method, `synced` records after each step whether every octopus flashed in it, and `DidTheyAllFlash` is proved to agree with that record. The contract cannot name the grid built inside the method, so it does not tie the record to the octopuses, and the answer is not compared with a reference simulation.
- Day11.PartB: the search for the first synchronised step is bounded by a `limit` parameter. The source loops forever when the octopuses never synchronise, and the model returns `None` after `limit` steps.
- Day12.PartA requires that no input line joins two big caves. The model's termination measure is the number of small-cave visits still allowed, and a step between two big caves does not reduce it. Puzzle inputs have no such line; with one, the source's path recursion goes back and forth between the two caves until CPython raises `RecursionError`.
- Day12.PartB requires the same of its input, for the same reason.
- Day14.ParseRules refuses a rule whose insert is not exactly one character, such as the line `AB -> XY`, and returns `Err`. The source stores such an insert as a string and splices it into the polymer as one multi-character element; its later lookups then use keys of other lengths. Puzzle inputs insert one letter per rule, and the model keeps elements as single characters.
- Day14.ReadPolymerAndReplacements returns the same `Err` for such a rule, for the same reason.
- Day14.PartA returns the same `Err` for such a rule, where the source goes on growing.
- Day14.PartB returns the same `Err` for such a rule, where the source goes on counting pairs.
- Day15.AStar: the frontier is an unordered sequence from which the least entry is popped, not `heapq`'s heap layout. The search loop is bounded by a `maxPops` parameter.
- Day15.AStar: every recorded cost is proved to be the risk of a real route from the start. That the returned cost is the least such risk is not proved.
- Day15.AStar requires a square grid of digits. The solver assumes this shape when it uses one side length for both dimensions, and its costs only ever grow along a route.
- Day15.PartA requires square input lines, for the same reason.
- Day15.PartB requires square input lines, for the same reason.
- Day15.ExpandGrid returns the expanded grid as a new value; the in-place appends to the caller's list, and any aliasing of it, are not modelled.
- Day16: taking bits past the end of the stream follows Python slicing. Fewer bits come back while the cursor still advances, and `int('', 2)` is an `Err`.
- Day18: snailfish numbers are a value datatype. `explode` and `split` are functions on trees, proved against their leftmost-leaf specifications; the in-place rewriting through explicit stacks, and the sharing of node objects it allows, are not modelled.
- Day18.Reduce carries a fuel bound. When the fuel runs out it returns `None` rather than looping until no rule applies.
- Day18.Add carries the same fuel bound, because it reduces the pair it builds.
- The script block at the end of day 18, which reads a file, sums the numbers and prints, is not part of the model; `Day18.Add` and `Day18.Magnitude` are its pieces.
- Day17.Step follows the code, which sets a negative horizontal speed to 0 in one step. The puzzle's "one toward 0" is not what the code does; the search only uses speeds of at least 0, where the two agree.
- Day17.HitsInSearch assumes a target to the right of and below the launch point, as the puzzle inputs are. Elsewhere the source's search box need not cover every hit.
- Day17.SearchComplete makes the same assumption.
- Day20.PartA requires a 512-character algorithm and a square image. A ragged image, a shorter algorithm or an empty row are not modelled.
- Day20.PartB has the same requirement.
- Day20.Image.constructor has the same requirement.
- Day21.PartA requires starting positions of at least 1. The model's termination measure is the score still missing to 1000, which falls every turn only while positions are at least 1; puzzle inputs start on the track 1..10. From a lower start the source's loop still ends once the positions climb onto the track; that climb is not modelled.
- Day21.PartB has the same requirement, for the same reason: its measure is the score still missing to 21. From a start far below 1 the scores first fall, and the source's recursion goes deeper than CPython allows and ends in a `RecursionError`.
- Day22.PartA counts lit cubes only for instructions with each lower bound at most its upper bound, as every `x=a..b` of the puzzle is. For an inverted instruction the source's `volume()` multiplies negative side lengths, which counts no cubes.
- Day22.PartB has the same limit.
- The other files of the repository are not part of this model:
  - the template;
  - the Go duplicates of days 1 and 2;
  - the early day 1 scripts.

## Findings

| source | as written | input that shows it | evidently intended | confidence | as-written member | corrected member |
|---|---|---|---|---|---|---|
| day06-fish-generations/day06.py:48 | the loop bound `num_days\|+1` is parsed as a bitwise or, `num_days \| 1` | `num_days = 1` with one fish at age 0: the loop never runs and the answer is 1 | run `num_days` days, giving 2 | not executed | Day06.OneDayCounterexample | Day06.PartA |
| day04/day04.py:42 | the row loop runs over `range(0, 20, 5)`, so the fifth row (cells 20..24) is never checked | one board numbered 0..24 and the draws 20..24: the bottom row is full, yet no board wins and the no-winner exception is raised | check all five rows, so that board wins with score 24 * 190 = 4560 | not executed | Day04.BottomRowGame | Day04.CheckBoardMeans |
